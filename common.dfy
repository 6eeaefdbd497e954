/**
 * Values shared by both services: the JSON values that Express hands a route
 * handler, JavaScript's notion of truthiness and of `===`, and the three kinds
 * of reply a handler sends (success, 404, 400).
 */
module Common {

  datatype Option<T> = None | Some(value: T)

  /**
   * A value read out of a parsed JSON request body or query string.
   * `Undefined` stands for a property that is absent. `Num` holds the value
   * of the double that JSON parsing produced, after rounding, so two literals
   * that round to the same double (or that underflow to 0) are the same `Num`.
   * A literal too large for a double parses to an infinity, kept as
   * `Infinite`. JSON parsing never produces NaN.
   */
  datatype JsValue =
    | Undefined
    | Null
    | Bool(b: bool)
    | Num(n: real)
    | Infinite(negative: bool)
    | Str(s: string)
    | Arr(elems: seq<JsValue>)
    | Obj(fields: map<string, JsValue>)

  /**
   * JavaScript's ToBoolean, which `if (x)` and `!x` apply: undefined, null,
   * false, 0 (and -0) and the empty string are falsy; every other string or
   * number, and every array or object (even an empty one), is truthy.
   */
  predicate Truthy(v: JsValue): (truthy: bool)
    ensures !truthy <==> v in {Undefined, Null, Bool(false), Num(0.0), Str("")}
  {
    match v
    case Undefined => false
    case Null => false
    case Bool(b) => b
    case Num(n) => n != 0.0
    case Infinite(_) => true
    case Str(s) => s != ""
    case Arr(_) => true
    case Obj(_) => true
  }

  /**
   * JavaScript's `===` between a stored value and a value from the current
   * request. Primitives compare by value. Arrays and objects compare by
   * identity, and a value parsed from one request is never the same object as
   * one parsed from another, so they never compare equal.
   */
  predicate StrictEq(a: JsValue, b: JsValue): (same: bool)
    ensures same ==> a == b
    ensures same <==> a == b && !b.Arr? && !b.Obj?
    ensures a.Arr? || a.Obj? || b.Arr? || b.Obj? ==> !same
  {
    !a.Arr? && !a.Obj? && a == b
  }

  /** Why a request was answered with 400 Bad Request. */
  datatype Reason =
    | MissingFields           // a required body property is missing or falsy
    | ItemsNotNonEmptyArray   // `items` is not an array, or is an empty one
    | UnknownUser             // the user directory did not confirm the user
    | InvalidStatus           // not one of the five order statuses
    | EmailTaken              // another user already has this email

  /** The reply of a handler: 200/201/204 with a value, 404, or 400 with a reason. */
  datatype Outcome<T> = Ok(value: T) | NotFound | BadRequest(reason: Reason)
}
