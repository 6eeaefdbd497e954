/**
 * The order ledger: the in-memory `orders` array of the orders service and the
 * handlers that create, list, fetch, re-status and delete its records.
 */
module Orders {
  import opened Common
  import opened JsArray

  /** The closed set of order statuses. */
  datatype Status = Pending | Processing | Shipped | Delivered | Cancelled

  /** The string under which a status is stored and compared. */
  function StatusName(s: Status): string {
    match s
    case Pending => "pending"
    case Processing => "processing"
    case Shipped => "shipped"
    case Delivered => "delivered"
    case Cancelled => "cancelled"
  }

  /**
   * The check `validStatuses.includes(status)`: a requested status is accepted
   * exactly when it is one of the five names, compared case-sensitively.
   */
  function ParseStatus(v: JsValue): (r: Option<Status>)
    ensures forall s :: r == Some(s) <==> v == Str(StatusName(s))
  {
    if v == Str("pending") then Some(Pending)
    else if v == Str("processing") then Some(Processing)
    else if v == Str("shipped") then Some(Shipped)
    else if v == Str("delivered") then Some(Delivered)
    else if v == Str("cancelled") then Some(Cancelled)
    else None
  }

  /**
   * An order record. `userId`, `items` and `total` are kept exactly as the
   * request supplied them; `updatedAt` is absent until the first status change.
   */
  datatype Order = Order(
    id: string,
    userId: JsValue,
    items: seq<JsValue>,
    total: JsValue,
    status: Status,
    createdAt: string,
    updatedAt: Option<string>)

  /** The reply of the user directory to `GET /users/:userId`, or a transport failure. */
  datatype UserLookup = Answered(httpStatus: int) | Failed

  /**
   * `verifyUser`: the user counts as existing only when the directory answered
   * 200; a failed request, a 404 or any other status counts as "no such user".
   */
  function VerifyUser(lookup: UserLookup): (exists_: bool)
    ensures exists_ <==> lookup.Answered? && lookup.httpStatus == 200
    // Implied by the line above; stated on its own as the fail-closed policy.
    ensures lookup.Failed? ==> !exists_
  {
    match lookup
    case Answered(code) => code == 200
    case Failed => false
  }

  /**
   * The decision of `POST /orders` and the record it creates, given the
   * directory's verdict on the user, the fresh id and the current time.
   * The three guards run in order and the first that fails decides the reply.
   */
  function CreateOrder(userId: JsValue, items: JsValue, total: JsValue, userExists: bool,
                       id: string, now: string): (r: Outcome<Order>)
    ensures r == BadRequest(MissingFields) <==> !Truthy(userId) || !Truthy(items) || !Truthy(total)
    ensures r == BadRequest(ItemsNotNonEmptyArray) <==>
      Truthy(userId) && Truthy(total) && (!items.Arr? || items.elems == []) && Truthy(items)
    ensures r == BadRequest(UnknownUser) <==>
      Truthy(userId) && Truthy(total) && items.Arr? && items.elems != [] && !userExists
    ensures r.Ok? <==> Truthy(userId) && Truthy(total) && items.Arr? && items.elems != [] && userExists
    ensures r.Ok? ==>
      && r.value.id == id && r.value.userId == userId && r.value.items == items.elems
      && r.value.total == total && r.value.status == Pending
      && r.value.createdAt == now && r.value.updatedAt == None
    ensures !r.NotFound?
  {
    if !Truthy(userId) || !Truthy(items) || !Truthy(total) then BadRequest(MissingFields)
    else if !items.Arr? || |items.elems| == 0 then BadRequest(ItemsNotNonEmptyArray)
    else if !userExists then BadRequest(UnknownUser)
    else Ok(Order(id, userId, items.elems, total, Pending, now, None))
  }

  /** Whether an order passes the `userId` and `status` query filters; a falsy filter value is no filter. */
  predicate Matches(o: Order, userQuery: JsValue, statusQuery: JsValue): (keep: bool)
    ensures !Truthy(userQuery) && !Truthy(statusQuery) ==> keep
    ensures keep && Truthy(userQuery) ==> o.userId == userQuery && !userQuery.Arr? && !userQuery.Obj?
    ensures keep && Truthy(statusQuery) ==> statusQuery == Str(StatusName(o.status))
    ensures ((Truthy(userQuery) ==> o.userId == userQuery && !userQuery.Arr? && !userQuery.Obj?)
             && (Truthy(statusQuery) ==> ParseStatus(statusQuery) == Some(o.status))) ==> keep
  {
    && (Truthy(userQuery) ==> StrictEq(o.userId, userQuery))
    && (Truthy(statusQuery) ==> StrictEq(Str(StatusName(o.status)), statusQuery))
  }

  /** `GET /orders`: the user filter, then the status filter, each applied only when given. */
  function ListOrders(orders: seq<Order>, userQuery: JsValue, statusQuery: JsValue): (r: seq<Order>)
    ensures |r| <= |orders|
    ensures forall o :: o in r <==> o in orders && Matches(o, userQuery, statusQuery)
  {
    var byUser :=
      if Truthy(userQuery) then Filter(orders, (o: Order) => StrictEq(o.userId, userQuery))
      else orders;
    if Truthy(statusQuery) then Filter(byUser, (o: Order) => StrictEq(Str(StatusName(o.status)), statusQuery))
    else byUser
  }

  /** The index `findIndex` yields for an id, or -1. */
  function IndexOfId(orders: seq<Order>, id: string): int {
    FindIndex(orders, (o: Order) => o.id == id)
  }

  /** `GET /orders/:id`: the first order with that id, or nothing (404). */
  function GetOrder(orders: seq<Order>, id: string): (r: Option<Order>)
    ensures r.None? <==> forall o :: o in orders ==> o.id != id
    ensures r.Some? ==>
      exists i :: 0 <= i < |orders| && orders[i] == r.value && r.value.id == id
                  && forall j :: 0 <= j < i ==> orders[j].id != id
  {
    Find(orders, (o: Order) => o.id == id)
  }

  /** Two records that differ at most in `status` and `updatedAt`. */
  predicate SameButStatus(a: Order, b: Order) {
    a.id == b.id && a.userId == b.userId && a.items == b.items && a.total == b.total && a.createdAt == b.createdAt
  }

  /**
   * The decision of `PATCH /orders/:id/status` and the updated record. The id
   * is looked up before the status is validated, and the current status of the
   * order plays no part: any of the five statuses may follow any other.
   */
  function StatusUpdate(orders: seq<Order>, id: string, requested: JsValue, now: string): (r: Outcome<Order>)
    ensures r.NotFound? <==> forall o :: o in orders ==> o.id != id
    ensures r == BadRequest(InvalidStatus) <==> (exists o :: o in orders && o.id == id) && ParseStatus(requested).None?
    ensures r.Ok? <==> (exists o :: o in orders && o.id == id) && ParseStatus(requested).Some?
    ensures r.Ok? ==>
      && 0 <= IndexOfId(orders, id)
      && SameButStatus(r.value, orders[IndexOfId(orders, id)])
      && requested == Str(StatusName(r.value.status))
      && r.value.updatedAt == Some(now)
  {
    var i := IndexOfId(orders, id);
    if i == -1 then NotFound
    else match ParseStatus(requested)
      case None => BadRequest(InvalidStatus)
      case Some(s) => Ok(orders[i].(status := s, updatedAt := Some(now)))
  }

  /** No two orders share an id. */
  ghost predicate UniqueIds(orders: seq<Order>) {
    forall i, j :: 0 <= i < j < |orders| ==> orders[i].id != orders[j].id
  }

  /**
   * What every reachable store satisfies: ids are unique, and every order has
   * the truthy `userId` and `total` and the non-empty `items` its creation checked.
   */
  ghost predicate WellFormed(orders: seq<Order>) {
    && UniqueIds(orders)
    && forall o :: o in orders ==> Truthy(o.userId) && Truthy(o.total) && o.items != []
  }

  /** `GET /orders` keeps exactly the orders matching both filters, in store order: one conjunctive filter. */
  lemma ListOrdersIsConjunctiveFilter(orders: seq<Order>, userQuery: JsValue, statusQuery: JsValue)
    ensures ListOrders(orders, userQuery, statusQuery) == Filter(orders, (o: Order) => Matches(o, userQuery, statusQuery))
  {
    var byUser := (o: Order) => StrictEq(o.userId, userQuery);
    var byStatus := (o: Order) => StrictEq(Str(StatusName(o.status)), statusQuery);
    var both := (o: Order) => Matches(o, userQuery, statusQuery);
    if Truthy(userQuery) && Truthy(statusQuery) {
      FilterComposes(orders, byUser, byStatus, both);
    } else if Truthy(userQuery) {
      FilterAgrees(orders, byUser, both);
    } else if Truthy(statusQuery) {
      FilterAgrees(orders, byStatus, both);
    } else {
      FilterKeepsAll(orders, both);
    }
  }

  /** A newly created order is found by its id and appears exactly once in the unfiltered listing. */
  lemma CreatedOrderListedOnce(orders: seq<Order>, o: Order)
    requires forall x :: x in orders ==> x.id != o.id
    ensures GetOrder(orders + [o], o.id) == Some(o)
    ensures Filter(ListOrders(orders + [o], Undefined, Undefined), (x: Order) => x.id == o.id) == [o]
  {
    var sameId := (x: Order) => x.id == o.id;
    FilterAppend(orders, [o], sameId);
    FilterDropsAll(orders, sameId);
    assert Filter([o], sameId) == [o] by {
      assert [o][1..] == [];
    }
    var r := GetOrder(orders + [o], o.id);
    assert r.Some? by {
      assert (orders + [o])[|orders|] == o;
    }
  }

  /** Once an order is deleted from a store with unique ids, looking its id up finds nothing. */
  lemma DeletedOrderGone(orders: seq<Order>, id: string)
    requires UniqueIds(orders)
    requires 0 <= IndexOfId(orders, id)
    ensures GetOrder(Splice(orders, IndexOfId(orders, id)), id) == None
  {
    var i := IndexOfId(orders, id);
    var rest := Splice(orders, i);
    forall o | o in rest
      ensures o.id != id
    {
      var k :| 0 <= k < |rest| && rest[k] == o;
      if k < i {
        assert o == orders[k];
      } else {
        assert o == orders[k + 1];
      }
    }
  }

  /**
   * The `orders` array and the handlers that change it. Each method runs the
   * handler's steps to completion; `now` and `freshId` stand for the clock and
   * `uuidv4`.
   */
  class OrderLedger {
    var orders: seq<Order>

    ghost predicate Valid()
      reads this
    {
      WellFormed(orders)
    }

    constructor ()
      ensures Valid() && orders == []
    {
      orders := [];
    }

    /** `POST /orders`. The directory is consulted only once the request itself has passed its checks. */
    method Create(userId: JsValue, items: JsValue, total: JsValue, lookup: UserLookup,
                  freshId: string, now: string) returns (r: Outcome<Order>)
      requires Valid()
      requires forall o :: o in orders ==> o.id != freshId
      modifies this
      ensures Valid()
      ensures r == CreateOrder(userId, items, total, VerifyUser(lookup), freshId, now)
      ensures orders == if r.Ok? then old(orders) + [r.value] else old(orders)
    {
      if !Truthy(userId) || !Truthy(items) || !Truthy(total) {
        return BadRequest(MissingFields);
      }
      if !items.Arr? || |items.elems| == 0 {
        return BadRequest(ItemsNotNonEmptyArray);
      }
      var userExists := VerifyUser(lookup);
      if !userExists {
        return BadRequest(UnknownUser);
      }
      var order := Order(freshId, userId, items.elems, total, Pending, now, None);
      orders := orders + [order];
      r := Ok(order);
    }

    /** `PATCH /orders/:id/status`: overwrites `status` and `updatedAt` of the order in place. */
    method UpdateStatus(id: string, requested: JsValue, now: string) returns (r: Outcome<Order>)
      requires Valid()
      modifies this
      ensures Valid()
      ensures r == StatusUpdate(old(orders), id, requested, now)
      ensures orders == if r.Ok? then old(orders)[IndexOfId(old(orders), id) := r.value] else old(orders)
    {
      var i := IndexOfId(orders, id);
      if i == -1 {
        return NotFound;
      }
      var status := ParseStatus(requested);
      if status.None? {
        return BadRequest(InvalidStatus);
      }
      orders := orders[i := orders[i].(status := status.value, updatedAt := Some(now))];
      r := Ok(orders[i]);
    }

    /** `DELETE /orders/:id`: splices out the first order with that id. */
    method Delete(id: string) returns (r: Outcome<()>)
      requires Valid()
      modifies this
      ensures Valid()
      ensures r.Ok? <==> exists o :: o in old(orders) && o.id == id
      ensures !r.Ok? ==> r == NotFound && orders == old(orders)
      ensures r.Ok? ==> orders == Splice(old(orders), IndexOfId(old(orders), id))
    {
      var i := IndexOfId(orders, id);
      if i == -1 {
        return NotFound;
      }
      orders := Splice(orders, i);
      r := Ok(());
    }
  }

  /**
   * A client of the ledger: an order for a confirmed user is created pending,
   * moved to shipped, and a status outside the five is then refused with the
   * record left as it was.
   */
  method ShippingScenario() {
    var ledger := new OrderLedger();
    var laptop := Obj(map["name" := Str("Laptop"), "quantity" := Num(1.0), "price" := Num(999.99)]);
    var created := ledger.Create(Str("u1"), Arr([laptop]), Num(999.99), Answered(200), "o1", "t0");
    assert created.Ok? && created.value.status == Pending;
    var shipped := ledger.UpdateStatus("o1", Str("shipped"), "t1");
    assert shipped.Ok? && shipped.value.status == Shipped && shipped.value.updatedAt == Some("t1");
    var bogus := ledger.UpdateStatus("o1", Str("bogus"), "t2");
    assert bogus == BadRequest(InvalidStatus);
    assert ledger.orders == [shipped.value];
    var gone := ledger.Delete("o1");
    assert gone.Ok? && ledger.orders == [];
  }
}
