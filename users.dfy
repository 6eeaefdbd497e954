/**
 * The user directory: the in-memory `users` array of the users service and the
 * handlers that fetch, create, partially update and delete its records.
 */
module Users {
  import opened Common
  import opened JsArray

  /** A user record; `name` and `email` are kept exactly as a request supplied them. */
  datatype User = User(id: string, name: JsValue, email: JsValue, createdAt: string)

  /** The index `findIndex` yields for an id, or -1. */
  function IndexOfId(users: seq<User>, id: string): int {
    FindIndex(users, (u: User) => u.id == id)
  }

  /** `GET /users/:id`: the first user with that id, or nothing (404). */
  function GetUser(users: seq<User>, id: string): (r: Option<User>)
    ensures r.None? <==> forall u :: u in users ==> u.id != id
    ensures r.Some? ==>
      exists i :: 0 <= i < |users| && users[i] == r.value && r.value.id == id
                  && forall j :: 0 <= j < i ==> users[j].id != id
  {
    Find(users, (u: User) => u.id == id)
  }

  /** The duplicate check `users.find(u => u.email === email)`: some user already has this email. */
  function EmailInUse(users: seq<User>, email: JsValue): (taken: bool)
    ensures taken <==> exists u :: u in users && StrictEq(u.email, email)
  {
    Find(users, (u: User) => StrictEq(u.email, email)).Some?
  }

  /**
   * The decision of `POST /users` and the record it creates, given the fresh
   * id and the current time: both fields must be truthy, then the email must
   * not be in use.
   */
  function CreateUser(users: seq<User>, name: JsValue, email: JsValue, id: string, now: string): (r: Outcome<User>)
    ensures r == BadRequest(MissingFields) <==> !Truthy(name) || !Truthy(email)
    ensures r == BadRequest(EmailTaken) <==>
      Truthy(name) && Truthy(email) && exists u :: u in users && StrictEq(u.email, email)
    ensures r.Ok? <==>
      Truthy(name) && Truthy(email) && forall u :: u in users ==> !StrictEq(u.email, email)
    ensures r.Ok? ==>
      r.value.id == id && r.value.name == name && r.value.email == email && r.value.createdAt == now
    ensures !r.NotFound?
  {
    if !Truthy(name) || !Truthy(email) then BadRequest(MissingFields)
    else if EmailInUse(users, email) then BadRequest(EmailTaken)
    else Ok(User(id, name, email, now))
  }

  /**
   * The decision of `PUT /users/:id` and the updated record: an unknown id is
   * 404; otherwise each of `name` and `email` replaces the stored value only
   * when it is truthy, and nothing is validated, email uniqueness included.
   */
  function UpdateUser(users: seq<User>, id: string, name: JsValue, email: JsValue): (r: Outcome<User>)
    ensures r.NotFound? <==> forall u :: u in users ==> u.id != id
    ensures r.Ok? <==> exists u :: u in users && u.id == id
    ensures r.Ok? ==>
      var old_ := users[IndexOfId(users, id)];
      && 0 <= IndexOfId(users, id)
      && r.value.id == id && r.value.id == old_.id && r.value.createdAt == old_.createdAt
      && (Truthy(name) ==> r.value.name == name) && (!Truthy(name) ==> r.value.name == old_.name)
      && (Truthy(email) ==> r.value.email == email) && (!Truthy(email) ==> r.value.email == old_.email)
  {
    var i := IndexOfId(users, id);
    if i == -1 then NotFound
    else
      var u := users[i];
      var u' := if Truthy(name) then u.(name := name) else u;
      Ok(if Truthy(email) then u'.(email := email) else u')
  }

  /** No two users share an id. */
  ghost predicate UniqueIds(users: seq<User>) {
    forall i, j :: 0 <= i < j < |users| ==> users[i].id != users[j].id
  }

  /** No two users have emails that `===` equates. */
  ghost predicate DistinctEmails(users: seq<User>) {
    forall i, j :: 0 <= i < j < |users| ==> !StrictEq(users[i].email, users[j].email)
  }

  /** Creating a user keeps the emails of the directory pairwise distinct. */
  lemma CreateKeepsEmailsDistinct(users: seq<User>, name: JsValue, email: JsValue, id: string, now: string)
    requires DistinctEmails(users)
    requires CreateUser(users, name, email, id, now).Ok?
    ensures DistinctEmails(users + [CreateUser(users, name, email, id, now).value])
  {
    var added := users + [CreateUser(users, name, email, id, now).value];
    forall i, j | 0 <= i < j < |added|
      ensures !StrictEq(added[i].email, added[j].email)
    {
      if j == |users| {
        assert added[i] == users[i];
        assert users[i] in users;
      }
    }
  }

  /**
   * An update that leaves the email alone (a falsy `email`) keeps the emails
   * pairwise distinct.
   */
  lemma UpdateWithoutEmailKeepsEmailsDistinct(users: seq<User>, id: string, name: JsValue, email: JsValue)
    requires DistinctEmails(users)
    requires !Truthy(email)
    requires UpdateUser(users, id, name, email).Ok?
    ensures DistinctEmails(users[IndexOfId(users, id) := UpdateUser(users, id, name, email).value])
  {
  }

  /**
   * The update handler does not re-check uniqueness: giving one user the email
   * another user already has is accepted and leaves two users with that email.
   */
  lemma UpdateToTakenEmailBreaksDistinctness(users: seq<User>, id: string, name: JsValue, k: nat)
    requires 0 <= IndexOfId(users, id)
    requires k < |users| && k != IndexOfId(users, id)
    requires Truthy(users[k].email) && !users[k].email.Arr? && !users[k].email.Obj?
    ensures UpdateUser(users, id, name, users[k].email).Ok?
    ensures !DistinctEmails(users[IndexOfId(users, id) := UpdateUser(users, id, name, users[k].email).value])
  {
    var i := IndexOfId(users, id);
    var updated := users[i := UpdateUser(users, id, name, users[k].email).value];
    assert StrictEq(updated[i].email, updated[k].email);
    if i < k {
      assert !DistinctEmails(updated);
    } else {
      assert StrictEq(updated[k].email, updated[i].email);
    }
  }

  /**
   * Email literals that overflow a double with the same sign (say 1e400 and
   * 1e500) parse to the same infinity, so a create with one is refused as
   * taken when any stored user has the other.
   */
  lemma OverflowingEmailsCollide(users: seq<User>, name: JsValue, negative: bool, id: string, now: string)
    requires exists u :: u in users && u.email == Infinite(negative)
    requires Truthy(name)
    ensures CreateUser(users, name, Infinite(negative), id, now) == BadRequest(EmailTaken)
  {
  }

  /** Once a user is deleted from a directory with unique ids, looking its id up finds nothing. */
  lemma DeletedUserGone(users: seq<User>, id: string)
    requires UniqueIds(users)
    requires 0 <= IndexOfId(users, id)
    ensures GetUser(Splice(users, IndexOfId(users, id)), id) == None
  {
    var i := IndexOfId(users, id);
    var rest := Splice(users, i);
    forall u | u in rest
      ensures u.id != id
    {
      var k :| 0 <= k < |rest| && rest[k] == u;
      if k < i {
        assert u == users[k];
      } else {
        assert u == users[k + 1];
      }
    }
  }

  /**
   * The `users` array and the handlers that change it. `GET /users` returns
   * the array itself. `freshId` and `now` stand for `uuidv4` and the clock.
   */
  class UserDirectory {
    var users: seq<User>

    ghost predicate Valid()
      reads this
    {
      UniqueIds(users)
    }

    constructor ()
      ensures Valid() && users == []
    {
      users := [];
    }

    /** `POST /users`: appends the new user unless a field is missing or the email is taken. */
    method Create(name: JsValue, email: JsValue, freshId: string, now: string) returns (r: Outcome<User>)
      requires Valid()
      requires forall u :: u in users ==> u.id != freshId
      modifies this
      ensures Valid()
      ensures r == CreateUser(old(users), name, email, freshId, now)
      ensures users == if r.Ok? then old(users) + [r.value] else old(users)
    {
      if !Truthy(name) || !Truthy(email) {
        return BadRequest(MissingFields);
      }
      if Find(users, (u: User) => StrictEq(u.email, email)).Some? {
        return BadRequest(EmailTaken);
      }
      var user := User(freshId, name, email, now);
      users := users + [user];
      r := Ok(user);
    }

    /** `PUT /users/:id`: overwrites `name` and `email` in place, each only when the new value is truthy. */
    method Update(id: string, name: JsValue, email: JsValue) returns (r: Outcome<User>)
      requires Valid()
      modifies this
      ensures Valid()
      ensures r == UpdateUser(old(users), id, name, email)
      ensures users == if r.Ok? then old(users)[IndexOfId(old(users), id) := r.value] else old(users)
    {
      var i := IndexOfId(users, id);
      if i == -1 {
        return NotFound;
      }
      if Truthy(name) {
        users := users[i := users[i].(name := name)];
      }
      if Truthy(email) {
        users := users[i := users[i].(email := email)];
      }
      r := Ok(users[i]);
    }

    /** `DELETE /users/:id`: splices out the first user with that id. */
    method Delete(id: string) returns (r: Outcome<()>)
      requires Valid()
      modifies this
      ensures Valid()
      ensures r.Ok? <==> exists u :: u in old(users) && u.id == id
      ensures !r.Ok? ==> r == NotFound && users == old(users)
      ensures r.Ok? ==> users == Splice(old(users), IndexOfId(old(users), id))
    {
      var i := IndexOfId(users, id);
      if i == -1 {
        return NotFound;
      }
      users := Splice(users, i);
      r := Ok(());
    }
  }
}
