# Order ledger and user directory

A Dafny model of the two in-memory record stores of a pair of Express
microservices:

- the **order ledger** of the orders service, the array `orders`, with the
  handlers that create an order for a user the user directory confirms, list
  orders filtered by user and by status, fetch one order, set an order's
  status and delete an order;
- the **user directory** of the users service, the array `users`, with the
  handlers that fetch a user, create a user with an unused email, partially
  update a user and delete a user.

Each store is a class holding a `seq` of records (`Orders.OrderLedger`,
`Users.UserDirectory`). The handlers that change a store are methods that
run the handler's steps in order (`push`, in-place field assignment,
`splice`). Their `ensures` tie the reply and the new contents to a pure
function of the old contents (`CreateOrder`, `StatusUpdate`, `CreateUser`,
`UpdateUser`) or to `Splice`. The read-only handlers are functions of the
store's contents (`ListOrders`, `GetOrder`, `GetUser`). The `Array.prototype`
operations the handlers use (`findIndex`, `find`, `filter`, `splice`) are
modelled once, in module `JsArray`.

Request values are JSON values (`Common.JsValue`, with `Undefined` for a
missing property). `Truthy` is JavaScript's truthiness, so a `total` of `0`,
an empty string, `null` and `false` are all rejected as missing. `StrictEq` is
`===`: arrays and objects from different requests are never equal. A reply is
`Ok`, `NotFound` (404) or `BadRequest` (400) with a `Reason`.

The clock, `uuidv4` and the call to the user directory are parameters: `now`,
`freshId` (assumed absent from the store, as a fresh UUID is) and
`UserLookup`. `UserLookup` is the directory's HTTP answer or a transport
failure. `VerifyUser` turns it into the yes/no the create handler consults.

Some behaviour of the code the model keeps as it is:

- item fields are never checked, only that `items` is a non-empty array;
- a `total` of 0 is rejected, since the check is a truthiness test;
- the store never checks for duplicate ids, which the fresh-id parameter rules out;
- status changes are unrestricted (any status to any status).

`Orders.ShippingScenario` is a client of the ledger that uses only the
methods' contracts. It creates an order for a confirmed user, which starts
pending. It moves the order to shipped, sees a status outside the five
refused with the record unchanged, and deletes the order, leaving the
ledger empty.

## Model

| member | source | states |
|---|---|---|
| `Common.Truthy` | orders-service/server.js:236 | false exactly for undefined, null, false, 0 and the empty string; true for every other string and number, every infinity, and every array or object (also the tests at orders-service/server.js:142, :146 and users-service/server.js:165, :222-223) |
| `Common.StrictEq` | orders-service/server.js:143 | `===` between a stored and a request value: only equal values are equal, equal primitives are equal, and an array or object is never equal to anything (also orders-service/server.js:147 and users-service/server.js:170) |
| `JsArray.FindIndex` | orders-service/server.js:299 | the index of the first element satisfying the predicate, or -1 exactly when none does |
| `JsArray.Find` | orders-service/server.js:177 | nothing exactly when no element satisfies the predicate; otherwise the first element that does |
| `JsArray.Filter` | orders-service/server.js:143 | keeps exactly the elements satisfying the predicate, never more than the input |
| `JsArray.Splice` | orders-service/server.js:342 | removing index i: one element shorter, elements before i unmoved, elements after i shifted down by one, multiset minus the removed element |
| `JsArray.FilterAppend` | orders-service/server.js:143 | filtering distributes over concatenation, so kept elements stay in their original relative order |
| `JsArray.FilterMultiplicity` | orders-service/server.js:143 | each element occurs in the result as often as in the input if it satisfies the predicate, otherwise not at all |
| `JsArray.FilterAgrees` | orders-service/server.js:143 | predicates agreeing on every element give the same result |
| `JsArray.FilterKeepsAll` | orders-service/server.js:140 | a predicate true of every element returns the input unchanged |
| `JsArray.FilterDropsAll` | orders-service/server.js:143 | a predicate true of no element returns the empty sequence |
| `JsArray.FilterComposes` | orders-service/server.js:142-148 | filtering by p and then by q equals one filter by their conjunction |
| `Orders.ParseStatus` | orders-service/server.js:304-309 | a status is accepted exactly when it is the string name of one of the five statuses (case-sensitive), and yields that status |
| `Orders.VerifyUser` | orders-service/server.js:94-102 | fail-closed: the user exists only if the directory answered 200; a transport failure or any other status means no |
| `Orders.CreateOrder` | orders-service/server.js:233-260 | 400 MissingFields iff userId, items or total is falsy (0 included); else 400 ItemsNotNonEmptyArray iff items is not a non-empty array; else 400 UnknownUser iff the directory did not confirm the user; otherwise a record with the given userId, items and total, status pending, the fresh id, createdAt now and no updatedAt |
| `Orders.Matches` | orders-service/server.js:142-148 | with no truthy query value every order is kept; a truthy userId query keeps only orders whose userId is that same primitive value (an array or object query keeps none); a truthy status query keeps only orders whose status name it is; and an order meeting both is kept |
| `Orders.ListOrders` | orders-service/server.js:139-151 | the listing holds exactly the orders matching userId (when given) and status (when given), and is no longer than the store |
| `Orders.ListOrdersIsConjunctiveFilter` | orders-service/server.js:139-151 | the two successive filters equal one conjunctive filter over the store: matching orders in store order and multiplicity |
| `Orders.GetOrder` | orders-service/server.js:176-182 | nothing iff no order has the id; otherwise the first order with that id |
| `Orders.StatusUpdate` | orders-service/server.js:298-315 | 404 iff no order has the id (checked first); else 400 InvalidStatus iff the status is not one of the five; otherwise succeeds whatever the current status, giving the found record with the requested status and updatedAt now, every other field unchanged |
| `Orders.CreatedOrderListedOnce` | orders-service/server.js:250-259 | after appending an order with a fresh id, fetching that id finds it and the unfiltered listing holds exactly one order with that id |
| `Orders.DeletedOrderGone` | orders-service/server.js:336-344 | in a store with unique ids, after splicing out the order with an id, fetching that id finds nothing |
| `Orders.OrderLedger.constructor` | orders-service/server.js:19 | the ledger starts empty and well formed |
| `Orders.OrderLedger.Create` | orders-service/server.js:233-260 | the reply is `CreateOrder` with `VerifyUser`'s verdict; on success the store is the old store plus exactly that record at the end, otherwise unchanged; ids stay unique and every record keeps truthy userId and total and non-empty items |
| `Orders.OrderLedger.UpdateStatus` | orders-service/server.js:298-315 | the reply is `StatusUpdate`; on success only the record at the found index is replaced, so length, order and all other records are unchanged; on failure the store is unchanged; the ledger stays well formed |
| `Orders.OrderLedger.Delete` | orders-service/server.js:336-344 | 404 with the store unchanged iff no order has the id; otherwise the store is the old one spliced at the first matching index |
| `Users.GetUser` | users-service/server.js:121-127 | nothing iff no user has the id; otherwise the first user with that id |
| `Users.EmailInUse` | users-service/server.js:170 | true exactly when some stored user's email is `===` the given one |
| `Users.CreateUser` | users-service/server.js:162-183 | 400 MissingFields iff name or email is falsy; else 400 EmailTaken iff some user has that email; otherwise a record with the fresh id, the given name and email and createdAt now |
| `Users.UpdateUser` | users-service/server.js:215-226 | 404 iff no user has the id, never 400; otherwise the found user with name and email replaced only by truthy values, id and createdAt kept |
| `Users.CreateKeepsEmailsDistinct` | users-service/server.js:170-181 | if emails were pairwise distinct before a successful create, they still are after it |
| `Users.UpdateWithoutEmailKeepsEmailsDistinct` | users-service/server.js:221-223 | an update with a falsy email keeps pairwise distinct emails distinct |
| `Users.UpdateToTakenEmailBreaksDistinctness` | users-service/server.js:215-226 | updating a user to another user's (primitive, truthy) email succeeds and leaves two users with the same email: update does not keep the distinct-email invariant |
| `Users.OverflowingEmailsCollide` | users-service/server.js:170-172 | in any directory, a create with a truthy name whose email is an infinity that some stored user's email also is (same sign) is refused as EmailTaken |
| `Users.DeletedUserGone` | users-service/server.js:247-255 | in a directory with unique ids, after splicing out the user with an id, fetching that id finds nothing |
| `Users.UserDirectory.constructor` | users-service/server.js:17 | the directory starts empty with unique ids |
| `Users.UserDirectory.Create` | users-service/server.js:162-183 | the reply is `CreateUser`; on success the directory is the old one plus exactly that user at the end, otherwise unchanged; ids stay unique |
| `Users.UserDirectory.Update` | users-service/server.js:215-226 | the reply is `UpdateUser`; on success only the record at the found index is replaced, otherwise the directory is unchanged |
| `Users.UserDirectory.Delete` | users-service/server.js:247-255 | 404 with the directory unchanged iff no user has the id; otherwise the directory is the old one spliced at the first matching index |

## Left out

- Express setup, middleware (helmet, cors, JSON parsing), the OpenAPI/Swagger configuration and annotations, `/health` and `app.listen`: transport and documentation, not store logic.
- The HTTP request inside `verifyUser` (orders-service/server.js:96): network I/O; its result enters as the `UserLookup` parameter, and the URL built from `userId` is not modelled.
- `uuidv4` and `new Date().toISOString()`: randomness and the clock; they are the `freshId` and `now` parameters, and the fresh id is required to be absent from the store.
- The ordering of timestamps (`createdAt` before `updatedAt`): timestamps are opaque strings supplied by the caller.
- Floating-point arithmetic on `quantity`, `price` and `total`: the handlers never compute with numbers, only test them for truthiness and `===`. A number is kept as the real value of the double that JSON parsing produced, and a literal that overflows a double is kept as `Infinite` (equal under `===` to any other infinity of the same sign). JSON parsing never produces NaN.
- Interleaving of concurrent requests, including other requests running while `POST /orders` awaits `verifyUser`: each handler runs to completion.
- Status codes beyond the Ok / NotFound / BadRequest distinction, the JSON reply bodies and the error-message texts; `Reason` names which 400 check failed.
- `console.error` logging in `verifyUser`: output only.
- `GET /users` (users-service/server.js:94-96) returns the stored array as it is; it is the `users` field itself and has no separate member.
- Object identity inside a store: records are values, so the model does not capture that the reply of a handler is the very object kept in the array.
