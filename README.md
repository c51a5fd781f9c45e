# BuyInBuyOut purchase-request API, modelled in Dafny

BuyInBuyOut is a small HTTP API for purchase requests. Members register, log
in and receive a short-lived bearer token. They create purchase requests in
DRAFT, list and read their own, edit them and submit them. Users with the
APPROVER role approve or reject any request, and each verdict is recorded in
an approval-history table. A summary reports how many requests are in each
status.

This project models the request and authentication services, the token
middleware and the two controllers:

- `js.dfy` (`Js`): the JavaScript values the code relies on. These are
  optional values, numbers that may be NaN, and thrown errors with an
  optional `status`. It also covers truthiness, `String(n)`, `Number(s)`
  and `split(' ')`.
- `store.dfy` (`Store`): the database as five tables kept in insertion
  order. It has autoincrement ids, unique emails and usernames, and foreign
  keys. The lookups the services issue live here, and so does the mutable
  `Database` class.
- `requests_service.dfy` (`RequestsService`): the purchase-request
  workflow. Each writing operation appears twice. A `...Step` function
  maps the old tables to the new tables and the outcome, and carries the
  properties. A method that takes the `Database` and changes its tables
  does the reads and writes in the source's order and is proved to reach
  exactly that step. The queries are functions.
- `auth_service.dfy` (`AuthService`): `register` and `login`. bcrypt and
  jsonwebtoken are parameters, each with the laws the service relies on.
- `auth_middleware.dfy` (`AuthMiddleware`): token extraction, the
  401/403/next decision, and its effect on the request.
- `http.dfy`, `requests_controller.dfy`, `auth_controller.dfy`: responses,
  and the handlers as maps from input and service outcome to one response.
  For every route, a lemma composes the handler with its service and states
  the response in terms of the tables.

Where the documented behaviour and the code differ, the model follows the
code:

- `PATCH /requests/:id` is documented to answer 404 for a missing or foreign
  request. The service uses a single-row `update`, which throws in that
  case, and its result has no `count`, so the handler's 404 branch is dead
  and the client gets 500 (`UpdateMineStep`, `UpdateMineResponds`).
- `create` always attempts the join-row insert, even without an item. When that
  insert fails the request row stays and the client gets 500
  (`CreateResponds`).
- `submit`, `approve` and `reject` overwrite whatever status the request
  has. An approved request can be submitted again, and a rejected one
  approved.
- `register` answers "Email is already in use." when only the username is
  taken.

## Model

| member | source | states |
|---|---|---|
| Js.StringOf | src/services/auth.service.js:97 | `String(id)` is a non-empty string of decimal digits with no leading zero |
| Js.NumberOf | src/middlewares/auth.js:31 | `Number(s)` is NaN exactly when `s` has a non-digit character; otherwise a non-negative integer |
| Js.NumberOfStringOf | src/middlewares/auth.js:31 | `Number(String(n)) == n` for every id, by induction on the numeral |
| Js.StringOfInjective | src/services/auth.service.js:97 | distinct ids give distinct `sub` claims |
| Js.Split | src/middlewares/auth.js:26 | `split(' ')` gives at least one segment, no segment contains a space, and joining with spaces gives back the input |
| Js.SplitNoSpace | src/middlewares/auth.js:26 | a string without a space splits into itself alone |
| Js.SplitAtFirstSpace | src/middlewares/auth.js:26 | the text before the first space is the first segment, and the rest is split on its own |
| Store.FindUser | src/services/requests.service.js:130-133 | the first user whose id equals the number; none exactly when no user has it (NaN matches none) |
| Store.FindUserByEmail | src/services/auth.service.js:79 | the first user with the email; none exactly when no user has it |
| Store.FindRequest | src/services/requests.service.js:99-102 | the first request matching the id, and the owner when one is given; none exactly when no row matches |
| Store.FoundRequestIsUnique | src/services/requests.service.js:114-117 | with increasing ids, the `findUnique` by id finds the only row with that id |
| Store.AppendRequestKeepsOrder | src/services/requests.service.js:52-55 | a new request with the next id keeps ids increasing and is larger than every existing id |
| RequestsService.Owned | src/services/requests.service.js:19 | a projection is listed exactly when some row owned by the caller projects to it |
| RequestsService.InsertNewestFirst | src/services/requests.service.js:20 | inserting into a newest-first list keeps it newest first and adds exactly one element |
| RequestsService.SortNewestFirst | src/services/requests.service.js:20 | the result is newest first and a permutation of the input |
| RequestsService.ListMine | src/services/requests.service.js:17-23 | exactly the caller's rows, each as often as it occurs, as name/status/createdAt, newest first |
| RequestsService.GetMine | src/services/requests.service.js:34-39 | a row is returned exactly when one matches both id and owner, and it is that row's projection |
| RequestsService.GetMineHidesForeign | src/services/requests.service.js:34-39 | a request owned by someone else gives null, the same answer as if it did not exist |
| RequestsService.CountStatus | src/services/requests.service.js:227-230 | the group count is at most the table size, and zero exactly when no row has the status |
| RequestsService.Summary | src/services/requests.service.js:226-232 | a key is present exactly when some row has that status, and its value is the number of such rows (so at least 1) |
| RequestsService.SummaryTotal | src/services/requests.service.js:226-232 | the values of the summary sum to the number of requests |
| RequestsService.AppendRequestKeepsValid | src/services/requests.service.js:52-55 | a request with the next id, owned by an existing user, keeps the store's keys and foreign keys |
| RequestsService.CreateStep | src/services/requests.service.js:51-62 | missing owner: error, nothing written. Otherwise one DRAFT row owned by the caller is appended, then the join row; the result is Ok exactly when the item exists. On failure the request row stays and the error has no status |
| RequestsService.Create | src/services/requests.service.js:51-62 | the two inserts in order reach the state and outcome of `CreateStep` and keep the store's keys |
| RequestsService.UpdateMineStep | src/services/requests.service.js:75-87 | error without a status, and no change, exactly when no row matches id and owner; never null. Otherwise only that row changes: name and status are written only when truthy (any status string), `updatedAt` is set, and the fresh row is returned |
| RequestsService.UpdateMine | src/services/requests.service.js:75-87 | the update and re-read reach the state and outcome of `UpdateMineStep` |
| RequestsService.SubmitStep | src/services/requests.service.js:98-118 | 404 "Not found" and no change exactly when no row matches id and owner; otherwise only that row changes, to SUBMITTED, whatever it was |
| RequestsService.Submit | src/services/requests.service.js:98-118 | the read, the update guarded by the status just read, and the re-read reach `SubmitStep` |
| RequestsService.ApproverByRole | src/services/requests.service.js:130-138 | with unique user ids, the role gate passes exactly when some user has the caller's id and the APPROVER role |
| RequestsService.ReviewStep | src/services/requests.service.js:129-164 | 403 exactly when the caller is missing or not an APPROVER, before the request is looked up; then 404 exactly when no request has the id; success exactly when an approver acts on an existing id. On failure nothing changes. On success that one request (any owner, any status) gets the verdict's status, and exactly one history row with its id and the verdict's text is appended |
| RequestsService.Review | src/services/requests.service.js:150-161 | role read, request read, update, history insert reach `ReviewStep` |
| RequestsService.Approve | src/services/requests.service.js:129-164 | `approve` is the review with status APPROVED and "Purchase request changed to approved" |
| RequestsService.Reject | src/services/requests.service.js:175-210 | `reject` is the review with status REJECTED and "Purchase request changed to rejected" |
| RequestsService.CreateItemStep | src/services/requests.service.js:242-253 | with both fields given, one item with a fresh id is appended, nothing else changes, and its name and cost are returned; it succeeds exactly when both are given, and a missing one throws an error without a status and writes nothing |
| RequestsService.CreateItem | src/services/requests.service.js:242-253 | the insert reaches `CreateItemStep` |
| AuthService.FindLogin | src/services/auth.service.js:34-39 | the first user whose email or username matches; none exactly when neither is taken |
| AuthService.RegisterStep | src/services/auth.service.js:33-53 | 409 and no insert exactly when the email or the username is taken. Otherwise exactly one MEMBER user is appended, its hash is bcrypt's at cost 12, and only id, username, email and createdAt are returned |
| AuthService.Register | src/services/auth.service.js:33-53 | the check, hash and insert reach `RegisterStep` and keep the unique constraints |
| AuthService.Login | src/services/auth.service.js:78-103 | the same 401 "Invalid credentials." exactly when the email is unknown or the password does not match. Then an error without a status exactly when the secret is missing. Otherwise a token over `sub = String(id)`, the username, issuer "buyinbuyout-api", expiring 900 s after issue |
| AuthService.TokenClaims | src/services/auth.service.js:96-100 | the subject reads back as the user's id, the name is the username, the issuer is "buyinbuyout-api" and the token lives 900 s |
| AuthService.RegisterThenLogin | src/services/auth.service.js:45-97 | a user who has just registered logs in with the same email and password, and the token's `sub` is the new id |
| AuthMiddleware.BearerToken | src/middlewares/auth.js:26 | a token, when found, is non-empty, has no space, and is the text between the first space and the next space or the end |
| AuthMiddleware.BearerTokenOf | src/middlewares/auth.js:26 | conversely, whatever the scheme word, that text is the token |
| AuthMiddleware.NoTokenAfterScheme | src/middlewares/auth.js:26-27 | a header without a space, or with an empty second segment, has no token |
| AuthMiddleware.Decide | src/middlewares/auth.js:24-37 | 401 exactly when there is no token, 403 exactly when verification fails, otherwise next with `Number(sub)` |
| AuthMiddleware.AuthenticateToken | src/middlewares/auth.js:24-37 | on a halt one status is sent, `userId` is untouched and next is not called; otherwise `userId` is set and next is called exactly once |
| AuthMiddleware.LoginThenAuthenticate | src/middlewares/auth.js:30-31 | a token from login, presented after any scheme word before it expires, lets the user through with `userId` equal to their id; from expiry on it gets 403 |
| Http.SendStatus | src/controllers/requests.controllers.js:57 | `sendStatus` answers with the status and its reason phrase |
| RequestsController.IdsOf | src/controllers/requests.controllers.js:158-159 | the id passed to the service is `Number(:id)`: the numeral of an id names that id, and any other character gives NaN |
| RequestsController.CreateDispatch | src/controllers/requests.controllers.js:89-91 | 400 "Missing name" and no service call exactly when the name is falsy; otherwise name, caller and item are passed on |
| RequestsController.OutputOr500 | src/controllers/requests.controllers.js:23-31 | `listMine`, `create` (201), `summary` and `createItem`: the output with its code, and every thrown error becomes 500 "Internal server error.", with or without a status |
| RequestsController.RowOr404 | src/controllers/requests.controllers.js:52-64 | `getMine`/`updateMine`: 404 "Not Found" exactly on null, 200 with the row exactly on a row, 500 exactly on a thrown error |
| RequestsController.Forwarded | src/controllers/requests.controllers.js:156-166 | `submit`/`approve`/`reject`: an error with a truthy status is answered with that status and message unchanged; one without becomes 500 |
| RequestsController.ListMineResponds | src/controllers/requests.controllers.js:23-31 | `GET /requests` answers 200 with exactly the caller's requests, newest first |
| RequestsController.GetMineResponds | src/controllers/requests.controllers.js:52-64 | `GET /requests/:id` is 404 exactly when the caller owns no request with that id, whoever else does, and 200 otherwise |
| RequestsController.UpdateMineResponds | src/controllers/requests.controllers.js:124-135 | `PATCH /requests/:id` never answers 404: 500 exactly when the caller owns no such request, 200 otherwise |
| RequestsController.SubmitResponds | src/controllers/requests.controllers.js:156-166 | `POST /requests/:id/submit` is 404 "Not found" exactly when the caller owns no such request; otherwise 200 with status SUBMITTED |
| RequestsController.ReviewResponds | src/controllers/requests.controllers.js:187-197 | approve (and reject at lines 218-228): 403 "Forbidden" exactly for a non-approver, then 404 "Not found" exactly when no request has the id, otherwise 200 with that request and the verdict's status |
| RequestsController.CreateResponds | src/controllers/requests.controllers.js:87-97 | `POST /requests`: 400 for a falsy name; else 201 with the new DRAFT request exactly when the caller and the item exist, and 500 otherwise, although the request row is written whenever the caller exists |
| RequestsController.SummaryResponds | src/controllers/requests.controllers.js:244-252 | `GET /requests/reports/summary` answers 200 with one key per status present, and the values add up to the number of requests |
| RequestsController.CreateItemResponds | src/controllers/requests.controllers.js:274-283 | `POST /requests/createItem` answers 200 exactly when `itemName` and `itemCost` are both present, with that name and cost, after one item row is appended; otherwise 500 with nothing written |
| AuthController.RegisterDispatch | src/controllers/auth.controller.js:34-39 | 400 and no service call exactly when username, email or password is falsy |
| AuthController.RegisterReply | src/controllers/auth.controller.js:41-50 | 201 with the projection exactly on success; 409 with the message exactly when the status is 409; every other error is 500 "Error " |
| AuthController.RegisterResponds | src/controllers/auth.controller.js:31-51 | with all fields present: 409 "Email is already in use." exactly when the email or the username is taken, and then nothing is inserted; on 201 the body is the new public user |
| AuthController.LoginDispatch | src/controllers/auth.controller.js:77-82 | 400 and no service call exactly when the email or the password is falsy |
| AuthController.Code | src/controllers/auth.controller.js:88 | `error?.status \|\| 500` is 401 exactly when the status is 401 |
| AuthController.LoginReply | src/controllers/auth.controller.js:84-93 | 200 with `{accessToken}` exactly on success; 401 "Invalid credentials." exactly for status 401; every other error, the missing secret included, is 500 |
| AuthController.LoginResponds | src/controllers/auth.controller.js:75-94 | with both fields present: an unknown email and a wrong password get the same 401; good credentials without a secret get 500 "Internal server error."; 200 exactly when the credentials are good and a secret is set, with the token signed over the user's claims |
| AuthController.RegisterThenLoginResponds | src/controllers/auth.controller.js:84-85 | after a 201 from register, login with the same email and password answers 200 |

## Left out

- The database engine and Prisma are not modelled. The tables are sequences; ids are assigned as one more than the last id, because no operation deletes rows. Query translation and Prisma error codes are out of scope. Store errors are represented by their message only, with no `status`.
- `Number()` is modelled on the empty string and decimal digit strings only. Signs, decimals, exponents, whitespace and hex are all read as NaN. Prisma's rejection of a NaN id is modelled as "matches no row".
- Js.StringOf, Js.NumberOfStringOf: ids are unbounded naturals. JavaScript's `Number` rounds numerals above 2^53, and `String` switches to exponent form from 1e21; neither is modelled, so the round trip is stated for every natural.
- RequestsController.IdsOf: the path id is read as an unbounded natural; the 32-bit id column, which makes an out-of-range id throw instead of matching no row, is not modelled.
- RequestsController.GetMineResponds, RequestsController.UpdateMineResponds, RequestsController.SubmitResponds, RequestsController.ReviewResponds: stated for every natural id; for an id beyond the 32-bit column range the store throws and the handler answers 500, which these lemmas do not capture.
- The request `status` is stored as a free string. The database schema is not part of this model, so it cannot be checked against a status enum. `updateMine` writing any truthy status depends on this.
- The item `cost` is an integer; the source accepts a number or a string.
- RequestsService.CreateItemStep: a missing `itemName` or `itemCost` is taken to be refused by the store with an error without a status, as for a required column; the schema is not part of this model, so that refusal is assumed, not derived.
- In `create`, the join insert is assumed to succeed exactly when the item id names an existing item; that is the schema's foreign key, and the schema is not part of this model. The request body's `item` is an optional integer.
- `createItem` assigns to an undeclared global; that has no effect on the result and is not modelled.
- `console.error` logging is not modelled.
- `getMine` calls `.json` after `sendStatus(404)`. Only the 404 response is modelled, not the second send.
- Read-then-write races between concurrent requests are not modelled; the model is sequential, so `submit`'s guarded update always finds the status it read.
- bcrypt and jsonwebtoken are parameters with the laws the model relies on: a password matches its own hash, and a token verifies to its claims before `exp` and fails from then on.
- AuthService.Jwt: its soundness law also assumes that a signed token is a non-empty string without spaces (the compact form of a JSON Web Token); `AuthMiddleware.LoginThenAuthenticate` relies on it to read the token back out of `Bearer <token>`. Their algorithms, a random salt (a parameter here) and the library's clock (an integer `now`) are not modelled.
- `createdAt` and `updatedAt` are integers supplied by the caller, standing for the store's clock.
- AuthMiddleware.AuthenticateToken: an exception thrown synchronously by the next handler would be caught and answered 403; downstream handlers are not modelled.
- A missing `req.body` (which would make the handlers throw before validation) is not modelled; the body's fields are optional strings, or optional integers for `item` and `itemCost`.
- `index.js` (a legacy server that duplicates the workflow with different behaviour), `src/app.js` and the route files only bind paths and are not part of this model.
