# Task manager backend: authentication gate and owner-scoped tasks

This project models the REST backend of a small task-management application.
Users register and log in. Login issues a signed bearer token. Every task
route sits behind the `authenticateToken` middleware, which only lets a
request through when the second space-separated field of the
`Authorization` header verifies as a token. The tasks themselves are
scoped to their owner. Listing shows only the caller's rows. Update and
delete refuse an absent row and another user's row with the same 403.

The model is a state machine over two in-memory tables:

- `Db.Store` is a class holding the `users` and `tasks` maps (id to row)
  and the two auto-increment counters. `Valid()` is the table invariant:
  each row sits under its own id, usernames are unique, and every task's
  owner is an existing user.
- `Routes` holds one member per endpoint. The handlers that write
  (`Register`, `CreateTask`, `UpdateTask`, `DeleteTask`) are methods that
  modify the store. Each states its response and its whole new state for
  every branch, and that every refused request leaves the store unchanged.
  The read-only handlers (`Login`, `ListTasks`) are functions.
- `Auth` holds the token extraction
  (`authHeader && authHeader.split(" ")[1]`), the middleware as the function
  `Authenticate`, and `GET /auth/verify` as `VerifyRoute`. `VerifyRoute` is
  written out separately, as the compiled build does, and is proved to agree
  with the middleware.
- `Text` models JavaScript's `split(" ")` and `parseInt(s, 10)`, plus the
  decimal printing the client uses to build `/tasks/<id>`.
- `Crypto` treats bcrypt and JSON Web Tokens as opaque functions in a
  `Provider` record. What the handlers rely on is stated once, as the ghost
  predicate `Sound`, and every lemma that needs it says so in its `requires`.
- `Scenarios` holds client-style request sequences and what the handlers'
  contracts imply about them: register twice, register then log in, create
  then list, delete then update, toggle twice.

Inputs the handlers get from outside are parameters:

- `now` is the clock, in seconds.
- `salt` is bcrypt's random salt.
- `header` is the `Authorization` header, `None` when absent.
- Body fields are `Option<string>` or `Option<bool>`, where `None` is
  `undefined`.
- `idParam` is the `:id` route parameter, as text.

Labelled assumptions (the parts of the behaviour that come from code that
is not part of this model):

- `Crypto.Sound`:
  - `compare(p, hash(p, rounds, salt))` holds.
  - A signed token verifies with its own claims from its issue time until
    its lifetime has passed, and is rejected after that.
  - A token is non-empty and contains no space.
- The claims type: every payload that verifies is taken to decode to an
  integer `id` and a `username` (`Crypto.Claims`). The source never checks
  this. It only casts the payload (backend/src/index.ts:39) or assigns it
  (backend/dist/index.js:41). The isolation results (`Routes.ListTasks`,
  `Routes.ListsAreIsolated`, the ownership checks of update and delete)
  rest on this assumption. A verified payload without an `id`, such as one
  minted by another issuer sharing the same secret, would reach
  `findMany({ where: { userId: undefined } })`. The database client treats
  an `undefined` filter as no filter, so every user's tasks would be listed.
- `CreateTask`: ASSUMED: the schema, which is not shown, gives `isComplete`
  the default `false` and makes `userId` a foreign key to `User`, so an
  insert for an unknown owner fails with 500 and changes nothing.
- `UpdateTask` and `DeleteTask`: when `parseInt` yields `NaN`, the database
  client refuses the key. The handler's catch then answers 500 and nothing
  changes.
- `Db.Store.TasksOwnedBy` returns rows in ascending id order. The source
  promises no order. The model picks one, and `ListTasks` states only
  membership and distinctness.

Three behaviours of the code worth knowing:

- An absent task and a foreign task both give 403 "Not authorized". There
  is no separate 404.
- `PUT /tasks/:id` does not re-check the title. An empty title is stored as
  given.
- The scheme word of the `Authorization` header is never checked. Any first
  field works, including an empty first field.

## Model

| member | source | states |
|---|---|---|
| `Text.JoinSplit` | backend/src/index.ts:29 | joining the fields of `split(" ")` with the separator gives back the header: splitting loses nothing |
| `Text.SplitFieldsHaveNoSeparator` | backend/src/index.ts:29 | no field `split(" ")` returns contains a space |
| `Text.SplitAfterField` | backend/dist/index.js:32 | a leading field without a space is split off whole, so the field after the first space is what follows it |
| `Text.SplitWithoutSeparator` | backend/dist/index.js:32 | a string with no space splits into itself alone, so there is no second field |
| `Text.ParseDecimal` | backend/src/index.ts:157 | `parseInt(id, 10)` of the decimal text of a non-negative id, followed by any non-digit text, gives back that id |
| `Text.ParseSignedDecimal` | backend/dist/index.js:156 | `parseInt` skips leading white space and honours one `-` or `+` sign before the digits |
| `Text.ParsePath` | frontend/components/TaskCard.tsx:30 | the path segment `${task.id}` the client builds parses back, under `parseInt(id, 10)`, to that id |
| `Text.NoDigitIsNaN` | backend/src/index.ts:181-183 | a route parameter with no digit at all parses to `NaN` (`None`) |
| `Text.DigitsValueOfDecimal` | backend/src/index.ts:163 | the digits of a printed id read back as the id itself |
| `Auth.ExtractToken` | backend/src/index.ts:27-29 | the extracted token, when there is one, is non-empty and contains no space |
| `Auth.ExtractTokenOfHeader` | backend/src/index.ts:27-33 | for the header `scheme + " " + token (+ " …")` the token is `token` for ANY scheme, and an empty `token` counts as no token |
| `Auth.ExtractTokenNeedsSpace` | backend/dist/index.js:30-36 | a header without a space carries no token, which yields 401 |
| `Auth.Authenticate` | backend/src/index.ts:22-42 | 401 "No token provided" exactly when no token is extracted; 403 "Invalid token" exactly when the token fails verification; otherwise the request proceeds with exactly the verified claims as the caller |
| `Auth.SchemeIsNotChecked` | backend/dist/index.js:29-44 | the gate's verdict on `scheme + " " + token` is the same for any two schemes, and is fixed by the token alone |
| `Auth.SignedTokenOpensGate` | backend/src/index.ts:35-41 | under the library assumptions, a token signed at `issuedAt` grants its own claims before its one-hour lifetime ends and is refused with 403 after |
| `Auth.VerifyRoute` | backend/dist/index.js:97-113 | `GET /auth/verify` gives the middleware's 401 or 403 on the same headers, and on success 200 "Token is valid" with the claims the middleware would grant; it reads no table |
| `Db.Store.constructor` | backend/src/index.ts:13 | the store starts with empty tables, counters at 1, and satisfies the table invariant |
| `Db.Store.FindUserByName` | backend/src/index.ts:56-58 | a row is found exactly when some user has that username, and it is that row |
| `Db.Store.TasksOwnedBy` | backend/src/index.ts:111-113 | exactly the owner's rows, each once, as stored, in ascending id order |
| `Routes.Register` | backend/src/index.ts:47-73 | missing or empty fields give 400 and no change; a taken username gives 400 "User already exists" and no change; otherwise exactly one new user row is added under a fresh id, holding the hash of the password, and 201 returns that id; the table invariant (unique usernames) is kept; afterwards the name is taken; under the library assumptions the new user can log in |
| `Routes.Login` | backend/src/index.ts:76-101 | missing fields give 400; success (200) holds exactly when a row has that username and its hash matches the password; every other failure is the one response 400 "Invalid credentials"; the token signs exactly `{id, username}` of the matching row for one hour; no table changes |
| `Routes.LoginFailuresAreIndistinguishable` | backend/dist/index.js:79-86 | any two failed logins with present fields, whether the name is unknown or the password wrong, give identical responses |
| `Routes.LoginTokenAuthenticates` | backend/dist/index.js:88-89 | the token a successful login returns, sent as `Bearer <token>`, opens the gate as the matched row's `{id, username}` for an hour, then gives 403 |
| `Routes.ListTasks` | backend/dist/index.js:116-127 | gate failures are passed through; otherwise 200 with exactly the tasks whose owner is the caller's verified id, as stored, each once |
| `Routes.ListsAreIsolated` | backend/src/index.ts:111-114 | callers with different ids are shown disjoint task lists |
| `Routes.CreateTask` | backend/src/index.ts:123-145 | gate failures, a missing or empty title (400), and a token id that is not a user (500) change nothing; otherwise exactly one task is added under a fresh id, with the given title and description, not complete, owned by the caller's token id (never a body field) |
| `Routes.ApplyUpdate` | backend/src/index.ts:162-165 | applying update data never changes a task's id or owner |
| `Routes.UpdateIsIdempotent` | backend/dist/index.js:161-164 | sending the same update data twice has the effect of sending it once |
| `Routes.EmptyUpdateKeepsTask` | backend/dist/index.js:163 | update data whose fields are all `undefined` leaves the row unchanged |
| `Routes.ToggleTwiceRestores` | frontend/components/TaskCard.tsx:27-38 | toggling completion twice gives back the original row |
| `Routes.UpdateTask` | backend/src/index.ts:148-172 | gate failures, a `NaN` key (500), and an absent or foreign task (the same 403 "Not authorized") all change nothing; otherwise the row addressed by the same `parseInt` key that was checked, and only it, becomes the updated row, keeping its id and owner |
| `Routes.DeleteTask` | backend/dist/index.js:173-189 | the same refusals as update, changing nothing; otherwise exactly the checked row is removed (the table shrinks by one) and every other row is unchanged |
| `Scenarios.RegisterTwice` | backend/dist/index.js:54-59 | a second registration of the same username is always refused with "User already exists" |
| `Scenarios.RegisterThenLogin` | backend/dist/index.js:61-89 | after a successful registration, login with the same password succeeds, and its token grants the new user's id and name |
| `Scenarios.CreateThenList` | backend/dist/index.js:135-142 | a created task shows up in the creator's list exactly once, with the given title and description, not complete |
| `Scenarios.DeleteThenUpdate` | backend/dist/index.js:176-183 | once a task is deleted, updating it by the same id is refused with 403 |
| `Scenarios.ToggleTwice` | frontend/components/TaskCard.tsx:29-38 | two successive completion toggles through `PUT /tasks/<id>` put the task table back as it was |

## Left out

- Express wiring is not modelled. This covers routing, `next()` chaining, JSON body parsing, CORS, dotenv, `app.listen`, the `/` greeting route and console logging. It is framework plumbing with no logic of its own.
- Body fields of other JSON types (numbers, `null`, objects) are not modelled. Every body field is a string, or `undefined`, or a boolean for `isComplete`. A `null` description therefore cannot be sent to clear a description.
- Tokens whose verified payload lacks an integer `id` are not modelled; see the claims-type assumption above.
- The claims the middleware attaches, and that `/auth/verify` returns, also carry the token's `iat` and `exp` fields. `Claims` keeps only `{id, username}`, the part the handlers read.
- bcrypt hashing, the JWT HMAC signature and the token expiry clock are treated as opaque. They are foreign cryptographic libraries, and `Crypto.Sound` states what is assumed of them. The fallback secret is configuration and is not modelled.
- The 500 "Internal server error" paths are thrown by the database code. Only two are modelled: a `NaN` key and an unknown task owner. Other store failures, and failures inside bcrypt or JWT, are not.
- The id generation policy is a plain counter starting at 1.
- `parseInt` is modelled with the ECMAScript white-space and line-terminator characters. The other Unicode space separators are left out. So are ids beyond 32 bits, which the database would refuse, and numbers beyond 2^53, where JavaScript loses precision.
- Concurrency is not modelled: each request runs to completion before the next. This leaves out the race between `findUnique` and `update`/`delete`, and concurrent registrations of one username that only the database's unique constraint would catch.
- The frontend is not modelled: pages, components, the auth context's local storage, the navbar. `frontend/types/tasks.ts` gives only the task field names. The toggle request from `TaskCard.tsx` appears only as `Scenarios.ToggleTwice`.
