# To-do app: session, credential store, request pipeline and owner-scoped to-do table

This project models, in Dafny, the state logic of a small to-do application: a React
Native client and a FastAPI server.

- **Server, to-do router** (`TodoRouter`, `todo_router.dfy`). The to-do table is a class
  over a sequence of rows in insertion order, with a counter for fresh primary keys.
  Create, list (OFFSET/LIMIT), get, partial update and delete are all scoped to the
  calling user. A missing row and another user's row give the same 404. The update loop
  assigns the fields present in the patch one by one; it is proved equal to the declared
  meaning of a partial update. Lemmas show that every operation leaves other users'
  rows unchanged.
- **Server, auth router** (`AuthRouter`, `auth_router.dfy`). The user table is a class.
  Signup checks only the username for uniqueness, so a taken email reaches the database
  and its unique constraint fails the commit with a 500. Login is the password grant of
  section 4.3 of RFC 6749. An unknown user and a wrong password give one and the same
  401, which carries `WWW-Authenticate: Bearer` (section 3 of RFC 6750). A lemma shows
  that logging in with the password used at signup yields a bearer token for that user.
- **Record shapes** (`Models`, `models.dfy`): users, to-dos, the create/update/read views
  and the token answer. Patch fields are `Unset` or `Set(value)`, where the value may be
  an explicit null, because the handler keeps every field the request gave.
- **Client, credential store** (`Storage`, `storage.dfy`): one class over a string map.
  The backing is fixed at construction. Each call gets a `fault` flag: on web a fault is
  swallowed, on native it reaches the caller.
- **Client, request interceptor** (`ApiClient`): reads the token from the store on every
  request. A truthy token sets `Authorization: Bearer <token>` (section 2.1 of RFC 6750),
  and a lemma shows the token parses back out. Every other header and field is kept.
- **Client, session** (`AuthContext`): the `userToken` / `isLoading` state with `Login`,
  `Signup`, `Logout` and `IsLoggedIn` (the restore at mount), plus a three-phase view
  (loading, authenticated, anonymous). `LoginThenRestart` and `LogoutThenRestart` state,
  for every token and every prior store content, that a restart after a login restores
  that token and a restart after a logout is anonymous. `SessionLifecycle` calls restore,
  login, an authorised request, a restart, logout and a bare request in turn, and the
  verifier checks each assertion between the calls.
- **Client, dashboard list** (`Dashboard`): the list transitions of the dashboard screen
  (append, replace-by-id, filter-by-id, the blank-title guard, the fetch error fallback)
  and the handlers around them. Lemmas show that a client list holding every row of the user
  stays equal to the server's view of those rows after a create, an update or a delete.
  A fetch gives such a list only while the user has at most 100 rows, because the client
  asks for the server's default page (OFFSET 0, LIMIT 100).

Network answers, storage faults, the password hash function and the token minting
function are arguments. The model does not fix them.

Two behaviours of the client code worth knowing:
- A failing native store read during the restore at mount is caught and swallowed, so
  `isLoading` stays true (frontend/src/context/AuthContext.js:54-56).
- `login` sets the token in memory before persisting it, so a failing native store write
  is rethrown with the token already set (frontend/src/context/AuthContext.js:22-23).

## Model

| member | source | states |
|---|---|---|
| `TodoRouter.Owned` | backend/routers/todos.py:24 | a row is in the result exactly when it is in the table and owned by the given user |
| `TodoRouter.Window` | backend/routers/todos.py:23-24 | OFFSET then LIMIT: a contiguous run starting at the offset (a negative offset counts as 0), exactly `limit` long when more rows remain, reaching the end when the limit is negative or large enough |
| `TodoRouter.DefaultPageCoversSmallLists` | backend/routers/todos.py:23 | with the default skip 0 and limit 100, a user with at most 100 rows gets all of them |
| `TodoRouter.FindOwned` | backend/routers/todos.py:30-31 | finds the first row with that key and owner, and finds nothing exactly when no such row exists |
| `TodoRouter.SetFieldsMeansPatched` | backend/routers/todos.py:43-45 | assigning the fields the patch gave, one by one, is the partial update: a given field takes its value, the others keep theirs |
| `TodoRouter.PatchCommittable` | backend/models.py:24-31 | a patched row can be stored exactly when the patch does not null `title` or `completed` |
| `TodoRouter.PatchedRow` | backend/models.py:41-44 | a committed patch changes only the fields it gives; `id` and `ownerId` are never changed |
| `TodoRouter.EmptyPatchIsIdentity` | backend/models.py:41-44 | a patch that gives no field leaves the row as it was |
| `TodoRouter.OwnedAppend` | backend/routers/todos.py:24 | filtering by owner distributes over concatenation, so table order is kept |
| `TodoRouter.OwnedAfterInsert` | backend/routers/todos.py:15-19 | inserting a row appends it to its owner's view and leaves every other user's view unchanged |
| `TodoRouter.OwnedAfterRemove` | backend/routers/todos.py:54-60 | removing one user's row leaves every other user's view unchanged |
| `TodoRouter.OwnedAfterReplace` | backend/routers/todos.py:38-49 | rewriting one user's row, owner kept, leaves every other user's view unchanged |
| `TodoRouter.TodoStore.CreateTodo` | backend/routers/todos.py:13-20 | appends exactly one row, with a fresh key, the body's fields and the caller as owner whatever the body holds; other users' views are unchanged |
| `TodoRouter.TodoStore.ReadTodos` | backend/routers/todos.py:22-26 | the OFFSET/LIMIT window of the caller's rows in table order; every row returned is the caller's and comes from the table |
| `TodoRouter.TodoStore.ReadTodo` | backend/routers/todos.py:28-34 | the caller's row with that key, or 404 "Todo not found" exactly when it is absent or another user's |
| `TodoRouter.TodoStore.UpdateTodo` | backend/routers/todos.py:36-50 | 404 and no change when the row is missing or foreign; 500 and no change when the patch nulls a NOT NULL field; otherwise it succeeds and only that row changes, by the partial update |
| `TodoRouter.TodoStore.DeleteTodo` | backend/routers/todos.py:52-61 | 404 and no change when missing or foreign; otherwise removes exactly that row, keeps the others in order and answers ok |
| `AuthRouter.FindUser` | backend/routers/auth.py:16-17 | finds the first user with that username, and finds nothing exactly when no user has it |
| `AuthRouter.Login` | backend/routers/auth.py:32-46 | 401 "Incorrect username or password" with `WWW-Authenticate: Bearer`, the same for an unknown user and a wrong password; otherwise a "bearer" token minted for `sub` = username |
| `AuthRouter.FindOtherAfterInsert` | backend/routers/auth.py:21-26 | storing a new user does not change which user any other username finds |
| `AuthRouter.SignupThenLogin` | backend/routers/auth.py:21-46 | after a user is stored with the hash of its password, logging in with that username and password yields its bearer token |
| `AuthRouter.UserStore.Signup` | backend/routers/auth.py:14-30 | 400 exactly when the username is taken; 500 with the database's message exactly when the username is free and the email is taken or the commit fails; both store nothing; otherwise it succeeds and stores one user holding the password's hash |
| `Storage.LookupAfterSet` | frontend/src/utils/storage.js:6-29 | a key written without a fault reads back as the value written; other keys are unaffected |
| `Storage.LookupAfterDelete` | frontend/src/utils/storage.js:31-41 | a key deleted without a fault reads back as null; other keys are unaffected |
| `Storage.CredentialStore.constructor` | frontend/src/utils/storage.js:4 | the backing (web or native) is fixed once, when the store is made |
| `Storage.CredentialStore.SetItem` | frontend/src/utils/storage.js:6-16 | writes the value under the key; on a fault nothing is written, and the call succeeds on web and fails on native |
| `Storage.CredentialStore.GetItem` | frontend/src/utils/storage.js:18-29 | the stored value or null; on a fault, null on web and an error on native |
| `Storage.CredentialStore.DeleteItem` | frontend/src/utils/storage.js:31-41 | removes the key; on a fault nothing changes, and the call succeeds on web and fails on native |
| `ApiClient.ParseBearer` | frontend/src/api/client.js:20 | a value it accepts is exactly the bearer credentials of the token it returns |
| `ApiClient.ParseBearerRoundTrip` | frontend/src/api/client.js:20 | `"Bearer " + token` parses back to the token |
| `ApiClient.WithToken` | frontend/src/api/client.js:19-22 | a truthy token sets Authorization to its bearer credentials; a null or empty token leaves the headers as they were; no other header changes |
| `ApiClient.Intercept` | frontend/src/api/client.js:16-23 | reads the token from the store at call time and writes only the headers of the same request object; a native store fault rejects the request with headers untouched |
| `ApiClient.OnRequestError` | frontend/src/api/client.js:24-26 | a request error is passed on as a rejection, unchanged |
| `AuthContext.TokenRequestCarriesCredentials` | frontend/src/context/AuthContext.js:13-20 | the token request is form-encoded and carries the username and password under their own names |
| `AuthContext.SignupRequestCarriesFields` | frontend/src/context/AuthContext.js:32-37 | the registration request carries each argument, `fullName` under `full_name` |
| `AuthContext.Session.constructor` | frontend/src/context/AuthContext.js:8-9 | a session starts with no token and loading |
| `AuthContext.Session.Phase` | frontend/src/context/AuthContext.js:64 | loading while `isLoading`; otherwise authenticated exactly when the token is truthy |
| `AuthContext.Session.Login` | frontend/src/context/AuthContext.js:11-28 | a failed request is rethrown with token and store unchanged; on success the token is set in memory, then persisted under "token"; a native store fault is rethrown as the store's own error, with the token still set |
| `AuthContext.LoginThenRestart` | frontend/src/context/AuthContext.js:21-23 | for every token, backing and prior store content, a login without a store fault is restored as the same token by the next session's read at mount |
| `AuthContext.LogoutThenRestart` | frontend/src/context/AuthContext.js:44-47 | for every backing and prior store content, a logout without a store fault leaves the next session anonymous after its restore |
| `AuthContext.Session.Signup` | frontend/src/context/AuthContext.js:30-42 | sends the registration request and rethrows its failure; the session is not changed |
| `AuthContext.Session.Logout` | frontend/src/context/AuthContext.js:44-47 | clears the token, then deletes "token" from the store; no request is sent |
| `AuthContext.Session.IsLoggedIn` | frontend/src/context/AuthContext.js:49-57 | the token becomes the stored value and loading ends; a web fault reads as null; a native fault is swallowed and leaves loading on; loading never turns back on |
| `Dashboard.TrimStart` | frontend/src/screens/DashboardScreen.js:36 | removes exactly the leading white space |
| `Dashboard.TrimEnd` | frontend/src/screens/DashboardScreen.js:36 | removes exactly the trailing white space |
| `Dashboard.TrimEmptyIffBlank` | frontend/src/screens/DashboardScreen.js:36 | a title trims to nothing exactly when all its characters are white space |
| `Dashboard.ReplaceById` | frontend/src/screens/DashboardScreen.js:50 | same length and order; every item with the id becomes the server's answer, every other item is kept |
| `Dashboard.RemoveById` | frontend/src/screens/DashboardScreen.js:60 | an item is kept exactly when it was in the list and has another id |
| `Dashboard.RemoveByIdAppend` | frontend/src/screens/DashboardScreen.js:60 | removing by id distributes over concatenation, so the kept items keep their order |
| `Dashboard.RemoveByIdIdempotent` | frontend/src/screens/DashboardScreen.js:60 | deleting the same id twice is deleting it once |
| `Dashboard.ToggleOnServer` | frontend/src/screens/DashboardScreen.js:49 | the toggle patch, applied by the server, flips `completed` and changes nothing else |
| `Dashboard.FetchErrorMessage` | frontend/src/screens/DashboardScreen.js:24 | never empty; the answer's `detail` if truthy, else the error message if truthy, else "Failed to fetch todos" |
| `Dashboard.MirrorAfterCreate` | frontend/src/screens/DashboardScreen.js:38-39 | appending the created row to the user's list gives the user's rows after the insert |
| `Dashboard.MirrorAfterUpdate` | frontend/src/screens/DashboardScreen.js:49-50 | replacing by id with the updated row gives the user's rows after the update |
| `Dashboard.MirrorAfterDelete` | frontend/src/screens/DashboardScreen.js:59-60 | removing the id from the user's list gives the user's rows after the delete |
| `Dashboard.DashboardState.FetchTodos` | frontend/src/screens/DashboardScreen.js:18-29 | shows the server's list, or alerts with the fallback message and keeps the list; loading ends either way |
| `Dashboard.DashboardState.AddTodo` | frontend/src/screens/DashboardScreen.js:35-45 | a blank input sends nothing and changes nothing; otherwise sends the input as the title, then appends the answer and clears the input, or alerts and changes nothing |
| `Dashboard.DashboardState.ToggleComplete` | frontend/src/screens/DashboardScreen.js:47-55 | sends only `completed` = not the current status; on success replaces by id, on failure alerts and keeps the list |
| `Dashboard.DashboardState.DeleteTodo` | frontend/src/screens/DashboardScreen.js:57-65 | on success drops every item with the id, the rest in order; on failure alerts and keeps the list |

## Left out

- Password hashing, token minting and verification, and `get_current_user` live in a
  server module that is not part of this model. Hashing and minting are function
  arguments, `verify_password(p, h)` is "the hash of `p` equals `h`", and the caller's
  user id is an argument of every to-do operation. Token expiry is not modelled
  because it needs a clock.
- The database session (`add`, `commit`, `refresh`) is not modelled. Primary keys come
  from a counter, so they are fresh but not necessarily the keys the database would
  pick. The query has no ORDER BY, so SQL leaves the order of the rows open; the
  model picks insertion order, the order a rowid scan returns. A
  negative OFFSET is read as 0 and a negative LIMIT as no limit, as SQLite reads them;
  the database module is not part of this model.
- The text of a failed commit comes from the database driver, so it is an argument
  (`dbMessage`). An unexpected exception in the update handler is FastAPI's plain 500.
- FastAPI's request validation (422 answers for malformed bodies) is not modelled.
- `TodoRouter.TodoStore.UpdateTodo` treats only a null `title` or `completed` as a
  commit failure; any other database failure during the commit is not modelled.
- The HTTP transport, the base URL chosen from the platform, CORS and app wiring
  (`backend/main.py`), and `/users/me` (`backend/routers/users.py`) are left out. They
  are I/O or configuration.
- The browser storage and secure-store libraries are left out. They are a string map
  with a fault flag; a native fault is taken to leave the map unchanged.
- Concurrency is left out: each handler is one atomic step. So are concurrent button
  presses and the last-write-wins of the list closures at DashboardScreen.js:50 and :60.
- The success feedback messages and their 3-second timer, `Alert`, rendering, styling,
  navigation, the other screens and console logging are UI only.
- `Dashboard.FetchErrorMessage` treats `detail` as a string. A validation error's
  `detail` is a list, which JavaScript also finds truthy; that case is not modelled.
