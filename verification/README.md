# Shared-password session gate

A Dafny model of the server side of a small members-area site. Visitors
unlock the area with one shared password, and there are no per-user
accounts. Whoever types the password is a "member" under whatever username
they typed. The model covers three parts:

- **Session store** (`MemStorage`, module `Storage`). This is a map from an
  opaque session id to a `UserSession {id, username, loginTime}`. It has
  three operations: create, get and delete.
- **Auth gate** (the login, status and logout handlers, module `Routes`).
  Each handler is one atomic, pure transition. It takes a gate `State` (the
  store plus the `sessionId` held in the caller's cookie-backed session) and
  yields an `Outcome` (HTTP status, `AuthResponse` body, new state).
- **Input validator** (`loginSchema`, module `Schema`). It accepts a body
  only when `username` and `password` are both non-empty strings. It also
  holds the `AuthResponse` and `UserSession` record shapes.
  `AuthResponse` is a datatype whose `success` field is always present,
  while `username` and `message` are `Option`s.

Module `Lifecycle` runs whole sequences of requests from one client. It
proves that the concrete gate follows a two-state abstract machine,
`Unauthenticated` / `Authenticated(username)`, on every trace.

The environment becomes parameters:

- The UUID generator is a `freshId` argument that must not already be in
  the store. Where the cookie must resolve afterwards, it must also be
  non-empty, as a UUID always is.
- The clock is an opaque `Instant` argument.
- The JSON body is a `Body` value (`Object(map<string, Json>)` or
  `NonObject`).

The handlers test the cookie id for JavaScript truthiness (`!sessionId`,
`if (sessionId)`). The model keeps this as `HasSessionId`, so an empty
string counts as no id.

## Model

| member | source | states |
|---|---|---|
| Schema.NonEmptyString | shared/schema.ts:4-5 | a field passes only when it is present and holds a string; an empty string never passes |
| Schema.Accepts | shared/schema.ts:3-6 | only an object carrying both a `username` and a `password` field can be accepted; a non-object body never is |
| Schema.FieldIssues | shared/schema.ts:4-5 | a field raises no issue exactly when it is present, a string and non-empty; an empty string raises the too-small issue with the field's own message |
| Schema.ParseLogin | shared/schema.ts:3-6 | parsing succeeds exactly when both fields are non-empty strings, and it returns both strings unchanged; on failure there is at least one issue, and an empty username or password is reported as too-small with its message |
| Schema.ParseLoginBody | shared/schema.ts:3-6 | every pair of non-empty strings is accepted with no length cap, character set or trimming, and parsing the body built from a request gives that request back |
| Schema.EmptyFieldRejected | shared/schema.ts:4-5 | a body with an empty username or an empty password is rejected |
| Schema.UnknownKeysIgnored | shared/schema.ts:3-6 | keys other than `username` and `password` never change the parse result |
| Storage.CreateSession | server/storage.ts:17-25 | the returned session carries the given username, the fresh id and the given time; the store gains exactly that one entry under the fresh id and keeps every earlier entry; well-formedness is preserved |
| Storage.GetSession | server/storage.ts:28-30 | a lookup yields a record exactly when the id is stored, and then it is the stored record; an unknown id gives absent, not an error |
| Storage.DeleteSession | server/storage.ts:32-34 | the id is removed and every other entry is kept; a present id shrinks the store by one; an absent id leaves the store as it was |
| Storage.GetAfterCreate | server/storage.ts:17-30 | right after a creation, looking up the fresh id yields exactly the created session |
| Storage.CreateLeavesOthers | server/storage.ts:24 | creation does not change the lookup of any other id |
| Storage.GetAfterDelete | server/storage.ts:28-34 | after a deletion, the deleted id no longer resolves |
| Storage.DeleteLeavesOthers | server/storage.ts:33 | deletion does not change the lookup of any other id |
| Storage.DeleteIdempotent | server/storage.ts:32-34 | deleting twice equals deleting once |
| Storage.DeleteUndoesCreate | server/storage.ts:17-34 | deleting the session just created gives back the store from before the creation |
| Storage.TwoCreationsBothResolve | server/storage.ts:17-25 | two creations with distinct fresh ids give two sessions, each resolving to its own username, and the store grows by two |
| Routes.HasSessionId | server/routes.ts:62 | the cookie id counts as present only when one is bound, and the empty string counts as absent (the handlers test the id for truthiness, also at server/routes.ts:97) |
| Routes.Login | server/routes.ts:23-55 | an invalid body gives 400 with the validation message and no state change; a valid body with the wrong password gives 401 and no state change; success happens exactly for a valid body with the shared password, and then the response is 200 echoing the username, the cookie holds the fresh id, and the store gains that one session while every earlier session is kept |
| Routes.Status | server/routes.ts:58-83 | the state never changes; no cookie id gives 401 "no active session"; an unknown id gives 401 "invalid session"; success happens exactly when the cookie id is stored, and then the response is 200 with the stored username |
| Routes.Logout | server/routes.ts:93-112 | the response is always 200 success with the logged-out message; the cookie is cleared; the cookie's id (if any) is removed from the store and nothing else is |
| Routes.LoginThenStatus | server/routes.ts:36-83 | after a login with the shared password, status reports success with the username that was typed |
| Routes.LogoutThenStatus | server/routes.ts:60-67 | after logout, status answers 401 "no active session", and the id that was bound no longer resolves |
| Routes.LoginLogoutStatus | server/routes.ts:36-112 | after login and then logout, the store is back to what it was and status answers "no active session"; a state whose cookie still named the deleted id (left only if `destroy` failed) would be answered "invalid session" |
| Routes.LogoutIdempotent | server/routes.ts:95-112 | a second logout gives the same response and state as the first one |
| Routes.ValidationBeforePassword | server/routes.ts:25-27 | an empty password yields 400 (validation error), never 401 |
| Routes.FailedLoginKeepsSessions | server/routes.ts:27-33 | a failed login leaves the status answer for every id exactly as before |
| Routes.ReloginKeepsPreviousSession | server/routes.ts:36-39 | a second successful login rebinds the cookie to the new id but does not delete the previously bound session, which still resolves as before |
| Routes.AnaScenario | server/routes.ts:23-112 | "ana" with "MJP-HHB1" is granted, then recognised as "ana", then logged out, and is then refused |
| Lifecycle.Handle | server/routes.ts:23-119 | a status request changes nothing; a logout clears the cookie and succeeds; only a login can add a store key, and only its fresh id |
| Lifecycle.Run | server/routes.ts:23-119 | over a trace with fresh ids there is one response per request; the final store holds only initial ids and ids handed out to the trace's logins; the cookie/store invariant survives the whole trace |
| Lifecycle.FreshIdsStep | server/storage.ts:18 | after the first request, the rest of a trace whose generated ids are distinct, non-empty and unused is still fresh for the new store |
| Lifecycle.StatusReportsAbstraction | server/routes.ts:60-83 | status succeeds exactly when the abstract state is Authenticated, and then it reports that username |
| Lifecycle.HandleRefinesNext | server/routes.ts:23-119 | each handler moves the concrete gate exactly as the abstract machine moves: a successful login authenticates as the typed name, a logout unauthenticates, and anything else keeps the state |
| Lifecycle.RunRefinesAfter | server/routes.ts:23-119 | after any fresh trace, the concrete gate is in the abstract state the machine predicts |
| Lifecycle.StatusAnswersFollowMachine | server/routes.ts:58-83 | every status request in a trace succeeds exactly when the machine, run over the earlier requests, is Authenticated, and it reports that username |
| Lifecycle.FromStartCookieDecides | server/routes.ts:60-76 | starting from an empty store and no cookie, after any fresh trace the client is recognised exactly when it holds a cookie id |
| Lifecycle.LoginlessTraceNeverGrows | server/storage.ts:17-25 | a trace with no login request adds no session to the store |

## Left out

- The Express and express-session wiring (server/routes.ts:10-20, the `destroy` callback at server/routes.ts:101-105, server creation at server/routes.ts:121-122) is left out. Cookie signing, `maxAge` expiry and HTTP transport are outside the gate's logic. The cookie is the `cookie` field of `State`, and `destroy` becomes clearing it.
- The 500 branches (server/routes.ts:84-89, server/routes.ts:113-118) are left out. The in-memory store cannot throw, so they cannot be reached.
- The `IStorage` interface (server/storage.ts:4-8) is not modelled as an abstraction. Only its one implementation, `MemStorage`, is modelled.
- `randomUUID` and `new Date()` are not modelled as randomness or clock access. They are the `freshId` and `now` parameters, and the generator's collision-freedom is the precondition `freshId !in store`.
- Async/Promise behaviour and concurrent requests are left out. Each handler is one atomic transition, and traces are sequential.
- The validator's exact issue shapes (zod paths, codes, `expected`/`received` fields) are reduced to three issue kinds. The handler discards the issues and sends a fixed 400 message, so only the distinction between success and failure affects behaviour.
- Dafny `string` is a sequence of Unicode scalar values, while the source's strings are UTF-16 and zod's `min(1)` counts UTF-16 code units (shared/schema.ts:4-5). Emptiness and equality agree on every string both can represent. A body holding a lone surrogate (`"\ud800"`) is accepted by the source but cannot be represented in the model.
- The model tracks one client's cookie. Sessions of other clients appear only as entries already present in the store.
- The client pages, the fetch wrapper and the build script contain no gate logic and are not part of this model.
