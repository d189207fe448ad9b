# nucampsiteServer: request decisions, modelled in Dafny

This project models the decision logic of a small Express server for a campsite catalogue. For each request, the logic decides whether to proceed, forward an error with a status, or answer with a body. It covers:

- the legacy signed-cookie / HTTP Basic gate that `app.js` mounts in front of every router, and the final 404 and error handlers;
- from `authenticate.js`: token issue with its fixed one-hour lifetime, the bearer-strategy lookup callback, `verifyUser` and `verifyAdmin`;
- from `routes/campsiteRouter.js`: the comment routes of a campsite, its own copy of `verifyAdmin`, and the fixed "not supported" answers;
- from `routes/users.js`: user listing, signup, login, logout and the third-party token login's response.

Every decision is a function from an abstract request and store state to an outcome (`Http.Next` for middleware, `Http.Outcome` for handlers). Handlers that change a loaded document in place are methods. They load a `Campsites.CampsiteDoc` or a `Users.UserDoc`, change its fields, and return the new store. A save replaces the stored record. Store failures are inputs (`StoreFault`, `fault`, `findFault`, `lookupFault`, `loginFault`, `registerFault`, `saveFault`, `destroyFault`).

Modules: `Http` (shared outcome types and JavaScript truthiness), `Sequences` (`split`/`join` with a one-character separator, array indexing past the end, first-match search), `LegacyGate`, `App`, `Authenticate`, `Users`, `Campsites`.

Behaviours of the code worth knowing, all captured by the model:

- The legacy gate runs before every router (app.js:67-75). Signup and login therefore also need the `admin` cookie or the Basic pair. The gate and the bearer strategy are composed in this deployment, not separate trust boundaries.
- The gate never checks the scheme word of the `Authorization` header. It takes whatever follows the first space (`LegacyGate.SecondFieldOfHeader`). A header with no space makes the base64 decoder receive `undefined` and throw. Express forwards that throw to the error handler, so the client sees 500, not 401 (`App.MalformedHeaderIs500`).
- Posting a comment is guarded by `verifyAdmin` (routes/campsiteRouter.js:153), so only admins can comment. Editing and deleting a comment need only `verifyUser` plus authorship.
- A duplicate username at signup answers 500 with the registration library's message, not a 409 Conflict.
- If the second save at signup fails, the user is already stored (by the registration step) without names. The client sees 500.
- `app.js` installs no session middleware, so `req.session` is undefined in this deployment. `GET /users/logout` then always takes the 401 branch. `Users.Logout` still models both branches.
- The third-party token route writes nothing when no user is attached (`Users.FacebookToken` gives `Silent`).
- A POST body is pushed whole (routes/campsiteRouter.js:159), so a client that supplies an `_id` can create two comments with the same id. `comments.id()` then always finds the first of them: GET returns it, and only its author may edit or delete (anyone else gets 403). A delete by that author also removes the other comment, whoever wrote it, because `comment.remove()` pulls by id (`Campsites.DuplicateIdsBothPulled`).

## Model

| member | source | states |
|---|---|---|
| `Sequences.Split` | app.js:43-45 | `split` on a one-character separator always yields at least one piece, no piece holds the separator, and joining the pieces gives back the input |
| `Sequences.SplitWithoutSeparator` | app.js:43-45 | a string without the separator splits into itself alone |
| `Sequences.SplitAfterPrefix` | app.js:43-45 | a separator-free prefix followed by the separator becomes the first piece, and the rest splits independently |
| `Sequences.SeparatorIffSeveralPieces` | app.js:43 | the string has the separator exactly when `split` yields two or more pieces, so `[1]` is defined exactly then |
| `Sequences.SplitJoin` | app.js:43-45 | `split` inverts `join` when no piece holds the separator |
| `Sequences.Field` | app.js:46-47 | array indexing yields the element inside the bounds and `undefined` past the end |
| `Sequences.SplitFirst` | app.js:43-47 | division at the first separator: none exactly when the separator is absent, otherwise head + separator + tail with a separator-free head |
| `Sequences.SplitFirstUnique` | app.js:43-47 | that division is the only one with a separator-free head |
| `Sequences.FirstIndex` | authenticate.js:27 | first-match search: the index found satisfies the predicate and no earlier one does; none found means no element does |
| `LegacyGate.Gate` | app.js:33-66 | exactly one `next` call: proceed, 401 "You are not authenticated!", or a throw. The challenge only comes with a 401 and only when no truthy cookie is present. The cookie `user=admin` is only set on proceeding through the Basic branch. A throw only happens for a truthy header without a space. With a truthy cookie there is no challenge and no new cookie, and the request proceeds iff the cookie is `admin` |
| `LegacyGate.Auth` | app.js:33-66 | the gate as written: every error it passes has status 401; a challenge or a cookie write goes with 401 or proceeding respectively |
| `LegacyGate.NoCredentialsChallenged` | app.js:34-41 | with no truthy cookie and no header: 401 and `WWW-Authenticate: Basic`, no cookie |
| `LegacyGate.SecondFieldOfHeader` | app.js:43 | `authHeader.split(" ")[1]` is the token after the first space, whatever the scheme word |
| `LegacyGate.MalformedHeaderThrows` | app.js:43 | a truthy header with no space throws instead of answering 401 |
| `LegacyGate.AdminShapeMatches` | app.js:43-48 | decoded text `admin:password`, or `admin:password:` followed by anything, passes the field comparison |
| `LegacyGate.MatchHasAdminShape` | app.js:43-48 | text that passes the field comparison has one of those two shapes |
| `LegacyGate.CredentialsMatchIff` | app.js:43-48 | only fields 0 and 1 are compared: the decoded text matches iff it is `admin:password` or starts with `admin:password:` |
| `LegacyGate.BasicBranch` | app.js:42-56 | without a cookie and with a well-formed header, matching credentials proceed and set `user=admin` with no challenge; anything else gives 401 with the challenge and no cookie |
| `LegacyGate.ExtraFieldAccepted` | app.js:43-50 | decoded `admin:password:extra` is accepted as written |
| `LegacyGate.AdminCookieAdmits` | app.js:57-59 | a signed cookie equal to `admin` proceeds whatever the header says, with no cookie write and no challenge |
| `LegacyGate.OtherCookieRefused` | app.js:60-64 | any other truthy signed cookie gives 401 with no challenge |
| `LegacyGate.CookieCarriesLogin` | app.js:49-59 | the cookie set by a successful Basic login admits the next request without credentials |
| `LegacyGate.AuthRfc7617` | app.js:43-48 | the gate with credentials parsed at the first colon, as RFC 7617 section 2 defines: its errors are 401, and it sets a cookie only when proceeding |
| `LegacyGate.CredentialsMatchRfc7617Iff` | app.js:43-48 | with RFC 7617 parsing, exactly `admin:password` matches |
| `LegacyGate.ExtraFieldRefusedRfc7617` | app.js:43-48 | the corrected gate refuses decoded `admin:password:extra` with 401 and the challenge |
| `LegacyGate.GatesDifferOnlyOnExtraFields` | app.js:43-48 | the written and corrected gates differ only on decoded credentials starting with `admin:password:` |
| `App.ErrorStatus` | app.js:81-87 | the error handler answers `err.status` when truthy, otherwise 500 |
| `App.FinalStatus` | app.js:67-87 | a gate error reaches the error handler and a gate throw ends in 500. An admitted request that no route matches ends in 404, and a handled one keeps its handler's status. An error a router forwards ends with that error's status, or 500 when it has none |
| `App.GateRefusalIs401` | app.js:67-85 | a request refused by the gate ends in 401 whatever the route would have done, for either credential parser |
| `App.MalformedHeaderIs500` | app.js:81-87 | a header with no space ends in 500 |
| `Authenticate.VerifyAdmin` | authenticate.js:43-52 | proceeds iff a user is attached and its admin flag is set; otherwise 403 "You are not authorized to perform this operation!" |
| `Authenticate.GetToken` | authenticate.js:15-17 | the token carries exactly the given payload and expires 3600 seconds after issue |
| `Authenticate.VerifyToken` | authenticate.js:15-17 | a token is valid, with its own payload, strictly before its expiry instant and expired from then on |
| `Authenticate.IssuedTokenLifetime` | authenticate.js:15-17 | an issued token verifies to its payload for 3600 seconds and is expired afterwards |
| `Authenticate.FindOne` | authenticate.js:27 | a store failure is reported as such; a found user is a stored record with the requested id; not found means no stored user has that id |
| `Authenticate.JwtVerify` | authenticate.js:27-34 | lookup error gives `done(err, false)`, a found user `done(null, user)`, no user `done(null, false)` |
| `Authenticate.CallbackUsesStoredUser` | authenticate.js:25-36 | the user handed to `done` is the stored record with the token's id, not the token's claim; a plain failure happens iff the lookup succeeded and no stored user has that id |
| `Authenticate.VerifyUser` | authenticate.js:24-40 | authenticates iff the token is present and unexpired, the lookup succeeds and a stored user has the token's id; it attaches that stored user. A missing or expired token gives 401 "Unauthorized" before any lookup. A failed lookup behind a valid token is forwarded as an error, and an unknown id gives 401 |
| `Authenticate.IssuedTokenAuthenticates` | authenticate.js:24-40 | with distinct user ids, a token issued for a stored user authenticates exactly that user throughout its lifetime |
| `Authenticate.SessionsAfter` | authenticate.js:40 | a session is recorded only when the `session` option is on and authentication succeeded |
| `Authenticate.VerifyUserIsStateless` | authenticate.js:40 | with `session: false`, bearer verification never changes session state |
| `Authenticate.AdminChain` | routes/users.js:10-15 | `verifyUser` then `verifyAdmin` proceeds iff authenticated as an admin. A rejection is passed through unchanged; an authenticated non-admin gets 403 |
| `Authenticate.ForbiddenOnlyAfterAuthentication` | routes/users.js:10-15 | a 403 from an admin route implies authentication succeeded as a non-admin; no token gives 401, never 403 |
| `Users.ListUsers` | routes/users.js:10-24 | the user list is sent (200) iff the requester is an authenticated admin and the query succeeds. A bearer rejection stands, a non-admin gets 403, and an admin whose query fails gets that error forwarded |
| `Users.LocalAuthenticate` | routes/users.js:66 | a login succeeds only as a stored user with that username and matching credential; an unknown username always fails |
| `Users.StoredUserLogsIn` | routes/users.js:66 | with unique usernames, every stored user logs in with exactly its own credential and with no other password |
| `Users.RegisteredUserLogsIn` | routes/users.js:50-54 | a user appended under an unused username is found by the password strategy with the right password, and nothing is found with any other |
| `Users.UserDoc.constructor` | routes/users.js:37-38 | a new user document has the username and credential, no admin flag and no names |
| `Users.Signup` | routes/users.js:27-60 | a missing or empty username or password gives 400 `{error: "Username and password are required."}` and stores nothing. A registration failure or a taken username gives 500 `{error}` and stores nothing. Otherwise exactly one user is appended, with the id, username and credential, and no admin flag. Names are copied only when truthy, and a failed second save keeps the user without names and gives 500. Success gives 200 "Registration Successful!", even when the login step's user lookup fails, because its callback ignores the error. Unique usernames stay unique |
| `Users.Login` | routes/users.js:68-77 | 200 `{success: true, token, status: "You are successfully logged in!"}` with a token for `{_id}` only, expiring one hour after issue |
| `Users.LoginRoute` | routes/users.js:63-78 | missing credentials give 400, a failed user lookup is forwarded as an error, and wrong credentials give 401. The token body of the found user is sent iff the lookup succeeds and the password strategy finds that user |
| `Users.SignupThenLogin` | routes/users.js:27-78 | after signing up, the same username and password log in and any other password gives 401 |
| `Users.LoginTokenAuthenticates` | routes/users.js:69-76 | the token returned at login authenticates the same stored user on bearer routes for its whole lifetime |
| `Users.Logout` | routes/users.js:81-96 | no session gives 401 "You are not logged in!". Otherwise the session is destroyed, cookie `session-id` cleared and a redirect to `/` sent. A failed destroy forwards the error with no redirect and no change |
| `Users.FacebookToken` | routes/users.js:98-113 | with a user attached the answer is exactly the login answer; without one nothing is written |
| `Campsites.CommentIndex` | routes/campsiteRouter.js:222 | `comments.id(cid)` finds the first comment with that id, or none iff no comment has it |
| `Campsites.Patch` | routes/campsiteRouter.js:255-260 | id and author are kept; rating is replaced iff the supplied rating is truthy, and text likewise |
| `Campsites.CampsiteDoc.Load` | routes/campsiteRouter.js:155-157 | the loaded document holds exactly the stored record |
| `Campsites.CampsiteDoc.PushComment` | routes/campsiteRouter.js:159 | the comment is appended to the document's list in place |
| `Campsites.CampsiteDoc.ClearComments` | routes/campsiteRouter.js:193 | the document's comment list becomes empty |
| `Campsites.CampsiteDoc.SetRating` | routes/campsiteRouter.js:256 | only that comment's rating changes |
| `Campsites.CampsiteDoc.SetText` | routes/campsiteRouter.js:259 | only that comment's text changes |
| `Campsites.WithoutId` | routes/campsiteRouter.js:294 | the list `comment.remove()` leaves (Mongoose pulls by id from the parent array): no survivor has the removed id, and the list never grows |
| `Campsites.WithoutIdMembers` | routes/campsiteRouter.js:294 | exactly the comments with another id survive |
| `Campsites.WithoutIdUnchanged` | routes/campsiteRouter.js:294 | the list changes iff some comment has that id |
| `Campsites.CampsiteDoc.RemoveComment` | routes/campsiteRouter.js:294 | in place, every comment with the removed comment's id leaves the list |
| `Campsites.Locate` | routes/campsiteRouter.js:250-284 | a store failure is forwarded, a missing campsite gives 404 "Campsite X not found", a missing comment 404 "Comment Y not found", otherwise the stored campsite and the position of the first comment with that id, as `comments.id()` returns |
| `Campsites.LocalVerifyAdmin` | routes/campsiteRouter.js:9-17 | proceeds iff the user is present and an admin, otherwise 403 with the fixed message |
| `Campsites.LocalVerifyAdminAgrees` | routes/campsiteRouter.js:9-17 | the router's copy decides exactly as `verifyAdmin` in authenticate.js |
| `Campsites.LocalAdminChain` | routes/campsiteRouter.js:185-188 | `verifyUser` followed by the router's copy decides as the shared admin chain |
| `Campsites.GetComments` | routes/campsiteRouter.js:134-149 | the campsite's comments with 200, or 404 "Campsite X not found", or the store's error |
| `Campsites.GetComment` | routes/campsiteRouter.js:218-237 | a comment is returned (200) iff campsite and comment exist, and it is the first stored comment with that id. Otherwise a failing find is forwarded, and a missing campsite or comment gives its 404 |
| `Campsites.PostComment` | routes/campsiteRouter.js:150-177 | only an authenticated admin gets past the guard. A missing campsite gives 404 and a failing find or save forwards the error, all without change. Otherwise exactly one comment is appended, with author set to the requester's id and the new id; everything else is unchanged and distinct ids are kept |
| `Campsites.DeleteComments` | routes/campsiteRouter.js:185-212 | guarded by the admin chain. On an existing campsite the comment list becomes empty, every other field and campsite is unchanged, and 200 returns the saved campsite. A missing campsite gives 404, and a failing find or save forwards its error; in these cases nothing changes |
| `Campsites.PutComment` | routes/campsiteRouter.js:249-287 | missing campsite or comment gives 404, and a non-author gets 403 "You are not authorized to update this comment!", all with nothing changed. The author's request patches exactly that comment and answers 200 with the saved campsite, even for an empty patch. A failing save forwards its error with nothing changed |
| `Campsites.DeleteComment` | routes/campsiteRouter.js:288-321 | 404s as for PUT, and 403 "You are not authorized to delete this comment!" for a non-author, with nothing changed. The store changes iff the author deletes an existing comment and the save succeeds. Then every comment with that id is pulled from the campsite and 200 returns the saved campsite; a failing save forwards its error |
| `Campsites.Unsupported` | routes/campsiteRouter.js:48-56 | covers the four fixed answers (lines 48-56, 86-96, 179-184 and 238-248): the guard runs first: a bearer rejection stands, and an authenticated non-admin gets 403 "You are not authorized to perform this operation!" except for PUT on a comment collection. Everyone else gets 403 with the fixed "not supported" text. No store is read or written |
| `Campsites.UnsupportedIs403` | routes/campsiteRouter.js:179-184 | for all four fixed answers (lines 48-56, 86-96, 179-184 and 238-248): once authenticated, every unsupported operation answers 403, for the missing admin flag or for the operation |
| `Campsites.AppendKeepsIdsUnique` | routes/campsiteRouter.js:157-159 | appending under a fresh id keeps comment ids distinct |
| `Campsites.PatchKeepsIdsUnique` | routes/campsiteRouter.js:255-260 | patching keeps comment ids distinct |
| `Campsites.WithoutIdKeepsDistinct` | routes/campsiteRouter.js:294 | pulling keeps distinct ids distinct |
| `Campsites.RemoveKeepsIdsUnique` | routes/campsiteRouter.js:293-294 | removal keeps a campsite's comment ids distinct |
| `Campsites.WithoutIdAt` | routes/campsiteRouter.js:292-294 | with distinct ids, pulling the id of the comment at a position removes exactly that position |
| `Campsites.PullIsPositionRemoval` | routes/campsiteRouter.js:292-294 | with distinct ids, `comment.remove()` on the comment `comments.id()` found equals removing that one position |
| `Campsites.DuplicateIdsBothPulled` | routes/campsiteRouter.js:292-294 | two comments sharing an id both go when either is removed |
| `Campsites.PostedCommentIsFound` | routes/campsiteRouter.js:157-159 | after posting under a fresh id, GET of that comment returns exactly the posted comment |
| `Campsites.AppendKeepsEarlier` | routes/campsiteRouter.js:157-159 | posting appends exactly one comment at the end; the earlier ones and the other fields are unchanged |
| `Campsites.PatchTouchesOnlyTarget` | routes/campsiteRouter.js:255-260 | a patch changes only the target comment; with neither field supplied, nothing changes |
| `Campsites.RemoveDropsExactlyOne` | routes/campsiteRouter.js:293-294 | with distinct ids, `comment.remove()` drops exactly that comment (as a multiset), its id is no longer found, and the rest keep their order |

## Findings

| source | as written | input that shows it | evidently intended | confidence | as-written member | corrected member |
|---|---|---|---|---|---|---|
| app.js:43-48 | the decoded credentials are split on every `:` and only fields 0 and 1 are compared | decoded `admin:password:extra` is admitted and gets the `user=admin` cookie | section 2 of RFC 7617: the user-id ends at the first colon and the rest is the password, so only `admin:password` should match | medium (the code may just be naive); not executed | `LegacyGate.ExtraFieldAccepted` | `LegacyGate.ExtraFieldRefusedRfc7617` |

Both gates share one definition, `LegacyGate.Gate`, parameterised by the credential matcher. The `App` lemmas hold for either.

## Left out

- Mongoose persistence: connection setup, `populate`, schema validation and the campsite-level routes (`GET`/`POST`/`DELETE /campsites`, `GET`/`PUT`/`DELETE /campsites/:id`) are plain pass-through. A validation failure on save shows up only as `SaveFails`.
- Token cryptography: signing and signature checks (jsonwebtoken, passport-jwt) and bearer-header extraction. A request carries a token whose signature checks out, or none. Expiry follows jsonwebtoken's rule (expired from `exp` on), with no clock tolerance.
- Cookie-parser's HMAC signing: a cookie with a bad signature arrives as falsy.
- Base64 decoding: `Buffer.from(…, "base64").toString()` is the parameter `decode`.
- Password hashing and salts (passport-local-mongoose): a stored `credential` is compared with plain equality.
- The third-party (Facebook) strategy: it is not defined in any shown file, and its profile fetch is network I/O. Only the route handler's guard is modelled.
- Passport's own responses are modelled from its defaults: a failed authentication ends with 401 "Unauthorized", and the local strategy answers 400 on missing fields. A failing user lookup is an input of `Authenticate.VerifyUser`, `Users.LoginRoute` and `Users.Signup`; a lookup error inside the third-party strategy is not modelled.
- Whether the local login writes a session is not modelled. It depends on session middleware this app does not install.
- Express routing, CORS, views, static files, logging, and promise/callback ordering.
- Session storage internals: the session store is a set of ids.
- Ids are strings and comment fields are an `int` rating and a `string` text. JSON type coercion of request bodies is not modelled.
