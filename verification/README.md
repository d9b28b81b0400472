# Account service: session and token logic

This project models the decision logic of a small Express account service in Dafny. The logic covers five things:

- how a `Bearer` token is pulled out of the `Authorization` header;
- the body checks in front of `/create` and `/login`;
- the refresh-token registry, which is the `tokens` table of `(user_id, md5 digest)` rows;
- the guard-then-dispatch shape of the protected handlers;
- each route as its checks, then `validate`, then its handler.

Everything is a pure function from a database value to a reply and a new database value. The database is `Store.Db`: the `users` and `tokens` tables as sequences of rows in table order, plus the next auto-increment id.

The service calls some primitives it does not define. These are parameters:

- **`Session.Services`** holds the process-wide md5 digest, bcrypt hash, bcrypt compare and e-mail syntax check.
- **`Session.TokenHandler`** holds `generateToken` / `verifyToken` as they behave while one request is served. The signing key, the clock and the expiry are folded into it. Each request gets its own handler, so a later refresh can issue a token different from the one issued at login.

The verifier's answer is the datatype `Session.Verdict`: `Verified(id)` or `Denied(status, message)`. In the source this is a `data?.status` probe on an object. A `Denied` status is assumed to lie in 100..599, a valid HTTP status: the token handler's source is not part of this model, and the handlers pass its status straight to `res.status`.

Modules follow the source:

- `Text`: JavaScript's `split(' ')`, `startsWith` and `trim`, and the length `isLength` compares.
- `Bearer`: `tokenValidation` in routes.js.
- `Store`: the SQL statements controller.js issues.
- `Session`: the controller.js handlers and `validate`.
- `Routes`: the route definitions in routes.js.

Observations the model reflects, as the code does them:

- Both the access and the refresh variant of `tokenValidation` read the `Authorization` header.
- The prefix test is `startsWith('Bearer')` with no trailing space. So `Bearerx abc` passes with token `abc`, and `Bearer  abc` (two spaces) fails.
- Every login appends a new `tokens` row. Several rows can therefore belong to one user. A single record per user after login is not what the code does: `Session.LoginRecordsOneRow` states that each login adds one row to the user's count.
- `getUsers` tests `length < 0`, so its 404 branch is dead.
- The refresh handler's 401 reply is sent with `res.json` alone. Its HTTP status is therefore 200 while its body says 401. `Session.Response` keeps both.
- The INSERT in login always reports one affected row. After the lookup has found exactly one row, the UPDATE in refresh matches that row, and matched rows are what it reports as affected. So neither handler's "no rows affected" error can happen when a request runs alone; `Session.LoginRecordsOneRow` and `Session.RefreshRotates` show this.

## Model

| member | source | states |
|---|---|---|
| `Text.Split` | routes.js:17 | `split(' ')` always yields at least one piece, and no piece contains a space |
| `Text.JoinSplit` | routes.js:17 | splitting on single spaces loses nothing: re-joining the pieces with one space gives back the header |
| `Text.SplitJoin` | routes.js:17 | the converse round trip: space-free pieces, joined and split again, come back unchanged |
| `Text.Trim` | routes.js:35-74 | the `trim()` sanitiser applied to every body field never lengthens its input, and its result, unless empty, begins and ends on a non-whitespace character; `Text.TrimShape` pins down which slice it keeps |
| `Text.TrimShape` | routes.js:35-74 | the `trim()` sanitiser applied to every body field keeps one slice of the input: everything before it and after it is whitespace, and the slice, unless empty, starts and ends on a non-whitespace character |
| `Text.ValidatorLength` | routes.js:51-74 | the length `isLength({ min: 4 })` compares never exceeds the code-point count; `Text.ValidatorLengthFull` and `Text.ValidatorLengthAppend` say by how much it falls short |
| `Text.ValidatorLengthFull` | routes.js:53 | the length `isLength` compares equals the code-point count exactly when the string holds no U+FE0E or U+FE0F variation selector |
| `Text.ValidatorLengthAppend` | routes.js:53 | that length adds up over concatenation, so each selector lowers it by one wherever it stands |
| `Text.ValidatorLengthSkipsSelector` | routes.js:53 | `abc` followed by U+FE0F has length 3 and so fails `isLength({ min: 4 })`, while `abcd` has length 4 |
| `Bearer.Extract` | routes.js:17-19 | an accepted value starts with `Bearer`, and its token is non-empty and space-free |
| `Bearer.ExtractShape` | routes.js:17-19 | soundness: an accepted value is a space-free word starting with `Bearer`, one space, the token, then nothing or a further space |
| `Bearer.ExtractFromShape` | routes.js:17-19 | completeness: every value of that shape is accepted and yields exactly that token |
| `Bearer.ExtractAcceptsExamples` | routes.js:17 | `Bearer abc` and `Bearerx abc` both yield `abc`; a third field is ignored |
| `Bearer.ExtractRejectsDoubleSpace` | routes.js:17 | `Bearer  abc` is refused, because the second field is empty |
| `Bearer.ExtractRejectsExamples` | routes.js:17 | a bare `Bearer` and a lower-case `bearer abc` are refused |
| `Bearer.TokenValidation` | routes.js:8-28 | an accepted request keeps its `Authorization` header; a refusal names the variant (access or refresh) in its message |
| `Bearer.AcceptedIff` | routes.js:12-19 | a header passes exactly when it is present and its value yields a token; the separate emptiness check never decides anything on its own |
| `Bearer.AcceptedStoresToken` | routes.js:20-25 | on acceptance, `split(' ')[1]` goes into `refresh_token` for the refresh variant and into `access_token` otherwise; the other field is unchanged |
| `Bearer.MissingRejected` | routes.js:12-15 | a missing or empty `Authorization` header is refused on both variants |
| `Bearer.RefreshReadsAuthorization` | routes.js:9-12 | the refresh variant accepts exactly what the access variant accepts, whatever token fields the request already has |
| `Store.UsersWithEmail` | controller.js:23-29 | the e-mail lookup returns exactly the rows holding that e-mail |
| `Store.UsersWithEmailCount` | controller.js:23-29 | the e-mail lookup returns each matching row as many times as the table holds it, and no other row, so the `length` tests of `/create` and `/login` count rows, not distinct values |
| `Store.FirstWithEmail` | routes.js:68-71 | the lookup's first row is the earliest row of the table holding the e-mail |
| `Store.ProfilesWithId` | controller.js:23-29 | the id lookup returns the id, name and e-mail of exactly the rows with that id |
| `Store.ProfilesWithIdCount` | controller.js:23-29 | the id lookup returns each projected row with that id as many times as the projected table holds it, and no other row, which is what getUser's `length !== 1` test counts |
| `Store.DeleteWithId` | controller.js:39-43 | after delete by id, a row remains exactly when it was in the table and has another id (`Store.DeleteWithIdCount` adds how many copies); the affected count is the number of rows the id selected |
| `Store.DeleteWithIdCount` | controller.js:39-43 | delete by id keeps each row with another id exactly as many times as the table holds it, and no row with the id |
| `Store.InsertToken` | controller.js:99-102 | the token INSERT; its effect is stated by `Session.LoginRecordsOneRow` (exactly one `(user.id, md5(refresh))` row appended, nothing else changed) and `Routes.LoginRecordsRefreshToken`, with `Store.CountOwnedAppend` for per-owner row counts and `Store.TokensAppend` for digest lookups after the append |
| `Store.InsertUser` | controller.js:62-65 | the user INSERT appends one row under the next auto-increment id; it fails exactly when the e-mail is already held |
| `Store.TokensWithHash` | controller.js:203-206 | the digest lookup returns exactly the rows holding that digest |
| `Store.TokensWithHashCount` | controller.js:203-208 | the digest lookup returns each row holding the digest as many times as the table holds it, and no other row, which is what refresh's `length !== 1` test counts |
| `Store.Rotate` | controller.js:224-227 | the UPDATE rewrites each row holding the old digest to the new one and leaves the rest alone; the affected count is the number of rows the lookup finds |
| `Store.RotateKeepsOwners` | controller.js:224-227 | rotation never moves a token row to another user |
| `Store.CountOwnedAppend` | controller.js:99-102 | appending a token row adds one to its owner's row count and nothing to anyone else's |
| `Store.InsertUserKeepsWellFormed` | controller.js:62-65 | a successful user insert keeps ids increasing, below the next id, and e-mails unique |
| `Store.DeleteKeepsDistinct` | controller.js:39-43 | deleting by id keeps ids increasing and e-mails distinct |
| `Store.DeleteKeepsWellFormed` | controller.js:39-43 | deleting by id keeps the users table well formed |
| `Session.Validate` | controller.js:11-20 | any field error stops the request with HTTP and body status 422 and a body carrying the whole field-error map; with no errors the request goes on |
| `Session.Signup` | controller.js:53-74 | signup answers 201 with the next id and appends the user with the bcrypt digest of the password; a held e-mail reaches the error handler and changes nothing; tokens are never touched |
| `Session.Login` | controller.js:76-115 | login never changes the users table |
| `Session.GetUser` | controller.js:117-137 | getUser never changes the database |
| `Session.GetUsers` | controller.js:138-158 | getUsers never changes the database |
| `Session.DeleteUser` | controller.js:159-173 | deleteUser only removes users; past the guard no row with the id remains |
| `Session.RefreshToken` | controller.js:190-241 | refresh never changes the users table or the number of token rows |
| `Session.LoginWrongPassword` | controller.js:79-88 | a non-matching password gives 422, issues no token and writes nothing |
| `Session.LoginRecordsOneRow` | controller.js:91-111 | a matching password gives 200 with both tokens for `user.id`; exactly one row `(user.id, md5(refresh))` is appended and nothing else changes |
| `Session.GuardShortCircuits` | controller.js:117-195 | in getUser, getUsers, deleteUser (lines 120-121, 141-142, 162-163) and refresh (194-195), a refused token is answered with the verifier's status and message, and no table is read or written |
| `Session.GetUserFound` | controller.js:123-133 | past the guard, getUser answers 404 exactly when the id does not select a single row; otherwise 200 with that row's profile |
| `Session.GetUsersNeverNotFound` | controller.js:144-154 | past the guard, getUsers always answers 200 with the whole table; the `length < 0` branch is dead |
| `Session.DeleteUserUnconditional` | controller.js:165-169 | past the guard, deleteUser answers 200 whether or not the id exists, and reports how many rows had it |
| `Session.RefreshRejectsUnlessSingle` | controller.js:203-213 | a verified refresh token whose digest is not held by exactly one row gets body status 401 (HTTP 200), and the table is unchanged |
| `Session.RefreshRotates` | controller.js:215-237 | a successful refresh issues both tokens for the verified claim's id with status 200. Rows holding the old digest get the new digest and all other rows are untouched. Owners are unchanged, and the "no row updated" error cannot happen |
| `Session.RefreshReplayRejected` | controller.js:198-227 | after a successful refresh, presenting the same token again is refused with no new tokens and no change, provided the new digest differs from the old |
| `Routes.PasswordError` | routes.js:51-74 | the password check of `/create` and `/login` fails exactly when the trimmed password's `isLength` count is below 4 |
| `Routes.SignupEmailError` | routes.js:40-50 | the `/create` e-mail check fails exactly when the trimmed e-mail is not valid syntax or some row already holds it |
| `Routes.LoginEmailError` | routes.js:64-73 | the `/login` e-mail check fails exactly when the trimmed e-mail is not valid syntax or no row holds it |
| `Routes.SignupErrors` | routes.js:33-55 | `/create` flags the name exactly when it is empty after trimming. It flags the e-mail exactly when it is invalid or already held, and the password exactly when, after trimming, `isLength` counts fewer than 4 characters |
| `Routes.LoginErrors` | routes.js:63-75 | `/login` flags the e-mail exactly when it is invalid or held by no row, and the password exactly when, after trimming, `isLength` counts fewer than 4 characters |
| `Routes.SignupRoute` | routes.js:31-58 | `/create` never touches the tokens table |
| `Routes.LoginRoute` | routes.js:61-78 | `/login` never changes the users table or the next id |
| `Routes.Guard` | routes.js:81-97 | a refused header stops the request with status 422 |
| `Routes.UsersRoute` | routes.js:81 | `GET /users` never changes the database |
| `Routes.ProfileRoute` | routes.js:84 | `GET /profile/:id` never changes the database |
| `Routes.DeleteRoute` | routes.js:87 | `DELETE /delete/:id` never touches the tokens table |
| `Routes.RefreshRoute` | routes.js:92-97 | `GET /refresh` never changes the users table or the next id |
| `Routes.SignupRejectsRegistered` | routes.js:43-49 | `/create` refuses an e-mail any row already holds, with 422 and nothing inserted |
| `Routes.LoginRejectsUnknown` | routes.js:67-72 | `/login` refuses an e-mail no row holds, with 422 and nothing written |
| `Routes.ShortPasswordRejected` | routes.js:51-74 | both `/create` and `/login` refuse a password in which, after trimming, `isLength` counts fewer than 4 characters, with 422 and nothing written |
| `Routes.LoginAttachesFirstRow` | routes.js:67-72 | once `/login`'s checks pass, the handler receives the earliest row holding the trimmed e-mail, and the trimmed password |
| `Routes.GuardedRoutesRejectBadHeader` | routes.js:81-97 | a missing, empty or non-`Bearer` header stops `/users`, `/profile/:id`, `/delete/:id` and `/refresh` with 422, before any handler runs |
| `Routes.GuardedRoutesPassToken` | routes.js:81-97 | an accepted header hands its handler exactly the token after `Bearer`: as the access token on the user routes and as the refresh token on `/refresh` |
| `Routes.SignupKeepsWellFormed` | routes.js:31-58 | `/create` keeps ids increasing and e-mails unique |
| `Routes.DeleteKeepsTableWellFormed` | routes.js:87 | `/delete/:id` keeps ids increasing and e-mails unique |
| `Routes.RoutesKeepWellFormed` | routes.js:31-97 | every route keeps the users table well formed |
| `Routes.SignupThenProfile` | routes.js:31-84 | after a successful `/create`, `/profile/:id` with the returned id and an accepted access token answers 200 with the new profile |
| `Routes.LoginRecordsRefreshToken` | controller.js:91-106 | after a successful `/login`, exactly one row holds the issued refresh token's digest, provided none held it before |
| `Routes.RefreshRouteSingleUse` | routes.js:92-97 | `/refresh` with a token whose digest one row holds succeeds once; the repeated request is refused and changes nothing, provided the new digest differs from the old |
| `Routes.RefreshTokenSingleUse` | routes.js:61-97 | end to end: the refresh token a successful `/login` hands out works once on `/refresh` and is refused the second time |

## Left out

- Hashing, comparison and token handling are parameters, not definitions. These are md5, bcrypt hashing (salt included) and comparison, and JWT signing, verification and expiry. The token handler source is not part of this model. md5 is not injective, so the replay lemmas assume the new digest differs from the old one.
- The SQL text, the connection pool and async scheduling are left out. A row order stands in for the unspecified order of `SELECT` results. E-mails are compared exactly, not under the database's collation. Storage exceptions other than the unique-email violation on signup are not modelled.
- Concurrency is not modelled. The UPDATE in refresh acts as a compare-and-swap between two concurrent refreshes of the same token. Only sequential runs are modelled, and there its zero-rows error cannot happen.
- The express-validator library is abstracted:
  - `isEmail` is a parameter.
  - `escape` is not applied to the stored name.
  - Message texts are reduced to `Session.FieldError` values, and only each field's first error is kept.
  - `isLength` is modelled as validator.js computes it in its 13.x releases: code points, less one for each U+FE0E or U+FE0F variation selector (`Text.ValidatorLength`).
- Whitespace for `trim()` is JavaScript's `\s` class. Other sanitiser options are not modelled.
- `Store.User` keeps four columns: `id`, `name`, `email` and the password digest. The `created_at` and `updated_at` columns are left out, so `getUsers` and the e-mail lookup (both `SELECT *`) return rows without them. No modelled decision reads those columns.
- `Store.Rotate` reports as affected every row its WHERE clause matches, which is the MySQL client's found-rows behaviour. The connection setup that selects it is not part of this model. Were changed rows counted instead, a refresh whose new digest equals the old one would reach the "no row updated" error at controller.js:229-231, which the model says cannot happen.
- `Store.InsertToken` always reports one affected row for its one-tuple INSERT. A storage engine that accepts the statement yet reports zero rows is not modelled, so login's "no rows affected" error is unreachable in the model.
- The route parameter `:id` is taken as a natural number. The string-to-number coercion in the SQL comparison is not modelled.
- The `updateUser` helper and handler are left out, because they cannot run as written:
  - the helper passes an undefined `hashPassword` (controller.js:48);
  - the handler checks an undefined `data` (controller.js:179);
  - the handler calls `deleteUsers` with four arguments (controller.js:181);
  - the route is registered as `DELETE /update` (routes.js:90).
- The error middleware that turns a raised error into a 500 reply is outside the core. `Session.Outcome` stops at `Raised(fault)`.
