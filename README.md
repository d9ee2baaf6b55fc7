# Coffee Shop user service — a Dafny model

This project models the user-account core of the Coffee Shop FastAPI service:

- the `users` table and its constraints;
- password hashing and checking with bcrypt;
- access and refresh JWTs;
- the signup, login and e-mail verification endpoints;
- the admin user-management endpoints and their bearer-token guards;
- the two background jobs that expire unverified accounts.

Each Python module has a Dafny module:

| Python | Dafny module | file |
|---|---|---|
| HTTP errors, `Optional` | `Common` | common.dfy |
| `jose.jwt` as used | `Jwt` | jwt.dfy |
| `app/models.py` | `Models` | models.dfy |
| the SQLAlchemy session over `users` | `Db` | db.dfy |
| `app/schemas.py` and request validation | `Schemas` | schemas.dfy |
| `app/views.py` | `Views` | views.dfy |
| `app/tasks/user_tasks.py` | `UserTasks` | user_tasks.dfy |
| `app/tasks.py` | `Tasks` | tasks.dfy |
| `app/deps.py` | `Deps` | deps.dfy |
| `app/permissions.py` | `Permissions` | permissions.dfy |
| `app/routers/auth.py` | `AuthRouter` | auth_router.dfy |
| `app/routers/users.py` | `UsersRouter` | users_router.dfy |

How the pieces are represented:

- **The table.** The table is the class `Db.UserStore`. Its field `rows` holds the rows in table order and its field `nextId` is the id sequence. `Valid()` holds when ids are unique, emails are unique, and every id is below `nextId`. The methods `Add`, `Replace`, `Delete` and `DeleteAll` stand for a commit of an insert, an attribute update, one delete, and a batch of deletes. Each keeps `Valid()` and states the whole new table.
- **Queries.** Queries are pure functions over `rows`. `IndexOfId` plays `session.get` and `IndexOfEmail` / `FirstWithEmail` play `.filter(email == …).first()`. `.first()` without `ORDER BY` is taken to return the first row in table order.
- **HTTP errors.** A raised `HTTPException`, `ValueError` or database integrity error is an `Err` value carrying the same status code and detail text.
- **Time.** Time is integer minutes. Each operation receives the current moment as a parameter `now`.
- **Randomness.** The fresh bcrypt salt and the UUID text are parameters as well.
- **bcrypt.** bcrypt is an uninterpreted key-derivation function `kdf(password, salt)`. The stored hash carries its salt, so `verify_password(p, get_password_hash(p))` is proved for every `kdf`. That a different password is refused is proved under the explicit hypothesis `CollisionFree`.
- **JWT.** The signature layer of the JWT library is a `Codec`: a pair of an `encode` function and a `decode` function. `decode` returns `None` where a bad signature or a malformed token makes `jose` raise `JWTError`. On top of it, `Jwt.Decode` makes the claim checks `jose.jwt.decode` makes by default, at the request time `now`: an `exp` must be a number not before `now`, and a `sub` must be a string. A failed check is a `JWTError` too, so it becomes `None`. Properties about minted tokens assume the hypothesis `RoundTrips(codec)`: the signature layer gives an encoded claim set back.
- **EmailStr.** The `EmailStr` type is a parameter `emailStr` of the validators. It returns the normalised address, or `None` for text that is not a valid address.
- **The mail queue.** The Celery queue is the class `UserTasks.TaskQueue`. It records the verification mails handed to it.

## Model

| member | source | states |
|---|---|---|
| Models.RoleOf | app/models.py:5-7 | a string names a role iff it is "user" or "admin", and the role found has exactly that value |
| Models.RoleRoundTrip | app/models.py:5-7 | every RoleEnum member is recovered from its stored value |
| Db.IndexOfId | app/routers/users.py:21 | `session.get(User, id)`: the position found holds that id and is the first such; None iff no row has the id |
| Db.IndexOfEmail | app/deps.py:23-24 | the filter by email with `.first()`: the position found holds the email and no earlier row does; None iff no row has it |
| Db.FirstWithEmail | app/views.py:59-61 | get_user_by_email: None iff no row has the email, otherwise the first row that has it |
| Db.IdLookupUnique | app/models.py:13 | with the primary key unique, the lookup by a row's id finds exactly that row |
| Db.EmailLookupUnique | app/models.py:14 | with the unique email index, the lookup by a row's email finds exactly that row |
| Db.EmailLookupIgnoresOtherColumns | app/views.py:82-88 | rewriting columns other than email leaves every email lookup as it was |
| Db.RemoveIndicesMembers | app/tasks.py:15-17 | after a batch delete, every remaining row was in the table, and every row not deleted remains |
| Db.RemoveIndicesDrops | app/tasks.py:15-17 | with a unique primary key, no row at a deleted position is left after a batch delete |
| Db.RemoveIndicesWellFormed | app/models.py:13-14 | a batch delete keeps ids unique, emails unique and ids below the sequence |
| Db.UserStore.constructor | app/models.py:10-11 | the table starts empty with the id sequence at 1 |
| Db.UserStore.Add | app/views.py:74-76 | an insert draws the next id whether or not it succeeds; a duplicate email raises the error of the unique index `ix_users_email` and stores nothing; otherwise the row is appended with the drawn id and the constraints hold |
| Db.UserStore.Replace | app/routers/users.py:31-33 | an update of non-key columns replaces exactly that row and keeps the constraints |
| Db.UserStore.Delete | app/routers/users.py:42-43 | a delete removes exactly that row, keeps the others in order, and keeps the constraints |
| Db.UserStore.DeleteAll | app/tasks.py:15-17 | several deletes then one commit: every row at a deleted position is gone, every other row remains in order, and the constraints hold |
| Jwt.TokenSubject | app/deps.py:15-21 | a subject is read iff `jwt.decode` accepts the token at `now` and the payload has a `sub`, and the subject read is that claim's string |
| Jwt.Decode | app/deps.py:16 | `jwt.decode` at `now` accepts a token iff its signature layer decodes and the claims are valid (numeric, unexpired `exp`; string `sub`), and then yields those claims |
| Jwt.MintedTokenDecodes | app/deps.py:16 | a minted token decodes to its claims iff they are valid at `now`, and is refused otherwise |
| Jwt.Subject | app/deps.py:17 | `payload.get("sub")`: a subject iff the claim is present as a string, and then that string |
| Schemas.ReadHidesSecrets | app/schemas.py:10-16 | the UserRead response depends only on id, email, names, is_verified and role; the hash, code, timestamps and soft-delete columns never reach it |
| Schemas.ToRead | app/schemas.py:10-16 | a row serialised as UserRead carries exactly its id, email, names, is_verified and role |
| Schemas.SentItems | app/routers/users.py:31 | `data.dict(exclude_unset=True)`: a field appears iff it was sent, and then with the sent value |
| Schemas.ValidateUserCreateAsDeclared | app/schemas.py:4-8 | under pydantic 2 a body is accepted iff email, password, first_name and last_name are all present and the email passes EmailStr; a missing field is 422 "Field required", a bad email 422; the result holds the normalised email, the password and the two sent names |
| Schemas.ValidateUserCreate | app/schemas.py:4-8 | with the names optional, a body is accepted iff email and password are present and the email passes EmailStr; the result holds the normalised email and the password, and absent names become None |
| Schemas.ValidateUserUpdateAsDeclared | app/schemas.py:22-24 | under pydantic 2 a PATCH body is accepted iff both name fields are present, and then both count as sent, each with its sent value |
| Schemas.ValidateUserUpdate | app/schemas.py:22-24 | with both names defaulting to None, a field counts as sent iff the body has it, and it carries the sent value |
| Schemas.PartialPatchRejectedAsDeclared | app/schemas.py:22-24 | the partial PATCH `{"first_name": "John"}` is rejected with 422 as declared, and becomes a first-name-only update when the defaults are added |
| Schemas.SignupWithoutNamesRejectedAsDeclared | app/schemas.py:4-8 | the signup body without names is rejected with 422 as declared, and is accepted with both names None when the defaults are added |
| Schemas.MalformedEmailRejected | app/schemas.py:5 | a body whose email fails EmailStr is a 422 under either declaration |
| Views.GetPasswordHash | app/views.py:13-14 | the hash embeds the salt it was made with |
| Views.VerifyPassword | app/views.py:17-21 | a stored hash accepts a password iff hashing that password under the stored salt reproduces the stored hash |
| Views.HashVerifiesOwnPassword | app/views.py:13-21 | a fresh hash verifies the password it was made from, whatever the digest function |
| Views.VerifyPasswordAcceptsOnlyOriginal | app/views.py:17-21 | under a collision-free digest, a hash accepts a password iff it is the original |
| Views.WithExpiry | app/views.py:25-27 | the claims gain `exp` set to the expiry and keep every other claim |
| Views.CreateAccessToken | app/views.py:24-28 | the token decodes to the claims plus `exp` = now + expires_minutes; with a string subject, `jwt.decode` accepts it at every moment up to that expiry and at none after |
| Views.CreateRefreshToken | app/views.py:31-35 | the token decodes to the claims plus `exp` = now + expires_days days, with the same validity window |
| Views.TokenPairFor | app/views.py:51-52 | the minted pair decodes to the subject with `exp` 30 minutes and 7 days later; the access token names the subject for 30 minutes, the refresh token for 10080, and neither afterwards |
| Views.TokenPairLifetimes | app/views.py:24-35 | between 30 minutes and 7 days after minting, the access token is refused while the refresh token still names the subject |
| Views.RefreshUserToken | app/views.py:38-56 | a token `jwt.decode` refuses at `now` (bad signature, expired, non-string `sub`) raises "Invalid refresh token"; a token without a subject raises "Invalid refresh token: no subject"; it succeeds iff a subject is read, and both new tokens carry that subject |
| Views.RefreshRotatesIssuedToken | app/views.py:38-56 | within its 7 days, refreshing a refresh token minted for an email gives a fresh pair for that email, expiring 30 minutes and 7 days after the refresh |
| Views.RefreshRejectsExpiredToken | app/views.py:38-49 | after its 7 days a refresh token is refused with "Invalid refresh token" |
| Views.AccessTokenAcceptedForRefresh | app/views.py:38-49 | no token type is checked, so an unexpired access token is accepted for refresh |
| Views.NewUserRecord | app/views.py:67-73 | the row create_user builds takes the email, hash, names, code and creation time given, and the column defaults of app/models.py:18-19: not verified, role "user", not deleted |
| Views.CreateUser | app/views.py:63-79 | the appended row is the new record with the drawn id: the password is hashed, the code is the first six characters of the UUID, and the column defaults apply (not verified, role "user", not deleted); exactly one mail with that email and code is queued; a duplicate email raises the unique-index error and queues nothing |
| Views.CodeMatch | app/views.py:83-84 | the position found is the first row with the email and holds the code; None otherwise |
| Views.CodeMatchIff | app/views.py:82-90 | with unique emails, verification succeeds iff some user has that email and that stored code |
| Views.VerificationIsSingleUse | app/views.py:85-86 | after a successful verification the same email and code no longer match |
| Views.VerifyUser | app/views.py:82-90 | on a match, exactly that row becomes verified with its code cleared and is returned; otherwise it returns None and nothing changes |
| Views.SetUserRole | app/views.py:93-107 | a missing id gives 404, checked first; a role other than "admin"/"user" gives 403; otherwise only the role column of that row changes; stored roles stay RoleEnum values |
| UserTasks.TaskQueue.constructor | app/tasks/user_tasks.py:37-38 | the queue starts empty |
| UserTasks.TaskQueue.SendVerificationEmailDelay | app/tasks/user_tasks.py:37-38 | `.delay` appends exactly one job with the email and code |
| UserTasks.SelectExpired | app/tasks/user_tasks.py:22-29 | the query selects, in table order and without repeats, exactly the positions of unverified, not-deleted rows created before the threshold |
| UserTasks.Swept | app/tasks/user_tasks.py:30-32 | the sweep keeps the table's length and changes only the soft-delete columns of any row |
| UserTasks.SweepChangesExactlySelected | app/tasks/user_tasks.py:30-32 | a row changes iff it is selected, and a selected row becomes deleted with `deleted_at` = the run time and is otherwise unchanged |
| UserTasks.SweepSparesOthers | app/tasks/user_tasks.py:24-26 | verified rows, deleted rows and rows created at or after the threshold are untouched |
| UserTasks.SweepIsMonotone | app/tasks/user_tasks.py:25-31 | `is_deleted` only goes from false to true; afterwards a row is deleted iff it was already deleted or was selected |
| UserTasks.SweepKeepsKeys | app/tasks/user_tasks.py:30-33 | the sweep keeps the table's constraints |
| UserTasks.SweepIdempotent | app/tasks/user_tasks.py:22-33 | a second sweep with the same threshold selects nothing and changes nothing |
| UserTasks.NothingExpiredSelectsNothing | app/tasks/user_tasks.py:22-29 | a table with no expired row gives an empty selection |
| UserTasks.LaterThresholdSelectsMore | app/tasks/user_tasks.py:26 | a later threshold selects every row an earlier one selects |
| UserTasks.FortyEightHourScenario | app/config.py:29 | with the 2880-minute lifetime, an account survives a sweep 47 h after creation and is soft-deleted by one 49 h after |
| UserTasks.DeleteUnverifiedUsers | app/tasks/user_tasks.py:18-34 | the table after the job is the sweep of the old table at the run time, with one threshold for the whole run; the count is the number selected; the constraints hold |
| Tasks.SelectStale | app/tasks.py:13-14 | the query selects exactly the positions of unverified rows created before the threshold, whatever their soft-delete flag |
| Tasks.PurgeRemovesExactlyStale | app/tasks.py:13-17 | a row survives iff it was in the table and is verified or was created at or after the threshold |
| Tasks.PurgeLeavesOnlyFreshOrVerified | app/tasks.py:13-17 | every survivor is verified or recent, and every verified row survives |
| Tasks.PurgeIgnoresSoftDeleteFlag | app/tasks.py:13 | a stale account is removed even when already soft-deleted |
| Tasks.PurgeBoundary | app/tasks.py:12-13 | the two-day cutoff is strict: an unverified account survives a run exactly two days after its creation and is removed by any later run |
| Tasks.PurgeIdempotent | app/tasks.py:10-17 | a second purge with the same threshold removes nothing |
| Tasks.RemovingStaleIsPurge | app/tasks.py:14-17 | deleting exactly the selected positions leaves the purged table |
| Tasks.DeleteUnverifiedUsers | app/tasks.py:10-17 | the table after the job is the purge of the old table two days back from the run time; the constraints hold |
| Deps.GetCurrentUser | app/deps.py:10-27 | 401 "Invalid token" iff `jwt.decode` refuses the token at `now` or it has no subject; otherwise Ok iff some row's email is the subject, and then the first such row; 404 otherwise |
| Deps.AdminRequired | app/deps.py:30-33 | Ok iff the role is "admin", returning the same user; 403 otherwise |
| Deps.CurrentAdmin | app/deps.py:30-33 | errors of get_current_user pass through; Ok iff the current user is an admin |
| Deps.MintedTokenIdentifiesUser | app/deps.py:10-27 | with unique emails, an access token minted for a stored email authenticates exactly that user for its 30 minutes, and is a 401 after them |
| Deps.NonStringSubjectIsUnauthorized | app/deps.py:15-21 | a token whose `sub` is a number or null fails `jwt.decode`'s subject check and gets 401 |
| Permissions.IsAuthenticated | app/permissions.py:10-27 | behaves exactly as get_current_user; a token `jwt.decode` refuses gives 401 |
| Permissions.IsAdmin | app/permissions.py:30-39 | Ok iff the role is "admin", returning the same user; 403 with its own detail otherwise |
| Permissions.IsVerified | app/permissions.py:42-51 | Ok iff the user is verified, returning the same user; 403 "User email not verified" otherwise |
| AuthRouter.Signup | app/routers/auth.py:7-11 | a taken email gives 400 "Email already registered" and changes nothing; otherwise exactly the new record is appended with the drawn id, its hash verifies the password, the response is its UserRead (a fresh id, not verified, role "user"), and exactly the mail with the email and code is queued |
| AuthRouter.Login | app/routers/auth.py:13-21 | 400 "Incorrect email or password" iff no user has the email or the password does not verify; otherwise both tokens decode to `sub` = the email with `exp` 30 minutes and 7 days later, and both name the email at `now` |
| AuthRouter.LoginAfterSignup | app/routers/auth.py:13-21 | for a stored hash of a password, logging in with that password succeeds, and under a collision-free digest any other password gives 400 |
| AuthRouter.VerifyUserEndpoint | app/routers/auth.py:23-28 | 400 "Invalid verification code" iff the code does not match, with nothing changed; otherwise the matched row becomes verified and is returned |
| UsersRouter.GetMe | app/routers/users.py:10-12 | succeeds iff get_current_user does, returning that user's UserRead, and passes its errors through |
| UsersRouter.GetUsers | app/routers/users.py:14-17 | the admin guard's errors pass through; otherwise the response is every row's UserRead, one per row in table order |
| UsersRouter.GetUser | app/routers/users.py:19-24 | the admin guard first; then 404 when the id is absent; otherwise the UserRead of the row with that id |
| UsersRouter.SetAttr | app/routers/users.py:32 | `setattr` on a name column sets that column to the value and keeps every other column |
| UsersRouter.SetAll | app/routers/users.py:31-32 | the setattr loop changes first_name and last_name only, and a column no item names keeps its value |
| UsersRouter.Patched | app/routers/users.py:31-32 | a PATCH gives each sent name field its sent value, keeps an unsent one, and changes no other column |
| UsersRouter.SetAllOverSentItemsIsPatch | app/routers/users.py:31-32 | running the setattr loop over the sent fields gives the field-wise PATCH: each sent field takes its value, the rest keep theirs |
| UsersRouter.PartialPatchChangesOnlyFirstName | app/routers/users.py:26-35 | the partial PATCH `{"first_name": "John"}`, validated with the defaults, changes first_name to "John" and nothing else |
| UsersRouter.UpdateUser | app/routers/users.py:26-35 | the admin guard first (nothing changes on failure); then 404 when the id is absent; otherwise exactly that row becomes its field-wise PATCH and its UserRead is returned |
| UsersRouter.DeleteUser | app/routers/users.py:37-44 | the admin guard first; then 404 when the id is absent; otherwise exactly that row is removed, no row keeps the id, and the answer is "User deleted" |

## Left out

- HTTP transport, routing, status codes on success and FastAPI's dependency injection are not modelled. Each endpoint is a function or method of its inputs, with the token text as a parameter. HTTPBearer's own rejection of a missing or malformed `Authorization` header is not modelled.
- Models.User: `created_at` uses the server default `func.now()`. The model passes in the run time. Timestamps are integer minutes, and time zones (`settings.tzinfo`; the naive `datetime.utcnow()` in app/tasks.py) are not modelled.
- Models.User: `is_deleted` and `deleted_at` are commented out of app/models.py:23-25, yet the sweep in app/tasks/user_tasks.py filters on `models.User.is_deleted` (line 25). As written, that attribute access raises AttributeError, so the current sweep fails on every run before it selects anything. The model includes both columns and models the sweep as evidently intended. `updated_at` is left out; nothing reads it.
- UserTasks.DeleteUnverifiedUsers: the source stamps `deleted_at` with a fresh `datetime.now` for each row (app/tasks/user_tasks.py:32). The model stamps every row of a run with the one `now`, so it does not capture the few microseconds between rows.
- Views.GetPasswordHash: bcrypt's cost factor, its 72-byte truncation and the UTF-8 text encoding of the hash are not modelled. The salt is a parameter standing for `gensalt()`.
- Views.VerifyPasswordAcceptsOnlyOriginal: stated under the hypothesis `CollisionFree`, because the real digest is not injective.
- Jwt: signing, the secret key and the algorithm sit behind the `Codec` parameter. The properties of minted tokens hold under `RoundTrips(codec)`.
- Jwt.Decode: jose's other default claim checks (`iat`, `nbf`, `aud`, `iss`, `jti`, `at_hash`) are not modelled; no token the service mints carries those claims. The clock leeway (0 by default) is not modelled, nor is jose's `int()` coercion of a string `exp`. The model refuses any `exp` that is not a number.
- Views.CreateAccessToken: `exp` is an integer minute, not a datetime. `settings.ACCESS_TOKEN_EXPIRE_MINUTES` (app/config.py:21) is never read by the code; the default argument of 30 is what applies, and the model uses it.
- Views.CreateUser: the `print` of the code and the e-mail body that the Celery worker builds and sends (app/tasks/user_tasks.py:39-58) are not modelled. Only the enqueued job is.
- Views.CreateUser: the UUID is a 36-character parameter; its randomness is not modelled.
- Views.SetUserRole: the source reads `data.user_id`, but UserUpdateRole (app/schemas.py:27-28) declares only `role`. As written it would raise AttributeError, so the model takes the user id as a separate parameter. No router exposes this operation.
- Views.RefreshUserToken: no router exposes it. It raises `ValueError`s, not HTTP errors, and the model keeps them as such.
- The `delete_unverified_users` Celery task wrappers and the schedule that runs them (app/tasks/user_tasks.py:12-14, app/tasks.py:19-21) are out of scope, as are the `print` of the count, the Celery app and the broker.
- Login and get_current_user do not filter soft-deleted users, and neither does the model. Nor does verify reject an already verified or swept account: verification checks only the email and the code.
- VerifySchema: its `email: EmailStr` (app/schemas.py:37) is not validated in the model. The verify endpoint takes the body as already parsed; a malformed address there gives 422 in the source.
- Schemas.ValidateUserCreate: when several fields of a body are wrong, pydantic reports all of them in one 422. The model reports a single error, "Field required" taking precedence over a bad email.
- Concurrency between requests and the sweep is not modelled; each operation is one transaction.

## Findings

| source | as written | input that shows it | evidently intended | confidence | as-written member | corrected member |
|---|---|---|---|---|---|---|
| app/schemas.py:22-24 | under pydantic 2, `first_name: Optional[str]` with no default is a required field, so every PATCH body must carry both names | `PATCH /users/1` with `{"first_name": "John"}` (tests/test.py:104-107) is rejected with 422 | both fields default to None, so `exclude_unset=True` in app/routers/users.py:31 sees only the sent field and the partial update changes first_name alone | not executed | Schemas.PartialPatchRejectedAsDeclared | UsersRouter.PartialPatchChangesOnlyFirstName |
| app/schemas.py:4-8 | under pydantic 2, UserCreate requires `first_name` and `last_name` to be present | `POST /auth/signup` with `{"email": "new@example.com", "password": "password123"}` (tests/test.py:63-66) is rejected with 422, and so is the login body of tests/test.py:70, since login also validates UserCreate (app/routers/auth.py:14) | the names are optional and default to None | not executed | Schemas.SignupWithoutNamesRejectedAsDeclared | Schemas.ValidateUserCreate |
