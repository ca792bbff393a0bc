# GraphQL authentication backend — Dafny model

This project models the decision logic of a NestJS GraphQL authentication backend in three modules.

- **`AuthService`** (`auth_service.dfy`). The user table is a `Store`: rows keyed by their unique email, plus the next autoincrement id. Four handlers work on it:
  - `findUserByEmail`
  - `register`: refuses a known email with `409 "User Already Exist"`, otherwise hashes the password and inserts a row.
  - `validateUserCredentials`: looks up the email, then runs bcrypt's compare.
  - `login`: throws `401 Unauthorized`, or returns the public projection of the user together with a token pair.

  `issueTokens` signs the payload `{username: email, sub: id}` twice. The access signature uses the access secret and expiry, the refresh signature uses the refresh ones, and both results are returned behind `Bearer `.
- **`AuthSessions`** (`auth_sessions.dfy`). The same handlers as a state machine over a sequence of requests. The lemmas there state what holds across any such sequence:
  - only `register` writes;
  - no existing row is ever altered;
  - a second registration of an email always conflicts;
  - a registered password always logs in.
- **`FormatError`** (`format_error.dfy`). The GraphQL error formatter function. It reduces an error to a message plus `extensions.code`. The message comes from `extensions.originalError` when one is present.

`Wrappers` (`wrappers.dfy`) holds `Option` and `Result`. `null`/`undefined` are modelled as `None`, and a thrown `HttpException` as `Err(HttpError(status, message))`.

## Foreign code as parameters

The service only calls through bcrypt, the JWT signer, `ConfigService` and Prisma, so each becomes a parameter or a model choice:

- **bcrypt.** A `Bcrypt` record holds two functions: `hash(salt, password)` and `compare(password, hash)`. The salt from `genSalt(10)` is random, so it is a parameter of `Register`. The one property of bcrypt the service relies on is that a password matches a hash made from it. This is the predicate `CompareAcceptsOwnHash`, and it is a `requires` of the lemmas that need it.
- **JWT signing.** `jwtService.signAsync` is a `Signer` function from payload and `SignOptions(secret, expiresIn)` to a string.
- **Configuration.** `ConfigService` is a `map<string, string>`. A missing key reads as `None` (undefined).
- **Prisma.** The `User` table is the `Store`.
  - The table's constraints are the ghost predicate `Valid`: each row sits under its own email, and ids are unique.
  - The generated `id` comes from an autoincrement counter, `nextId`. The Prisma schema is not part of this model, so the counter stands in for the column default.
  - `createdAt` and `updatedAt` are one opaque `stamp` parameter of `Register`.

## Model

| member | source | states |
|---|---|---|
| AuthService.FindUserByEmail | src/modules/auth/auth.service.ts:34-40 | On a valid table, the result is present exactly when some row carries the email, and it is then a stored row with that email; a lookup never writes (pure function of the table). |
| AuthService.Register | src/modules/auth/auth.service.ts:49-62 | A known email gives `Err(409, "User Already Exist")` with the table unchanged; a fresh email gives exactly one new row, holding that email and `hash(salt, password)` and no biometric key, returned as the result; every earlier row is unchanged, the row count grows by one, and the table constraints are preserved. |
| AuthService.MapPrismaUserToUserType | src/modules/auth/auth.service.ts:71-78 | The projection carries id, email, createdAt and updatedAt of the row; password and biometricKey are absent. |
| AuthService.ProjectionHidesSecrets | src/modules/auth/auth.service.ts:71-78 | Rows that agree on id, email and timestamps have the same projection, so nothing about the password or biometric key reaches it. |
| AuthService.ValidateUserCredentials | src/modules/auth/auth.service.ts:88-101 | Returns the stored row exactly when the email is on record and bcrypt's compare accepts the password against the stored hash; on a valid table, exactly when some row with that email has a matching hash; null otherwise. |
| AuthService.ValidateAfterRegister | src/modules/auth/auth.service.ts:54-101 | Given bcrypt's compare accepts a hash of the same password, a user just registered validates with the registration password and the returned row is the created one. |
| AuthService.IssueTokens | src/modules/auth/auth.service.ts:110-135 | Stripping `Bearer ` from the access token gives the signature of `{username: email, sub: id}` under `JWT_USER_ACCESS_SECRET` / `JWT_USER_ACCESS_TOKEN_EXPIRY`; from the refresh token, under `JWT_USER_REFERSH_SECRET` / `JWT_USER_REFRESH_TOKEN_EXPIRY`. |
| AuthService.BearerRoundTrip | src/modules/auth/auth.service.ts:131-134 | A signature prefixed with `Bearer ` reads back as exactly that signature. |
| AuthService.TokensRevealOnlyIdentity | src/modules/auth/auth.service.ts:111-114 | The token pair depends on the row only through email and id: password hash and biometric key never influence it. |
| AuthService.Login | src/modules/auth/auth.service.ts:144-154 | Fails only with `401 Unauthorized`; succeeds exactly when the email is stored and the password matches its hash, and then returns the projection of that row (no password, no biometric key) and the token pair issued for it. |
| AuthService.LoginFailureUndifferentiated | src/modules/auth/auth.service.ts:144-149 | An unknown email and a known email with a wrong password give the same returned outcome, `Err(Unauthorized)`. |
| AuthSessions.Handle | src/modules/auth/auth.service.ts:34-154 | Of the three operations only `register` changes the table, and no operation alters or removes an existing row; after a register request its email is on record; table constraints are preserved. |
| AuthSessions.Run | src/modules/auth/auth.service.ts:49-62 | Over any request sequence the table only grows (every existing row is kept as is), its constraints are preserved, and a sequence with no register request leaves it unchanged. |
| AuthSessions.RunRecordsEveryRegistration | src/modules/auth/auth.service.ts:49-62 | Every email that any request in a sequence tried to register is on record at the end, whether that request inserted it or was refused. |
| AuthSessions.ReRegisterConflicts | src/modules/auth/auth.service.ts:50-60 | After a successful registration of an email, and any requests after it, registering that email again with any password conflicts and writes nothing. |
| AuthSessions.LoginAfterRegister | src/modules/auth/auth.service.ts:54-153 | After a successful registration, and any requests after it, logging in with the registration email and password succeeds with the created user's projection and tokens. |
| AuthSessions.RegisterLoginScenario | src/modules/auth/auth.service.spec.ts:61-113 | On an empty table: registering `mock@test.com`/`12345` succeeds, repeating it conflicts, logging in with the same password succeeds with a user carrying neither password nor biometric key and with both the access and the refresh token behind `Bearer `, and an unknown email is unauthorized. |
| FormatError.Format | src/common/utils/format-error.ts:4-23 | The output message is `error.message` without an `originalError` and `originalError.message` with one; the output code equals the input `extensions.code` (absent when the input has no extensions); the output carries nothing else: no locations, path, `originalError` or other extension entries. |
| FormatError.FormatIdempotent | src/common/utils/format-error.ts:9-22 | Formatting an already formatted error changes nothing. |
| FormatError.FormatFixedPoints | src/common/utils/format-error.ts:9-22 | An error is left unchanged by the formatter exactly when it already has the reduced shape (a message and extensions holding only a code). |
| FormatError.FormatHidesInternals | src/common/utils/format-error.ts:7-22 | Two errors with the same surfaced message and code format identically, whatever locations, path, wrapped error or other extension entries they carry. |

## Left out

- `biometricLogin`: the service's test file calls it, but the service does not define it.
- Biometric key of a new row: `register` never sets one. The Prisma schema and its column defaults are not part of this model, so new rows are assumed to carry `None`, as a nullable column without a default would.
- Translating a unique-constraint violation at insert time into a conflict: the service does not do this. A global Prisma exception filter is installed at bootstrap, but its source is not part of this model. Insertion is modelled as sequential and atomic, so the check-then-insert race between concurrent registrations is not modelled.
- `Promise.all` in `issueTokens`: the two signatures are computed one after the other. They are independent, so the result is the same.
- bcrypt internals (salting, cost factor, constant-time compare), JWT cryptography and expiry, and `ConfigService` loading: these are foreign libraries. They are parameters, as described above, and a missing secret is passed to the signer as `None` rather than raising an error.
- `AccessTokenGuard`: it delegates entirely to passport's `AuthGuard("jwt")`, and no JWT strategy exists in the source, so there is no verification logic to model.
- `UserResolver.getUser` (empty body) and `AuthResolver` (it only forwards to the service).
- `HttpExceptionFilter`: response I/O, wall-clock timestamps and console logging. Bootstrap and module wiring (`main.ts`, `app.module.ts`, `auth.module.ts`).
- class-validator input checks (`@IsEmail`, `@MinLength(5)`, …): their behaviour lives in a library that is not part of this model. Inputs reach the service as given.
- `OriginalError`: its interface file is not part of this model. Its `message` is taken to be a string, as the code's `as string` cast asserts. Other falsy values of `originalError` are not modelled; only absent (`null`/`undefined`) counts as missing. `extensions.code` is modelled as an optional string.
- Timestamps are opaque integers. Integer widths (JavaScript numbers, the database's `Int`) are not modelled.
- Clock inside the signer: `signAsync` stamps issue and expiry times from the clock, so real tokens differ from login to login. The `Signer` here is one pure function, fixed for a whole request sequence. The token equalities in `AuthService.TokensRevealOnlyIdentity` and `AuthSessions.LoginAfterRegister` are therefore facts about the model only.
- Installation of the error formatter: the GraphQL module configuration in `app.module.ts` passes no `formatError`, and nothing imports it. The `FormatError` lemmas describe errors that pass through the function; errors the running server returns get the framework's default formatting, which this model does not describe.
- Email matching: lookup and uniqueness use exact string equality. The database's collation is not modelled, and neither is any case folding it does. Under a case-insensitive collation, registering `Mock@test.com` after `mock@test.com` would conflict; in the model it inserts a second row.
- Timing: an unknown email returns before bcrypt's compare runs, so the two login failures can differ in latency. Only the returned outcome is modelled.
- AuthService.ValidateAfterRegister: the bcrypt round trip holds only under the hypothesis `CompareAcceptsOwnHash`. This is bcrypt's contract, not something proved about bcrypt.
- AuthSessions.LoginAfterRegister: holds only under the same bcrypt hypothesis, `CompareAcceptsOwnHash`.
- AuthSessions.RegisterLoginScenario: holds only under the same bcrypt hypothesis, `CompareAcceptsOwnHash`.
