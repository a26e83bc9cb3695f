# Account service core, modelled in Dafny

A model of the logic inside a small FastAPI account service (`01-auth-profile-api`).
It covers password normalisation before bcrypt, the `users` table and its `GUID`
column codec, the user repository, registration, the bearer-token authenticator,
the PATCH-style profile update, and the request and response schemas.

Foreign code is passed in as parameters, because the model cannot see it:
- SHA-256, the salted bcrypt-SHA256 hash and its verifier sit in a `Security.Scheme` value.
  The digest is assumed to have 64 nibbles and nothing else.
  The one law of the hash, that a hash verifies its own input, is assumed only where a lemma states it.
- The random salt, the `uuid.uuid4()` id, the database's `now()` and the token issuer (`create_access_token`) are parameters.
- The token decoder (`decode_access_token`) is a parameter too. No round-trip law is assumed for it.

Modules, one per source file:
- `Utf8`, `HexText`: Python's UTF-8 encoding, and hex digits as `hexdigest()` and `str(uuid)` write them.
- `Security`: `src/core/security.py`.
- `UserModel`: `src/models/user.py`.
- `UserRepo`: `src/repositories/user_repo.py`. The table is a `map` from id to row, owned by the class `UserStore`.
- `Deps`: `src/core/deps.py`.
- `AuthService`, `ProfileService`: the two service files.
- `Schemas`: `src/schemas/user.py`.

Notes on the code, where its own docstrings or tests say otherwise:
- The authenticator's two 401s carry different detail texts: "Invalid or expired token" (`src/core/deps.py:58`) and "User not found" (`src/core/deps.py:66`). Only the status is the same.
- The docstring of `get_current_user` (`src/core/deps.py:41`) promises 401 for a missing token. The `HTTPBearer` extractor (`src/core/deps.py:21`) answers 403 before the function runs, as `tests/test_profile.py:47-56` expects. The model follows the code.
- `UserPublic` has no `bio` field (`src/schemas/user.py:16-28`), although `tests/test_profile.py:43` reads one.
- The profile update does not refuse extra fields itself. It only assigns `name` and `bio`.

## Model

| member | source | states |
|---|---|---|
| `Security.NormalizePassword` | 01-auth-profile-api/src/core/security.py:18-30 | the result is at most 72 UTF-8 bytes; it equals the password exactly when the password is at most 72 bytes; otherwise it is the SHA-256 hex digest of the password's UTF-8 bytes, 64 lower-case hex characters |
| `Security.Sha256Hex` | 01-auth-profile-api/src/core/security.py:29 | the hex digest is 64 lower-case hex characters and so 64 bytes |
| `Security.NormalizeIdempotent` | 01-auth-profile-api/src/core/security.py:26-30 | normalising twice is normalising once |
| `Security.ThresholdIsStrict` | 01-auth-profile-api/src/core/security.py:27 | a 72-byte password is left alone; a 73-byte one is pre-hashed |
| `Security.ThresholdCountsBytes` | 01-auth-profile-api/src/core/security.py:26-27 | 37 copies of 'é' (37 characters, 74 bytes) are pre-hashed |
| `Security.HashPassword` | 01-auth-profile-api/src/core/security.py:33-41 | bcrypt receives the password itself when it is at most 72 bytes, and otherwise the SHA-256 hex digest of its UTF-8 bytes |
| `Security.VerifyPassword` | 01-auth-profile-api/src/core/security.py:44-50 | the verifier is applied to the same normalised input as `hash_password` uses: the password itself up to 72 bytes, its digest above |
| `Security.HashThenVerify` | 01-auth-profile-api/src/core/security.py:33-50 | if the scheme verifies its own hashes, `verify_password(p, hash_password(p))` holds for every password and salt |
| `Security.DigestStandsInForLongPassword` | 01-auth-profile-api/src/core/security.py:26-30 | for a password over 72 bytes, its hex digest is a different string that verifies against the password's hash |
| `UserModel.ParseUuidToString` | 01-auth-profile-api/src/models/user.py:47-56 | parsing `str(uuid)` gives the UUID back |
| `UserModel.UuidToStringInjective` | 01-auth-profile-api/src/models/user.py:47-48 | two UUIDs with the same text form are equal |
| `UserModel.UuidToString` | 01-auth-profile-api/src/models/user.py:48 | `str(uuid)`: 36 characters, dashes exactly at positions 8, 13, 18 and 23, lower-case hex digits elsewhere |
| `UserModel.BindParam` | 01-auth-profile-api/src/models/user.py:41-49 | NULL stays NULL; PostgreSQL gets the value unchanged; on other dialects a UUID becomes its `str()` text form, and text passes through |
| `UserModel.ResultValue` | 01-auth-profile-api/src/models/user.py:51-56 | NULL reads as None; a UUID is returned unchanged; text reads as its parse, and fails exactly when it does not parse |
| `UserModel.GuidRoundTrip` | 01-auth-profile-api/src/models/user.py:41-56 | a UUID bound and read back is itself, on every dialect |
| `UserModel.GuidNullRoundTrip` | 01-auth-profile-api/src/models/user.py:42-53 | NULL maps to NULL in both directions on every dialect |
| `UserRepo.TableInvariant` | 01-auth-profile-api/src/models/user.py:69-104 | primary key, unique email and column lengths; under it, two rows with one email are one row |
| `UserRepo.GetUserByEmail` | 01-auth-profile-api/src/repositories/user_repo.py:15-24 | None exactly when no row has that email; otherwise the one row whose email equals it exactly |
| `UserRepo.GetUserByIdText` | 01-auth-profile-api/src/core/deps.py:62 | finds a row exactly when the text is that row's `str(id)`, and then it is that row |
| `UserRepo.NewUser` | 01-auth-profile-api/src/models/user.py:101-120 | a new row has no bio, and both timestamps are the insert time |
| `UserRepo.InsertError` | 01-auth-profile-api/src/models/user.py:69-104 | an insert is refused exactly when the id is taken, the email is taken or a column is too long |
| `UserRepo.InsertKeepsInvariant` | 01-auth-profile-api/src/repositories/user_repo.py:36-40 | an accepted insert keeps ids keyed, emails unique and lengths in bounds; it adds one row and leaves every other row as it was |
| `UserRepo.EmailLookupAfterInsert` | 01-auth-profile-api/src/repositories/user_repo.py:23-42 | after an insert, the lookup of its email returns the new row |
| `UserRepo.UpdateError` | 01-auth-profile-api/src/services/profile_service.py:38 | a write-back is refused exactly when the row is gone, another row has the email, or a column is too long |
| `UserRepo.Persisted` | 01-auth-profile-api/src/models/user.py:115-120 | the written row carries the new column values; when no column but `updated_at` differs the stored row is kept as it is, and otherwise `updated_at` is the new time |
| `UserRepo.PersistTwice` | 01-auth-profile-api/src/models/user.py:115-120 | writing the same record again changes nothing, not even `updated_at` |
| `UserRepo.UpdateKeepsInvariant` | 01-auth-profile-api/src/services/profile_service.py:38 | an accepted write-back keeps the table invariant and the set of ids |
| `UserRepo.UserStore.CreateUser` | 01-auth-profile-api/src/repositories/user_repo.py:27-42 | succeeds exactly when the id is fresh, the email is free and the row fits; the table then gains exactly that row (given email, hash and name, no bio); on failure it is unchanged |
| `UserRepo.UserStore.UpdateUser` | 01-auth-profile-api/src/services/profile_service.py:38 | writes the persisted row under its id when the write is accepted; otherwise the table is unchanged |
| `Deps.GetCurrentUser` | 01-auth-profile-api/src/core/deps.py:24-69 | a falsy subject (None or "") gives "Invalid or expired token"; a truthy subject naming no row gives "User not found"; both are 401; otherwise the result is the row stored under that id; never 403 |
| `Deps.Authenticate` | 01-auth-profile-api/src/core/deps.py:21-27 | missing bearer credentials (no header, another scheme, or empty credentials) is the 403 outcome, before the chain; otherwise the outcome is the chain's |
| `Deps.RejectedTokenIgnoresStore` | 01-auth-profile-api/src/core/deps.py:54-59 | a token that decodes to no subject is rejected the same way whatever the store holds, so no lookup is made |
| `Deps.IssuedSubjectAuthenticates` | 01-auth-profile-api/src/core/deps.py:62-69 | a subject equal to a stored row's `str(id)` authenticates that row |
| `Deps.UnknownSubjectIsUnauthorized` | 01-auth-profile-api/src/core/deps.py:62-67 | a truthy subject matching no row is 401 "User not found" |
| `Deps.MissingHeaderVersusGarbledToken` | 01-auth-profile-api/tests/test_profile.py:47-71 | no header is 403; a token the decoder rejects is 401 |
| `AuthService.RegisterUser` | 01-auth-profile-api/src/services/auth_service.py:23-43 | a taken email fails with `EmailAlreadyExists` and leaves the table unchanged; on success the table gains exactly the new row, which holds `hash_password(password)`, and the token is issued for `str(id)`; a store failure is passed back and leaves the table unchanged |
| `AuthService.RegisterTwice` | 01-auth-profile-api/tests/test_auth.py:50-78 | registering one email twice: the first call succeeds, and the second fails with the conflict and changes nothing |
| `AuthService.RegisteredUserAuthenticates` | 01-auth-profile-api/src/services/auth_service.py:39-41 | if the decoder returns the subject the token was issued for, the token authenticates the new row |
| `ProfileService.Patched` | 01-auth-profile-api/src/services/profile_service.py:31-35 | a supplied field replaces the old value, and an absent one keeps it; no field but `name` and `bio` differs |
| `ProfileService.PatchIdempotent` | 01-auth-profile-api/src/services/profile_service.py:31-35 | applying an update twice is applying it once |
| `ProfileService.BioCannotBeCleared` | 01-auth-profile-api/src/services/profile_service.py:34-35 | a bio that is set stays set |
| `ProfileService.SingleFieldUpdates` | 01-auth-profile-api/tests/test_profile.py:74-134 | a name-only update changes only the name, and a bio-only update changes only the bio |
| `ProfileService.EmptyUpdateChangesNothing` | 01-auth-profile-api/tests/test_profile.py:184-215 | an empty update leaves the stored row exactly as it was |
| `ProfileService.UpdateTwiceIsUpdateOnce` | 01-auth-profile-api/src/services/profile_service.py:31-38 | sending an update a second time leaves the row as the first request left it |
| `ProfileService.UpdateProfile` | 01-auth-profile-api/src/services/profile_service.py:16-38 | on success, the row under the user's id becomes the patched record, written back, and nothing else changes; the result differs from the user only in `name`, `bio` and `updated_at`; the stored row keeps its id, email, password hash and `created_at`; on failure the table is unchanged |
| `Schemas.ValidateRegisterRequest` | 01-auth-profile-api/src/schemas/user.py:31-43 | accepted exactly when `EmailStr` accepts the email, the password has 6 to 64 characters and the name 2 to 120; the request then carries the address as `EmailStr` rewrote it; each failing field is reported |
| `Schemas.ShortPasswordRejected` | 01-auth-profile-api/tests/test_auth.py:100-116 | the password "123" is rejected, and the error names the password field |
| `Schemas.ValidNameFitsColumn` | 01-auth-profile-api/src/schemas/user.py:43 | a valid name fits the 120-character `name` column |
| `Schemas.ValidAsciiPasswordNotPrehashed` | 01-auth-profile-api/src/schemas/user.py:42 | a valid ASCII password is never pre-hashed |
| `Schemas.ValidPasswordMayBePrehashed` | 01-auth-profile-api/src/schemas/user.py:42 | a valid password can still be over 72 bytes and be pre-hashed |
| `Schemas.ToPublic` | 01-auth-profile-api/src/schemas/user.py:16-28 | the public view carries the user's id, email, name and both timestamps |
| `Schemas.PublicViewHidesHash` | 01-auth-profile-api/src/schemas/user.py:16-28 | the public view does not depend on the password hash (or on the bio) |
| `Schemas.NewRegisterResponse` | 01-auth-profile-api/src/schemas/user.py:46-56 | `token_type` is "bearer", and the response carries the token and the public view |

## Left out

- Token issuing and decoding (`src/core/tokens.py`, `decode_access_token`): JWT signing and wall-clock expiry are foreign. They are the parameters `issueToken` and `decode`.
- bcrypt, the bcrypt-SHA256 scheme and SHA-256: foreign. They are uninterpreted functions. Nothing is proved about salts, collisions or constant-time comparison.
- `Security.VerifyPassword`: the verifier is total in the model and always returns a bool. passlib's `CryptContext.verify` raises `ValueError` for a stored hash it cannot identify or parse; that error path is not modelled.
- Login (`login_user`, `InvalidCredentials`), `update_user`, `get_user_by_id`, `UpdateProfileRequest` and `user_to_public`: these are used by the core but not defined in the files shown.
  - `update_user` is modelled only as "write this record back" (`UserStore.UpdateUser`).
  - `get_user_by_id` is modelled as exact match of the id's text form (`GetUserByIdText`). That is what the CHAR(36) column does on non-PostgreSQL dialects. PostgreSQL's more lenient text-to-uuid cast is not modelled.
  - `UpdateProfileRequest` is reduced to its two optional fields. Its length limits are not shown, so they are not modelled.
- Email format validation (`EmailStr`): foreign. It is the parameter `emailStr`, which rejects an address (None) or gives the address pydantic keeps.
- `UserModel.ParseUuid`: the model accepts dashes plus exactly 32 hex digits. Python's `uuid.UUID` also strips `urn:`, `uuid:` and braces, and its `int()` call also takes signs, whitespace, underscores and a `0x` prefix. The model rejects those forms. The column's own bind output never produces them.
- `Utf8.Encode`: Python fails to encode lone surrogates. Dafny characters cannot be surrogates, so that error path does not exist in the model.
- `UserModel.FitsColumns`: the length limits are modelled as the database enforcing them, as PostgreSQL does. SQLite, which the tests use, does not enforce them.
- `UserRepo.InsertError`: when several constraints fail at once, the database's error order is unknown. The model reports id, then email, then length.
- `ProfileService.UpdateProfile`: it requires `user` to be the stored row whenever that row exists, as it is when `get_current_user` loaded it in the same session. A stale object from another session is not modelled.
- `ProfileService.UpdateProfile`: the ORM object is updated in place and shared with the caller. The model uses a record value that the method returns, so aliasing of that object is not captured.
- `UserRepo.Persisted`: the value of `updated_at` after a write comes from SQLAlchemy's flush. An UPDATE, and so the `onupdate` stamp, is issued only when a column value changed.
- `AuthService.RegisterUser`: hashing has no observable side effect here. The order in its docstring (`src/services/auth_service.py:28-31`: check the email, then hash) is therefore shown only as "a taken email fails whatever the scheme and salt". The raw password could equal its stored hash only if the foreign hash were the identity; the model states that the stored value is `hash_password(password)`.
- The race between two concurrent registrations of one email is out of scope: there is no concurrency. In the model, an insert that meets a taken email fails with `DuplicateEmail`, surfaced as `StoreFailure`.
- HTTP routes, status mapping beyond the authenticator, sessions, configuration, startup and the reset script are not modelled.
