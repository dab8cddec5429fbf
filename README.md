# Tactica authentication core, modelled in Dafny

This project models the authentication service of the Tactica API and the two
stores it drives. The service does three things:

- **Register** refuses an email that is already taken. Otherwise it stores a
  new user with the hashed password and issues an access token and a refresh
  token.
- **Login** re-hashes the supplied password and compares it with the stored
  hash. A missing user and a wrong password give the same error.
- **Refresh** rotates a refresh token. It finds the first non-revoked record
  with exactly that string and refuses it if it has expired. Otherwise it
  revokes the record and issues a new pair for the same user.

All three issue refresh tokens through one rotation helper. The helper saves
an unrevoked record for the user that expires seven days after "now".

Layout, one module per file:

- `Models.dfy` (`Models`): the `User` and `RefreshToken` records, the
  `AuthResponse` envelope, the three failures with their fixed messages, and
  `Option`/`Result`.
- `UserRepository.dfy` (`UserStore`): the user store as a `UserRepository`
  class over a `seq<User>`. `FirstByEmail` is the pure first-match lookup.
- `RefreshTokenRepository.dfy` (`RefreshTokenStore`): the refresh-token store
  as a `RefreshTokenRepository` class over a `seq<RefreshToken>`.
  `FirstActive` is the pure lookup by exact string among non-revoked records.
  `Revoked` flips one record's flag, and `Saved` appends a record.
- `AuthSpec.dfy` (`AuthSpec`): what each operation returns and what both stores
  hold afterwards, as functions over a `Stores` value.
- `AuthService.dfy` (`Auth`): the `AuthService` class. It has the two
  repositories, the password hasher and the token issuer as fields. Each of its
  methods runs the source's steps in the source's order and is proved to
  produce exactly the outcome the matching `AuthSpec` function gives.
- `AuthProperties.dfy` (`AuthProperties`): properties that relate several
  calls, such as register-then-login, unique emails, and single use of a
  refresh token.

Collaborators and the environment:

- The password hasher (`Hash`) and the access-token issuer (`GenerateToken`)
  are deterministic but otherwise unknown. They are injected as
  function-valued fields. The issuer is given the user and the current time,
  since the token's expiry claim depends on the clock.
- The random refresh-token string (`GenerateSecureRefreshToken`) is a
  per-call parameter `minted`.
- The clock (`DateTime.UtcNow`) is a per-call parameter `now`, an integer
  number of seconds. Seven days is `RefreshTokenLifetime` = 604800.

Points of the code worth knowing:

- The expiry test is strict, `ExpiresAt < now`, so a token whose expiry
  equals `now` is accepted (`AuthService.cs:85`).
- Neither store enforces email uniqueness. It follows only from Register's
  lookup (`AuthService.cs:38-50`), and that is what
  `RegisterKeepsEmailsUnique` proves.
- `IAuthService` does not declare refresh, `ITokenService` does not declare
  `GenerateSecureRefreshToken`, and the refresh-token repository is never
  registered for dependency injection. The model follows the calls
  `AuthService` actually makes.

## Model

| member | source | states |
|---|---|---|
| `UserStore.FirstByEmail` | Tactica.API/Repositories/UserRepository.cs:20-22 | returns the position of the first user whose email equals the query exactly, and None iff no user has that email |
| `UserStore.Added` | Tactica.API/Repositories/UserRepository.cs:26-30 | the user store after an insertion: existing users unchanged, one user appended with the given email and hash and the next store-assigned id; keeps ids assigned in order |
| `UserStore.FirstByEmailAfterAdd` | Tactica.API/Repositories/UserRepository.cs:20-29 | after an insertion, an earlier match is still returned unchanged; with no earlier match the lookup returns the new user exactly when its email is the query, and None otherwise |
| `UserStore.FoundAfterAdd` | Tactica.API/Repositories/UserRepository.cs:20-29 | after adding a user, looking up its email succeeds; when no earlier user had that email, the lookup returns the added user itself |
| `UserStore.AddKeepsEmailsUnique` | Tactica.API/Services/AuthService.cs:38-50 | adding a user whose email is not taken keeps "at most one user per email" |
| `UserStore.UserRepository.constructor` | Tactica.API/Repositories/UserRepository.cs:12-15 | a new repository starts as an empty, valid store |
| `UserStore.UserRepository.GetByEmail` | Tactica.API/Repositories/UserRepository.cs:18-23 | returns a user iff one has exactly that email, and that user is the first match in store order |
| `UserStore.UserRepository.AddUser` | Tactica.API/Repositories/UserRepository.cs:26-30 | appends the user with the next store-assigned id and leaves every existing user unchanged |
| `RefreshTokenStore.FirstActive` | Tactica.API/Repositories/RefreshTokenRepository.cs:27-29 | returns the first record whose token equals the query and that is not revoked; None iff every record with that string is revoked or there is none |
| `RefreshTokenStore.Saved` | Tactica.API/Repositories/RefreshTokenRepository.cs:18-22 | the store after saving: existing records unchanged, exactly one record appended with the next store-assigned id; keeps ids assigned in order |
| `RefreshTokenStore.Revoked` | Tactica.API/Repositories/RefreshTokenRepository.cs:33-37 | the store after revoking position i: same length, that record revoked with every other field unchanged, every other record unchanged |
| `RefreshTokenStore.RevokedNotFound` | Tactica.API/Repositories/RefreshTokenRepository.cs:29-35 | after a record is revoked, no lookup returns it |
| `RefreshTokenStore.RevokeIdempotent` | Tactica.API/Repositories/RefreshTokenRepository.cs:35 | revoking an already revoked record leaves the store unchanged |
| `RefreshTokenStore.FirstActiveAfterSave` | Tactica.API/Repositories/RefreshTokenRepository.cs:18-29 | saving never changes an existing match, and the saved record is found only when nothing earlier matches and it is unrevoked |
| `RefreshTokenStore.RevokeFoundClearsToken` | Tactica.API/Repositories/RefreshTokenRepository.cs:25-37 | when usable strings are unique, revoking the record a lookup found leaves no usable record with that string |
| `RefreshTokenStore.SaveKeepsActiveUnique` | Tactica.API/Repositories/RefreshTokenRepository.cs:18-22 | saving a record whose string is new keeps usable token strings unique |
| `RefreshTokenStore.RevokeKeepsActiveUnique` | Tactica.API/Repositories/RefreshTokenRepository.cs:33-37 | revoking never makes two usable records share a string |
| `RefreshTokenStore.RefreshTokenRepository.constructor` | Tactica.API/Repositories/RefreshTokenRepository.cs:12-15 | a new repository starts as an empty, valid store |
| `RefreshTokenStore.RefreshTokenRepository.Save` | Tactica.API/Repositories/RefreshTokenRepository.cs:18-22 | appends exactly one record, with the next store-assigned id, and leaves existing records unchanged |
| `RefreshTokenStore.RefreshTokenRepository.GetByToken` | Tactica.API/Repositories/RefreshTokenRepository.cs:25-30 | returns a record only if its token equals the query and it is not revoked, the first such in store order; otherwise None |
| `RefreshTokenStore.RefreshTokenRepository.Revoke` | Tactica.API/Repositories/RefreshTokenRepository.cs:33-37 | sets the record's revoked flag and changes no other field and no other record; no-op on a revoked record; the record is no longer found afterwards |
| `AuthSpec.Owner` | Tactica.API/Repositories/RefreshTokenRepository.cs:28 | the user loaded with a refresh record is a stored user whose id is the record's owner id |
| `AuthSpec.NewRefreshToken` | Tactica.API/Services/AuthService.cs:109-117 | the record the rotation helper builds carries the generated string, the user's id, IsRevoked = false and ExpiresAt = now + 7 days |
| `AuthSpec.IssueRefreshToken` | Tactica.API/Services/AuthService.cs:107-121 | the rotation helper's effect: users unchanged, exactly one record appended with the next id, the generated string, the user's id, unrevoked, expiring now + 7 days; a string not in use is then found at that record |
| `Models.AuthError.Message` | Tactica.API/Services/AuthService.cs:36-86 | each error carries its fixed message ("Email already in use.", "Invalid credentials.", "Invalid or expired refresh token."), and the message determines the error |
| `AuthSpec.Register` | Tactica.API/Services/AuthService.cs:36-61 | fails with EmailAlreadyInUse iff the email is taken, and then changes nothing; on success adds exactly one user (request email, Hash(password), next id), returns the request email, GenerateToken(new user, now) and the new refresh string, and saves one record for the new user expiring now + 7 days, unrevoked; keeps store consistency |
| `AuthSpec.Login` | Tactica.API/Services/AuthService.cs:64-79 | succeeds iff a user has that email and Hash(password) equals the first such user's stored hash; a missing user and a wrong password both give InvalidCredentials and change nothing; success returns the request email and GenerateToken(user, now), leaves users unchanged and saves one record for that user expiring now + 7 days |
| `AuthSpec.Refresh` | Tactica.API/Services/AuthService.cs:82-99 | succeeds iff there is a non-revoked record with exactly that string and the FIRST such record's expiry is not before now (strict); fails with InvalidOrExpiredToken and changes nothing otherwise; success revokes that record, changes no other record, appends one unrevoked record for its owner expiring now + 7 days, and returns the owner's email and GenerateToken(owner, now) |
| `Auth.AuthService.constructor` | Tactica.API/Services/AuthService.cs:22-33 | stores the injected repositories, hasher and token issuer; starts valid when the given stores are consistent |
| `Auth.AuthService.Register` | Tactica.API/Services/AuthService.cs:36-61 | returns the result and leaves both stores exactly as `AuthSpec.Register` gives; keeps store consistency |
| `Auth.AuthService.Login` | Tactica.API/Services/AuthService.cs:64-79 | returns the result and leaves both stores exactly as `AuthSpec.Login` gives; keeps store consistency |
| `Auth.AuthService.RefreshToken` | Tactica.API/Services/AuthService.cs:82-99 | revokes before minting, and returns the result and leaves both stores exactly as `AuthSpec.Refresh` gives; keeps store consistency |
| `Auth.AuthService.GenerateRefreshToken` | Tactica.API/Services/AuthService.cs:107-121 | saves exactly one record with Token = the returned string, UserId = user.Id, IsRevoked = false, ExpiresAt = now + 7 days |
| `AuthProperties.RegisterKeepsEmailsUnique` | Tactica.API/Services/AuthService.cs:38-50 | register preserves "at most one user per email", and the email is taken afterwards |
| `AuthProperties.RegisterTwiceFails` | Tactica.API/Services/AuthService.cs:38-40 | registering the same email a second time fails with EmailAlreadyInUse and changes nothing |
| `AuthProperties.RegisterThenLogin` | Tactica.API/Services/AuthService.cs:42-78 | after a successful registration, login with the same credentials succeeds with the request email and GenerateToken(new user, login time) |
| `AuthProperties.RegisterThenWrongPassword` | Tactica.API/Services/AuthService.cs:66-68 | after registration, login with a password whose hash differs fails with InvalidCredentials and changes nothing |
| `AuthProperties.RegisterKeepsActiveUnique` | Tactica.API/Services/AuthService.cs:107-120 | with a fresh random string, register keeps usable refresh-token strings unique |
| `AuthProperties.LoginKeepsActiveUnique` | Tactica.API/Services/AuthService.cs:107-120 | with a fresh random string, login keeps usable refresh-token strings unique |
| `AuthProperties.RefreshKeepsActiveUnique` | Tactica.API/Services/AuthService.cs:88-91 | with a fresh random string, refresh keeps usable refresh-token strings unique |
| `AuthProperties.RefreshIsSingleUse` | Tactica.API/Services/AuthService.cs:84-91 | after a successful refresh, the new string differs from the presented one, no usable record carries the presented string, and replaying it fails with InvalidOrExpiredToken and changes nothing |
| `AuthProperties.RefreshExpiryIsStrict` | Tactica.API/Services/AuthService.cs:85 | a found record whose expiry is before now is refused and nothing changes; one whose expiry equals now is accepted |
| `AuthProperties.Session` | Tactica.API/Services/AuthService.cs:36-99 | from empty stores: register, log in, fail with a wrong password, refresh with the registration's string, then fail to replay that string |

## Left out

- Asynchronous execution, Entity Framework and the database are left out. Each operation is one sequential step over in-memory sequences. So the race between lookup (`RefreshTokenRepository.cs:25-30`) and revoke (`:33-37`) under concurrent refreshes is not modelled, and neither is the uniqueness guarantee under concurrent registrations.
- Store identifiers are modelled as auto-increment values equal to position + 1. Database identity columns may leave gaps.
- Store and infrastructure failures (connection errors, constraint violations) that the service lets propagate are not modelled.
- `GetByToken` returns the record's position in the store, which is the model's handle to the tracked entity that `Revoke` mutates. The eagerly loaded `User` navigation is modelled by `AuthSpec.Owner`, which looks the owner up by id. Store consistency (every record's owner exists) is assumed as the database's foreign-key guarantee and is preserved by every operation.
- Password hashing (SHA-256 and Base64) is an injected deterministic function. Its collision resistance is not provable and is not assumed, except where `RegisterThenWrongPassword` and `Session` take "the two hashes differ" as a hypothesis.
- JWT construction and signing is an injected function of the user and the current time. Issuer, audience, signing key and lifetime come from configuration and are folded into that function.
- The random refresh-token string is a parameter. That it is new to the store cannot be proved, so it is a hypothesis (`Unused`) of the lemmas that need it.
- The source reads `DateTime.UtcNow` twice, once for the expiry test (`AuthService.cs:85`) and once for the new expiry (`:115`). The model uses one `now` for both. `DateTime` overflow in `AddDays(7)` is not modelled.
- RefreshIsSingleUse: holds only when usable token strings are unique and the new random string is unused. Neither store enforces this, and the `*KeepsActiveUnique` lemmas show the three operations preserve it under the freshness hypothesis.
- The HTTP controller, dependency-injection wiring, the database context and JWT settings binding are transport and configuration plumbing, and are not modelled.
