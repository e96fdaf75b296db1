# WeatherWise authentication and favourites — a Dafny model

This project models the stateful core of the WeatherWise API backend:

- the **refresh-token ledger** and the **authentication service** around it
  (register, login, logout, current user, refresh-token rotation, explicit
  revocation, and the claim set and expiry of the access token);
- the **favourite-locations table** and its service (list newest first,
  idempotent add, remove, membership test);
- the **schema constraints** of the database context: primary keys, the
  unique bearer string, the unique (UserId, LocationName) pair, the foreign
  keys to the user table and their cascade delete.

The database context is a class, `ApplicationDb.Database`, owning three
tables as sequences of rows (`users`, `refreshTokens`, `favoriteLocations`).
Its `Valid()` predicate is the conjunction of the schema's constraints, plus
two the identity store adds (unique user ids, unique e-mails) and one the
service keeps (a record's `RevokedAt` and `ReasonRevoked` are set together,
and `ReplacedByToken` only on a revoked record). `Auth.AuthService` and
`Favorites.FavoritesService` are classes holding the context, as the
services hold theirs; every state-changing method keeps `Valid()` and states
its whole new state in terms of the old one.

A refresh token's status is derived, never stored: `IsExpired(t, now)` is
`now >= ExpiresAt`, `IsRevoked(t)` is `RevokedAt` being set, and
`IsActive(t, now)` is neither (`RefreshTokens` module). Each operation
reads the clock once, as its `now` parameter, in whole seconds.

The values the code draws from the environment are parameters: the new user
id, the new token record id and the new bearer string (required to be
fresh, as the primary key and the unique index demand), the access token's
unique id (`jti`), and the outcome of the identity store's account creation
(`creationFailure`, `None` for success). The signed JWT is represented by
its content, `Jwt.AccessToken`: issuer, audience, claims and expiry.

Every write the authentication service makes to the token table follows
one discipline, `TokenLedger.LedgerStep`: no record is deleted, a record is
written only if it is active at the time of the write, and the write only
revokes it; new records are fresh. Every method of `Auth.AuthService` that
writes the table ensures it. From it, `TokenLedger.NeverReactivated` proves
the central invariant over any run of such service calls at non-decreasing
times: once a record is inactive it is never active again and is never
written again, so its revocation fields are set at most once. The schema's
cascade (`ApplicationDb.Database.DeleteUser`) deletes the records of the
deleted user, so it falls outside this discipline and outside
`NeverReactivated`. Only `Refresh` writes `ReplacedByToken`; the other methods
ensure `KeepsReplacements`.

The `Scenarios` module composes calls and proves, from the contracts alone,
that a rotated token cannot be refreshed again, that a second revocation
answers false, that no token of a user survives logout, that a newly
registered token resolves to an active record of the new user, and that a
favourite is present right after it is added and absent right after it is
removed.

Rotation is not atomic in the code: `GenerateRefreshTokenAsync` saves
(AuthService.cs:275) before the old record's `ReplacedByToken` is saved
(AuthService.cs:197). The model follows the code's sequence of writes and
treats each call as one sequential step; it makes no atomicity claim.

## Model

| member | source | states |
|---|---|---|
| Tables.FirstIndex | src/WeatherWise.Infrastructure/Services/AuthService.cs:174-176 | the generic first-match lookup: a found position satisfies the condition and no earlier one does, and none is found exactly when no row satisfies it |
| Tables.Filter | src/WeatherWise.Infrastructure/Services/FavoritesService.cs:20-21 | the generic row filter: it keeps exactly the rows satisfying the condition, each with its multiplicity, and never grows the table |
| RefreshTokens.IsExpired | src/WeatherWise.Domain/Entities/RefreshToken.cs:13 | definition: expired at `now` when `now >= ExpiresAt` |
| RefreshTokens.IsRevoked | src/WeatherWise.Domain/Entities/RefreshToken.cs:14 | definition: revoked when `RevokedAt` is set |
| RefreshTokens.IsActive | src/WeatherWise.Domain/Entities/RefreshToken.cs:15 | definition: active when neither revoked nor expired |
| RefreshTokens.Revoke | src/WeatherWise.Infrastructure/Services/AuthService.cs:220-221 | definition: the record with `RevokedAt = now` and `ReasonRevoked = reason`, other fields unchanged (the same pair of writes as lines 145-146 and 189-190) |
| RefreshTokens.NewRefreshToken | src/WeatherWise.Domain/Entities/RefreshToken.cs:5-12 | a new record carries the given id, bearer string and owner, CreatedAt = now, ExpiresAt = CreatedAt + 7 days, no revocation fields, and is active at now |
| RefreshTokens.NewRefreshTokenActiveUntilExpiry | src/WeatherWise.Domain/Entities/RefreshToken.cs:10-15 | a new record is active at a time exactly when that time is before now + 7 days |
| RefreshTokens.ExpiryIsMonotone | src/WeatherWise.Domain/Entities/RefreshToken.cs:13 | a record expired at one time is expired at every later time |
| RefreshTokens.InactiveStaysInactive | src/WeatherWise.Domain/Entities/RefreshToken.cs:13-15 | without a field write, a record inactive at one time is inactive at every later time |
| RefreshTokens.RevokedIsNeverActive | src/WeatherWise.Domain/Entities/RefreshToken.cs:14-15 | a revoked record is revoked and inactive at every time |
| UserStore.FindById | src/WeatherWise.Infrastructure/Services/AuthService.cs:135-136 | finds a position holding the id, and finds none exactly when no user has that id |
| UserStore.FindByEmail | src/WeatherWise.Infrastructure/Services/AuthService.cs:43-44 | finds a position holding the e-mail, and finds none exactly when no user has that e-mail |
| UserStore.FindByEmailDecidesCredentials | src/WeatherWise.Infrastructure/Services/AuthService.cs:95-105 | with unique e-mails, some user has this e-mail and password exactly when the user found by e-mail has this password |
| UserStore.CheckPassword | src/WeatherWise.Infrastructure/Services/AuthService.cs:101 | definition: the stored credential equals the presented password |
| TokenLedger.IndexOfToken | src/WeatherWise.Infrastructure/Services/AuthService.cs:174-176 | the lookup by bearer string returns the first matching record, and none exactly when no record carries the string |
| TokenLedger.Rotate | src/WeatherWise.Infrastructure/Services/AuthService.cs:189-196 | definition: the presented record revoked at `now` with "Refreshed" and its `ReplacedByToken` set to the successor's string |
| TokenLedger.SweepOne | src/WeatherWise.Infrastructure/Services/AuthService.cs:139-147 | definition: a record of the user that is active at `now` is revoked with "Logged out"; any other record is left as it is |
| TokenLedger.LogoutSweep | src/WeatherWise.Infrastructure/Services/AuthService.cs:139-147 | definition: `SweepOne` applied to every record, in table order |
| TokenLedger.LedgerWellFormed | src/WeatherWise.Infrastructure/Data/ApplicationDbContext.cs:35-37 | definition: ids unique, bearer strings unique, and on every record `RevokedAt` and `ReasonRevoked` set together, `ReplacedByToken` only on a revoked record |
| TokenLedger.LogoutSweepAt | src/WeatherWise.Infrastructure/Services/AuthService.cs:139-147 | logout keeps the table's length and treats each record on its own |
| TokenLedger.LogoutSweepRevokesExactlyTheActive | src/WeatherWise.Infrastructure/Services/AuthService.cs:139-147 | after logout no record of the user is active; each record of the user that was active is revoked at now with "Logged out"; all other records are unchanged |
| TokenLedger.LogoutSweepIsLedgerStep | src/WeatherWise.Infrastructure/Services/AuthService.cs:139-147 | the logout sweep follows the ledger discipline and writes no ReplacedByToken |
| TokenLedger.LogoutSweepKeepsKeys | src/WeatherWise.Infrastructure/Services/AuthService.cs:139-147 | logout keeps the table's length and every record's id and bearer string, so an id and string unused before stay unused |
| TokenLedger.SweptTokenIsDead | src/WeatherWise.Infrastructure/Services/AuthService.cs:139-147 | after the owner's logout, a bearer string still resolves to the same record, and that record is inactive then and at every later time |
| TokenLedger.LedgerStepKeepsInactive | src/WeatherWise.Infrastructure/Services/AuthService.cs:140 | a write at a later time leaves a record that was inactive untouched and still inactive |
| TokenLedger.NeverReactivated | src/WeatherWise.Infrastructure/Services/AuthService.cs:183-190 | over any run of operations at non-decreasing times, a record once inactive stays inactive and is never written again |
| TokenLedger.AppendKeepsLedgerWellFormed | src/WeatherWise.Infrastructure/Data/ApplicationDbContext.cs:35-37 | appending a record with a fresh id and a fresh bearer string keeps both keys unique |
| TokenLedger.UpdateKeepsLedgerWellFormed | src/WeatherWise.Infrastructure/Data/ApplicationDbContext.cs:35-37 | writing a record's revocation fields keeps both keys unique |
| Jwt.IssueAccessToken | src/WeatherWise.Infrastructure/Services/AuthService.cs:227-260 | the token's sub and e-mail claims carry the e-mail, the name-identifier claim the user id, the name claim the user name, the jti claim the given id, the role claims exactly the user's roles in order; issuer and audience come from configuration; expiry is now + 30 minutes |
| Jwt.RoleClaimValues | src/WeatherWise.Infrastructure/Services/AuthService.cs:241-244 | the role claims carry exactly the roles, one per role, and no claim of another type |
| Jwt.Claims | src/WeatherWise.Infrastructure/Services/AuthService.cs:232-244 | definition: sub (e-mail), jti, name identifier (user id), name (user name), e-mail, then one role claim per role |
| ApplicationDb.UsersExcept | src/WeatherWise.Infrastructure/Data/ApplicationDbContext.cs:39-42 | the remaining users are exactly those with another id |
| ApplicationDb.TokensNotOwnedBy | src/WeatherWise.Infrastructure/Data/ApplicationDbContext.cs:39-42 | the remaining tokens are exactly those of other users |
| ApplicationDb.FavoritesNotOwnedBy | src/WeatherWise.Infrastructure/Data/ApplicationDbContext.cs:53-56 | the remaining favourites are exactly those of other users |
| ApplicationDb.FavoritesWellFormed | src/WeatherWise.Infrastructure/Data/ApplicationDbContext.cs:49-51 | definition: favourite ids unique and (UserId, LocationName) pairs unique |
| ApplicationDb.OwnersExist | src/WeatherWise.Infrastructure/Data/ApplicationDbContext.cs:39-42 | definition: every refresh token's and every favourite's UserId names an existing user (the two foreign keys, lines 39-42 and 53-56) |
| ApplicationDb.Consistent | src/WeatherWise.Infrastructure/Data/ApplicationDbContext.cs:32-56 | definition: the user table's keys, `LedgerWellFormed`, `FavoritesWellFormed` and `OwnersExist` together |
| ApplicationDb.CascadeKeepsConsistent | src/WeatherWise.Infrastructure/Data/ApplicationDbContext.cs:32-56 | deleting a user together with that user's tokens and favourites keeps every key, unique index and foreign key |
| ApplicationDb.AddUserKeepsConsistent | src/WeatherWise.Api/Program.cs:57 | adding a user with a new id and a new e-mail keeps every constraint |
| ApplicationDb.UpdateUserKeepsConsistent | src/WeatherWise.Infrastructure/Services/AuthService.cs:108-109 | rewriting a user's fields other than id and e-mail keeps every constraint |
| ApplicationDb.AddTokenKeepsConsistent | src/WeatherWise.Infrastructure/Data/ApplicationDbContext.cs:35-42 | adding a fresh, coherent record for an existing user keeps every constraint |
| ApplicationDb.UpdateTokenKeepsConsistent | src/WeatherWise.Infrastructure/Data/ApplicationDbContext.cs:35-42 | writing a record's revocation fields, identity unchanged, keeps every constraint |
| ApplicationDb.AddFavoriteKeepsConsistent | src/WeatherWise.Infrastructure/Data/ApplicationDbContext.cs:48-56 | adding a favourite of an existing user, with a new id and a new (UserId, LocationName) pair, keeps every constraint |
| ApplicationDb.RemoveFavoriteKeepsConsistent | src/WeatherWise.Infrastructure/Data/ApplicationDbContext.cs:48-56 | deleting one favourite keeps every constraint |
| ApplicationDb.Database.constructor | src/WeatherWise.Infrastructure/Data/ApplicationDbContext.cs:13-16 | an empty database satisfies every constraint |
| ApplicationDb.Database.DeleteUser | src/WeatherWise.Infrastructure/Data/ApplicationDbContext.cs:39-56 | deleting a user removes exactly that user, that user's tokens and favourites, and keeps every constraint |
| Auth.AuthService.constructor | src/WeatherWise.Infrastructure/Services/AuthService.cs:23-33 | the service holds the given context and JWT settings |
| Auth.NewUser | src/WeatherWise.Infrastructure/Services/AuthService.cs:49-56 | definition: user name and e-mail as given, FirstName = user name, LastName empty, CreatedAt = now, the single role "User", no last login |
| Auth.AuthService.GenerateRefreshToken | src/WeatherWise.Infrastructure/Services/AuthService.cs:262-278 | appends exactly one new record for the user, returns it, and keeps every constraint |
| Auth.AuthService.Register | src/WeatherWise.Infrastructure/Services/AuthService.cs:35-88 | rejects an empty e-mail, password or user name in that order, then a used e-mail, then a failed creation, each with its message and no change; otherwise it succeeds, adds exactly the new user (role "User") and exactly one new token record, and returns the user, the access token and the new bearer string; every write follows the ledger discipline |
| Auth.AuthService.Login | src/WeatherWise.Infrastructure/Services/AuthService.cs:90-131 | rejects an empty e-mail, then an empty password; succeeds exactly when some user has this e-mail and password; an unknown e-mail and a wrong password give the same message and no change; success sets LastLoginAt = now, adds exactly one new token record, and returns the user's access token and the new bearer string |
| Auth.AuthService.Logout | src/WeatherWise.Infrastructure/Services/AuthService.cs:133-151 | returns false with no change for an unknown user; otherwise returns true and the token table becomes the logout sweep (every active record of the user revoked with "Logged out", nothing else changed) |
| Auth.AuthService.LogoutAsWritten | src/WeatherWise.Infrastructure/Services/AuthService.cs:133-141 | logout as written: an unknown user gives false; for an existing user the untranslatable `IsActive` filter makes the call fail, and nothing is written (the method has no write frame) |
| Auth.AuthService.GetCurrentUser | src/WeatherWise.Infrastructure/Services/AuthService.cs:153-170 | fails with "User not found" exactly when no user has the id; otherwise returns that user's id, name, e-mail and a fresh access token; changes nothing |
| Auth.AuthService.Refresh | src/WeatherWise.Infrastructure/Services/AuthService.cs:172-208 | an unknown string fails with "Invalid refresh token", an inactive record with "Refresh token is expired or revoked", both with no change; otherwise succeeds, revokes the presented record with "Refreshed", links it to the new string through ReplacedByToken, adds one new record for the same owner, and returns the owner's access token and the new string |
| Auth.AuthService.RevokeToken | src/WeatherWise.Infrastructure/Services/AuthService.cs:210-225 | returns true exactly when the string names an active record, which is then revoked at now with "Revoked without replacement"; otherwise false and no change |
| Favorites.RowsOf | src/WeatherWise.Infrastructure/Services/FavoritesService.cs:20-21 | the rows kept are exactly the user's |
| Favorites.View | src/WeatherWise.Infrastructure/Services/FavoritesService.cs:23-27 | definition: an entry shows the row's location name and save time |
| Favorites.Views | src/WeatherWise.Infrastructure/Services/FavoritesService.cs:23-27 | definition: entry i is `View` of row i (the `Select` projection) |
| Favorites.InsertNewestFirst | src/WeatherWise.Infrastructure/Services/FavoritesService.cs:22 | inserting gives one more entry: the same entries plus the new one |
| Favorites.InsertKeepsNewestFirst | src/WeatherWise.Infrastructure/Services/FavoritesService.cs:22 | inserting into a newest-first list keeps it newest first, led by the new entry or the old head |
| Favorites.SortNewestFirst | src/WeatherWise.Infrastructure/Services/FavoritesService.cs:22 | the result is ordered by save time, newest first, and is a permutation of the input |
| Favorites.FavoriteList | src/WeatherWise.Infrastructure/Services/FavoritesService.cs:18-34 | the list is newest first and is, as a multiset, exactly the user's rows shown by location name and save time |
| Favorites.IndexOfFavorite | src/WeatherWise.Infrastructure/Services/FavoritesService.cs:38-39 | the lookup on (user, location) finds a matching row, and none exactly when no row matches |
| Favorites.RemovedIsNoLongerFavorite | src/WeatherWise.Infrastructure/Data/ApplicationDbContext.cs:51 | with (UserId, LocationName) unique, removing the matching row leaves no row with that pair |
| Favorites.FavoritesService.constructor | src/WeatherWise.Infrastructure/Services/FavoritesService.cs:13-16 | the service holds the given context |
| Favorites.FavoritesService.GetFavoriteLocations | src/WeatherWise.Infrastructure/Services/FavoritesService.cs:18-34 | returns the user's list, newest first |
| Favorites.FavoritesService.AddToFavorites | src/WeatherWise.Infrastructure/Services/FavoritesService.cs:36-61 | an existing (user, location) pair adds nothing; otherwise exactly one row with the given user, name, coordinates and save time is appended, or, for an unknown user, the foreign key refuses it; success is always true and the returned list is the user's current list |
| Favorites.FavoritesService.RemoveFromFavorites | src/WeatherWise.Infrastructure/Services/FavoritesService.cs:63-86 | success exactly when the pair exists; then exactly that row is deleted, otherwise nothing changes; the pair is absent afterwards; the returned list is the user's current list |
| Favorites.FavoritesService.IsLocationFavorite | src/WeatherWise.Infrastructure/Services/FavoritesService.cs:88-92 | true exactly when a row with that user and location exists |
| Scenarios.LookupAfterRotation | src/WeatherWise.Infrastructure/Services/AuthService.cs:189-196 | after rotation the presented string still resolves to the same record |
| Scenarios.FreshAfterRotation | src/WeatherWise.Infrastructure/Services/AuthService.cs:189-197 | rotating a record and appending another record, neither carrying a given id or string, leaves that id and string unused |
| Scenarios.RegisteredTokenIsLive | src/WeatherWise.Infrastructure/Services/AuthService.cs:69-84 | the refresh token returned by a successful registration resolves to an active record of the new user, expiring 7 days after its creation |
| Scenarios.RefreshReplayIsRejected | src/WeatherWise.Infrastructure/Services/AuthService.cs:183-190 | after a successful refresh, presenting the same string again fails with "Refresh token is expired or revoked" |
| Scenarios.RevokeTwice | src/WeatherWise.Infrastructure/Services/AuthService.cs:215-221 | a second revocation of the same string, no earlier than the first, returns false |
| Scenarios.LogoutThenRefreshFails | src/WeatherWise.Infrastructure/Services/AuthService.cs:139-147 | after the owner logs out, refreshing any of the owner's tokens then or later fails as inactive |
| Scenarios.LogoutAsWrittenLeavesTokenLive | src/WeatherWise.Infrastructure/Services/AuthService.cs:139-141 | with logout as written, a token of an existing user that is active at `now` survives: the logout call fails and refreshing that token at the same `now` succeeds |
| Scenarios.AddThenRemove | src/WeatherWise.Infrastructure/Services/FavoritesService.cs:36-92 | for an existing user, a location is a favourite right after it is added, removal succeeds, and it is not a favourite right after |

## Left out

- Cryptography: the 64 random bytes and their base64 encoding are a fresh-string oracle (`newToken`, required unused); HMAC-SHA256 signing and JWT serialisation are not modelled, an `AccessToken` value stands for the signed string.
- The identity library: password hashing is replaced by comparing a stored credential with the presented password; its user-name and password-policy validators are folded into the `creationFailure` outcome; e-mail normalisation (case-insensitive lookup) is not modelled, e-mails are compared exactly.
- Role storage: roles are a field of the user record; the "User" role that registration assigns is seeded at start-up, so assigning it is taken to succeed.
- JWT configuration: start-up refuses to run without the key, issuer and audience, so the per-call "not configured" errors and the null e-mail or user-name guards of the token builder are not modelled.
- Clock reads: each operation reads the clock once (`now`); `ExpiresIn` in the token response, computed from a second clock read, is not modelled.
- Persistence: each service call is one sequential step; partial saves, transactions, concurrent requests and storage failures are not modelled.
- Logout's query (AuthService.cs:139-141) filters on `rt.IsActive`, a get-only computed property that the object-relational mapper does not map to a column; current versions of the mapper refuse such a member inside a query sent to the database and throw when the list is fetched. Read as written (not executed), logout would then fail for every existing user and revoke nothing. `Auth.AuthService.Logout` models the evidently intended behaviour: each record of the user that is active at `now` is revoked. `Auth.AuthService.LogoutAsWritten` models the code as written; see "## Findings".
- Favourites: the ISO 8601 formatting of `SavedAt` is not modelled (the list carries the instant); records saved at the same instant are listed in table order, which the database leaves unspecified; latitude and longitude are carried as `real` payload and never computed on.
- `ApplicationDb.Database.DeleteUser`: no service deletes users; the method models the cascade the schema declares. It removes token records, so it is not a `LedgerStep`, and `NeverReactivated` says nothing about runs that include it.
- Required string columns (Token, LocationName) are non-null by typing; empty strings are admitted, as the column constraint admits them.
- Weather, map and push-notification services, the controllers, start-up wiring and migrations are not part of this model.

## Findings

| source | as written | input that shows it | evidently intended | confidence | as-written member | corrected member |
|---|---|---|---|---|---|---|
| src/WeatherWise.Infrastructure/Services/AuthService.cs:139-141 | the logout query filters on `rt.IsActive`, a get-only computed property (RefreshToken.cs:15) that the mapper does not map, so fetching the list throws for every existing user and no token is revoked | an existing user owning a token that is active at `now`: after logout, refreshing that token at `now` still succeeds (`Scenarios.LogoutAsWrittenLeavesTokenLive`) | every active token of the user is revoked with "Logged out", so no refresh of them succeeds afterwards (`Scenarios.LogoutThenRefreshFails`) | medium; not executed | Auth.AuthService.LogoutAsWritten | Auth.AuthService.Logout |
