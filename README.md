# Anonymous-user identity layer (owncast `core/user`)

This project models the identity layer of owncast's chat: the two in-memory user caches of
`core/user/cache.go` and the service functions of `core/user/user.go` that register anonymous
users, resolve them by id or by access token, and write rows to the users table.

- `UserRecord` — the `User` record. The display colour is an opaque float64 bit pattern and
  timestamps are opaque instants; `ZeroTime` and `ZeroHue` stand for Go's zero values.
- `UserCache` — class `Cache`, holding the two package-level maps (`idCache`, `tokenCache`) with their
  getters (functions that read the object) and setters (methods that rebind one key).
- `UserStore` — class `Store`, the committed rows of the users table in insertion order. A
  single-row query (`QueryRow`) is `Select`, the first row whose id or token column matches.
- `Users` — `CreateAnonymousUser`, `Create`, `Disable`, `GetUserById`, `GetUserByToken` and
  `UserFromRow` (Go's `getUserFromRow`), with lemmas that relate them.

Inputs the code takes from elsewhere are parameters. These are the generated id, the
token-generator result, the generated name and colour, and the disable timestamp. The
outcomes of the driver's begin, prepare, exec, commit and row-scan steps are booleans.

Facts about the code that the model keeps as they are:
- A store hit on lookup does not populate any cache.
- A store hit returns a user with only `Id` set, because `getUserFromRow` scans the id alone.
  `ColdLookupReturnsIdOnly` and `TokenStoreHitDropsToken` state the consequence.
- Registration fills the two caches and never writes the users table.
- `Disable` does not change the table (see Findings).

## Model

| member | source | states |
|---|---|---|
| `UserCache.Cache.constructor` | core/user/cache.go:3-4 | both caches start empty |
| `UserCache.Cache.GetCachedIdUser` | core/user/cache.go:6-8 | present exactly when the id was set, and then the user set for it; absent (nil) for an id never set; reads only |
| `UserCache.Cache.SetCachedIdUser` | core/user/cache.go:10-12 | the id map is the old one with that key rebound, so a later get returns this user and a second set of the key replaces the first; every other id and the whole token map are unchanged |
| `UserCache.Cache.GetCachedAccessTokenUser` | core/user/cache.go:14-16 | present exactly when the token was set, and then the user set for it; absent for a token never set; reads only |
| `UserCache.Cache.SetCachedAccessTokenUser` | core/user/cache.go:18-20 | the token map is the old one with that key rebound (read-after-write, last write wins); every other token and the whole id map are unchanged |
| `UserStore.FirstIndex` | core/user/user.go:121-123 | the position of the first row with the key, with no earlier row matching, or the table length when no row matches |
| `UserStore.Select` | core/user/user.go:132-134 | a single-row query finds a row exactly when some row has the key, and the row it returns is in the table and carries the key |
| `UserStore.SelectUnique` | core/user/user.go:36-37 | with the id column a primary key, querying a row's own id returns that row |
| `UserStore.SelectAppend` | core/user/user.go:88-93 | adding a row changes no answer the table already gave; a key found only in the new row yields the new row |
| `UserStore.InsertFresh` | core/user/user.go:88-93 | inserting a row with a new id makes that id resolve to it, leaves every other id's answer alone and keeps the id column unique |
| `Users.CreateAnonymousUser` | core/user/user.go:55-77 | on token failure it returns the generator's error, no user, and both caches unchanged; on success the user carries the generated id, token, name and colour, zero `CreatedAt` and nil `DisabledAt`, is stored under its id and under its token, and caches stay keyed by their own users; the table is not touched |
| `Users.Create` | core/user/user.go:79-94 | a failed begin, prepare or exec, or a duplicate id, aborts with the table unchanged; otherwise the commit decides, and only a successful commit appends the user's row with nil `DisabledAt`, after which its id resolves to that row and other ids resolve as before |
| `Users.Disable` | core/user/user.go:96-113 | a failed begin or prepare aborts; otherwise nil is returned whatever the update did; the table is never changed; no cache is involved |
| `Users.DisableMissesIntendedUpdate` | core/user/user.go:103-104 | for a table with unique ids and an active row, the intended update (`MarkDisabled`) gives a different table, while the unchanged table that `Disable` leaves behind still reads that user back with no disable timestamp |
| `Users.DisableIntended` | core/user/user.go:103 | the corrected disable: aborts on begin/prepare/exec failure, and after a successful commit the table is the old one with the user's rows marked disabled at the given time |
| `UserStore.MarkDisabled` | core/user/user.go:103 | marking keeps the table's length, gives matching rows the timestamp with every other field kept, and leaves other rows untouched |
| `UserStore.MarkDisabledFindsUser` | core/user/user.go:103 | after marking, the user's id resolves to the same user with only `DisabledAt` set (soft delete keeps name and colour), and ids stay unique |
| `UserStore.MarkDisabledKeepsOthers` | core/user/user.go:103 | marking one id leaves the lookup of every other id as it was |
| `Users.UserFromRow` | core/user/user.go:137-146 | None exactly when there is no row or the scan fails; otherwise a user with the row's id and every other field at its zero value |
| `Users.GetUserByToken` | core/user/user.go:116-124 | a token-cache hit returns the cached user, which carries that token when the caches are self-keyed; on a miss the result is present exactly when the scan succeeds and some row has the token, and it is then that row's id with every other field zero |
| `Users.GetUserById` | core/user/user.go:127-135 | an id-cache hit returns the cached user; on a miss the result is present exactly when the scan succeeds and a row has the id, and it then carries that id with every other field zero; with self-keyed caches a hit carries the requested id too |
| `Users.IdCacheHitSkipsStore` | core/user/user.go:128-130 | on an id-cache hit the lookup by id gives the same answer whatever the table holds and however the scan would end |
| `Users.TokenCacheHitSkipsStore` | core/user/user.go:117-119 | on a token-cache hit the lookup by token gives the same answer whatever the table holds and however the scan would end |
| `Users.RegisteredUserResolves` | core/user/user.go:73-76 | a user placed in both caches by registration is returned by id and by token without the table |
| `Users.ColdLookupReturnsIdOnly` | core/user/user.go:143-145 | a lookup by id that misses the cache and finds a row returns the row's id alone, not its stored name, colour, token or timestamps |
| `Users.TokenStoreHitDropsToken` | core/user/user.go:143-145 | a lookup by a non-empty token that misses the cache and finds a row returns a user whose access token is not that token |

## Left out

- `SetupUsers` and `createUsersTable`: database setup and DDL execution with logging only.
- The SQL text and the driver are not modelled; the users table is its list of committed rows.
  Outside the model: the `INSERT` names columns the DDL does not declare; the token query names
  `accessToken` where the DDL has `access_token`; `SELECT *` is scanned into one destination.
  A real driver would fail on each of these. The model takes the prepare and scan outcomes as inputs.
- The generators (`shortid.MustGenerate`, `utils.GenerateAccessToken`, `utils.GeneratePhrase`,
  `randomcolor`) and `time.Now`: their outputs are parameters. `MustGenerate` panicking is not modelled.
- `DisplayColor` is kept as the bits of a float64; no floating-point arithmetic is modelled.
- `log.Fatal` and `panic` become the `Aborted` outcome, a nil error is `NilError`, with the table unchanged, not process termination.
- Pointers: both caches hold the same `*User`, and callers receive that pointer. Nothing in the
  package mutates a `User` after it is built, so the model holds `User` values instead.
  The caches never store nil, because no caller passes nil.
- Concurrency: the maps are unsynchronised package globals; the model is sequential.
- Transactions left open by `Disable` (never committed nor rolled back) and the statements' `Close`.
- The HTTP controller in `controllers/chat.go` and the web UI are not part of this model.

## Findings

| source | as written | input that shows it | evidently intended | confidence | as-written member | corrected member |
|---|---|---|---|---|---|---|
| core/user/user.go:103-112 | the update binds the user's id to `disabled_at` and the current time to the id test, and the transaction is never committed, yet `nil` is returned | any user `u` whose row is in the table with `disabled_at` NULL: after `Disable(u)` returns nil, the row still has no disable timestamp | set `disabled_at` to the current time on the row with `u`'s id and commit | high; not executed | `Users.DisableMissesIntendedUpdate` | `Users.DisableIntended` |
