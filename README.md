# Credential lifecycle of the fin-auth service, modelled in Dafny

The service registers API clients, logs them in with a client id and secret, issues
opaque access tokens (one day) and refresh tokens (seven days), and exchanges a refresh
token for a new access token. Tokens live in PostgreSQL. A Redis cache sits in front of
the token and client lookups and also holds four more things:

- a blacklist of logged-out tokens;
- one session record per login;
- per-address rate-limit counters;
- cached client records that last five minutes.

An HTTP filter authenticates bearer tokens. Another filter rate-limits requests by
address. A background worker deletes expired tokens.

The model follows the layers of the Go code:

- `cache.dfy` (module `Cache`): Redis as a map from keys to typed values with optional
  expiry times. Each Redis command is a pure function: HSET, HGETALL, SET, GET, DEL,
  EXISTS, KEYS, INCR and EXPIRE. Each `RedisCache` operation is a pure function of the
  store, composed from those commands. The class `RedisCache` holds the store. Its methods
  are proved equal to those functions.
- `tables.dfy` (module `Tables`): the four tables as sequences of rows. The unique indexes
  are clash predicates. The queries are recursive search functions. The class `Database`
  holds the rows and the auto-increment counters, and has the insert, select and delete
  statements the repository and the worker issue.
- `repo.dfy` (module `AuthRepo`): the cache-aside lookups, as pure functions plus the
  `Auth` repository class. Registering a client is a transaction.
- `service.dfy` (module `AuthService`): registration, login, logout, session listing and
  revocation, token refresh, and device detection.
- `middleware.dfy` (module `Middleware`): the bearer-token filter and the rate-limit filter.
- `worker.dfy` (module `Worker`): one tick of the token cleanup worker.
- `models.dfy`, `dto.dfy`, `validation.dfy`, `utils.dfy`, `helpers.dfy` and `errors.dfy`:
  the records, the request validators and the string, number and error helpers they use.
- `text.dfy`, `strconv.dfy`, `int64.dfy`, `random.dfy` and `wrappers.dfy`: the parts of Go's
  `strings`, `strconv`, `crypto/rand` and int64 arithmetic that the code relies on.

Modelling choices:

- Time is a whole number of seconds, `now`, passed to every operation that reads the clock.
- A Redis key is live while `now` is before its expiry.
- Failures are parameters of the state:
  - a cache carries the set of Redis commands that fail (`failing`);
  - a database carries the set of tables that are unavailable (`unavailable`).
- Inserting a user applies the column defaults gorm leaves to Postgres: a false `is_active`
  is omitted from the insert and becomes true, and an empty description becomes "null".
- Randomness is an `Entropy` object. It holds the bytes `crypto/rand` will hand out, and a
  read longer than what remains fails.

## Model

| member | source | states |
|---|---|---|
| Cache.Lookup | cache/redis.go:58-66 | a key is visible exactly when it is stored and its expiry has not passed |
| Cache.KeyFamiliesDisjoint | cache/redis.go:24-246 | no two of the access, refresh, blacklist, session and client key families collide (all ten pairs), and the access, refresh and blacklist keys each determine their token |
| Cache.HSetHolds | cache/redis.go:37 | HSET on an empty or hash slot succeeds and every written field reads back unchanged while the key lives |
| Cache.CachingExpiredTokenWritesNothing | cache/redis.go:32-35 | caching an access or refresh token whose expiry is not after now leaves the cache untouched and reports no error |
| Cache.AccessRoundTrip | cache/redis.go:23-86 | a cached access token reads back until its expiry with the same client, token, creation and expiry times; the id is not stored and reads as 0 |
| Cache.AccessExpiresAfterDeadline | cache/redis.go:80-83 | a read after the stored expiry time deletes the entry and reports that the token expired |
| Cache.RefreshRoundTrip | cache/redis.go:40-118 | a cached refresh token reads back with the same client, token, access-token id and times; the id reads as 0 |
| Cache.RefreshIdClamped | cache/redis.go:102 | a stored access-token id above 2^32-1 reads back as 2^32-1 |
| Cache.MissingTokenNotFound | cache/redis.go:66-68 | a token with no live entry is reported as not found, with nothing changed |
| Cache.BlacklistHolds | cache/redis.go:122-134 | a blacklisted token reads as blacklisted exactly until its TTL runs out, and other tokens' status is unchanged |
| Cache.DeleteTouchesOnlyAccessKey | cache/redis.go:136-139 | deleting a cached token removes its access key and nothing else |
| Cache.TouchMissingSession | cache/redis.go:169-175 | updating the activity of a missing or unreadable session changes nothing and reports no error |
| Cache.TouchLiveSession | cache/redis.go:169-185 | updating a live session keeps all its fields except the last-activity time, which becomes now; it can be read for exactly the next 24 hours and is gone at the 24-hour mark; no other key changes |
| Cache.ElemsAppend | cache/redis.go:196-208 | collecting one more session adds exactly that session to the set collected |
| Cache.SessionsAmongAdd | cache/redis.go:196-208 | reading one more key adds its session when that key holds a readable session |
| Cache.SessionsAmongKeys | cache/redis.go:187-211 | the sessions read through the listed keys are exactly the live sessions under the client's prefix, or none when GET fails |
| Cache.SessionsOfSnoc | cache/redis.go:195-208 | reading one more key appends the session it holds, or nothing when its read fails or does not decode |
| Cache.SessionsOfCount | cache/redis.go:195-208 | reading distinct keys yields exactly one record per key that holds a readable session |
| Cache.SessionsOfElems | cache/redis.go:195-208 | the records read through a list of keys are the sessions those keys hold |
| Cache.ListedInAnyOrder | cache/redis.go:187-211 | reading each visible key under the prefix once, in any order, yields one record per readable key and exactly the live sessions there |
| Cache.ReadAccessSeesOnlyItsKey | cache/redis.go:58-86 | reading a cached access token depends only on that token's key |
| Cache.RateFirstRequest | cache/redis.go:220-235 | with no counter, the check allows iff max > 0, the count is 0, and the increment creates "1" expiring after the window |
| Cache.RateLaterRequest | cache/redis.go:220-235 | with a counter of n, the check allows iff n < max, the count is n, and the increment stores n+1 and restarts the window |
| Cache.RateCheckFailsOpen | cache/redis.go:221-224 | when the counter cannot be read the check says "allowed" together with the error |
| Cache.ClientRoundTrip | cache/redis.go:245-295 | a cached client reads back for exactly 300 seconds with name, email and the active flag and both secrets; ids and times read as zero, description as empty |
| Cache.ReadClientDecodes | cache/redis.go:264-295 | a live client hash holding the written fields is decoded into the same name, email, active flag and secrets |
| Cache.ClientWithoutExpiryWhenExpireFails | cache/redis.go:256-261 | when EXPIRE fails after HSET the client hash stays cached without expiry and the error is reported |
| Cache.RedisCache.CacheAccessToken | cache/redis.go:23-38 | the token hash is written without an expiry of its own, unless the token has no time left, in which case nothing is written |
| Cache.RedisCache.CacheRefreshToken | cache/redis.go:40-56 | the same for the refresh hash, which also holds the access-token id |
| Cache.RedisCache.GetAccessToken | cache/redis.go:58-86 | the result and new store are those of reading the hash, with not-found, expiry deletion and decoding |
| Cache.RedisCache.GetRefreshToken | cache/redis.go:88-118 | as GetAccessToken, for refresh tokens |
| Cache.RedisCache.BlacklistToken | cache/redis.go:122-125 | the store becomes SET blacklist:token:<t> "1" with the given TTL |
| Cache.RedisCache.IsTokenBlacklisted | cache/redis.go:127-134 | blacklisted iff the blacklist key exists; an EXISTS failure reports false with the error |
| Cache.RedisCache.DeleteTokenFromCache | cache/redis.go:136-139 | the store loses the access-token key |
| Cache.RedisCache.CreateSession | cache/redis.go:143-151 | the store holds the session under session:<client>:<token> for 24 hours |
| Cache.RedisCache.GetSession | cache/redis.go:153-167 | the result is the live session under that key, or the GET error |
| Cache.RedisCache.UpdateLastActivity | cache/redis.go:169-185 | the new store is the session rewritten with last activity now and a fresh 24-hour lifetime |
| Cache.RedisCache.ListSessions | cache/redis.go:187-211 | a KEYS failure is returned; otherwise the keys are visited once each in some order covering exactly the KEYS result, the result is one record per key whose GET yields a session record, in that order, and as a set it is exactly the live sessions under the client's prefix (none when GET fails) |
| Cache.RedisCache.DeleteSession | cache/redis.go:213-216 | the store loses the session key |
| Cache.RedisCache.CheckRateLimit | cache/redis.go:220-227 | allowed iff the counter is below max; a missing key counts as 0 |
| Cache.RedisCache.IncrementRateLimit | cache/redis.go:229-235 | the store is that of INCR followed by EXPIRE with the window |
| Cache.RedisCache.GetRateLimitCount | cache/redis.go:237-243 | the counter value, 0 when missing |
| Cache.RedisCache.CacheClient | cache/redis.go:245-262 | the store is that of HSET of the client fields followed by a 5-minute EXPIRE |
| Cache.RedisCache.GetCachedClient | cache/redis.go:264-295 | the decoded client, or not found when the hash is empty |
| Cache.RedisCache.InvalidateClient | cache/redis.go:297-300 | the store loses the client key |
| Tables.FindUser | auth/repo/auth.go:68-71 | a found user is a row with that client id; not found means no row has it |
| Tables.FindSecret | auth/repo/auth.go:73-76 | a found secret is a row with that client id; not found means no row has it |
| Tables.FindValidAccess | auth/repo/auth.go:140-143 | a found token is a row with that token and expiry after now; not found means every row with that token has expired |
| Tables.FindValidRefresh | auth/repo/auth.go:121-124 | the same for refresh tokens |
| Tables.InsertedAccessFound | models/access_token.go:8 | a token inserted without a unique-index clash is what the valid-token query finds until it expires |
| Tables.InsertedRefreshFound | models/refresh_token.go:8 | the same for refresh tokens |
| Tables.InsertKeepsUnique | models/access_token.go:8 | an insert that passes the unique index keeps tokens unique |
| Tables.InsertKeepsUniqueRefresh | models/refresh_token.go:8 | the same for refresh tokens |
| Tables.UnexpiredAccessKeeps | worker/token_cleanup.go:23 | the sweep keeps exactly the rows whose expiry is not before now |
| Tables.UnexpiredRefreshKeeps | worker/token_cleanup.go:29 | the same for refresh tokens |
| Tables.UnexpiredAccessIdempotent | worker/token_cleanup.go:23 | sweeping twice with the same now equals sweeping once |
| Tables.UnexpiredRefreshIdempotent | worker/token_cleanup.go:29 | the same for refresh tokens |
| Tables.Database.constructor | auth/repo/auth.go:19-24 | an empty database with the given unavailable tables |
| Tables.Database.InsertUser | models/user.go:5-9 | an unavailable table or a client id or email clash is an error with no row added; otherwise the row is appended with the next id, now, `is_active` true and an empty description replaced by "null"; a clash uses up an id, an unavailable table does not |
| Tables.UserDefaults | models/user.go:8-9 | the stored user is always active and has a non-empty description; a non-empty description is kept, and nothing else changes |
| Tables.InsertError | auth/repo/auth.go:34-58 | an insert fails with the table's unavailability when it is down and with a duplicate-key error otherwise, never "not found" |
| Tables.Database.InsertSecret | models/secret.go:6-7 | the same clash and id rules for the secret and secondary-secret unique indexes, without defaults |
| Tables.Database.InsertAccessToken | auth/repo/auth.go:90-95 | the same clash and id rules for the access-token unique index, without defaults |
| Tables.Database.InsertRefreshToken | auth/repo/auth.go:102-106 | the same clash and id rules for the refresh-token unique index, without defaults |
| Tables.Database.RollbackUsers | auth/repo/auth.go:35-45 | the users table returns to the saved rows |
| Tables.Database.FirstUser | auth/repo/auth.go:68-71 | the result is the user query on the current rows |
| Tables.Database.FirstSecret | auth/repo/auth.go:73-76 | the result is the secret query on the current rows |
| Tables.Database.FirstValidAccessToken | auth/repo/auth.go:140-143 | the result is the valid access-token query |
| Tables.Database.FirstValidRefreshToken | auth/repo/auth.go:121-124 | the result is the valid refresh-token query |
| Tables.Database.DeleteExpiredAccessTokens | worker/token_cleanup.go:23-27 | an unavailable table is an error with nothing deleted; otherwise the rows expired before now are removed, the others kept in order, and the count deleted is returned |
| Tables.Database.DeleteExpiredRefreshTokens | worker/token_cleanup.go:29-33 | the same for refresh tokens |
| AuthRepo.ClientFromRows | auth/repo/auth.go:67-82 | a client is found iff both its user row and its secret row are found, and is made of those two rows |
| AuthRepo.CacheHitSkipsTables | auth/repo/auth.go:133-138 | a cache hit is returned whatever the tables hold |
| AuthRepo.AccessBackfillThenHit | auth/repo/auth.go:139-148 | a token found in the tables is written to the cache, and a later lookup before its expiry is answered from the cache with the same token (id 0) |
| AuthRepo.RefreshBackfillThenHit | auth/repo/auth.go:114-129 | the same for refresh tokens |
| AuthRepo.CacheAndTablesDisagreeAtExpiry | auth/repo/auth.go:140-143 | at the exact expiry second the cache still serves a token the tables' strict `expired_at > now` refuses |
| AuthRepo.ClientNeedsBothRows | auth/repo/auth.go:60-88 | on a cache miss, a client missing either row is not found and nothing is cached |
| AuthRepo.ClientBackfillThenHit | auth/repo/auth.go:60-88 | a client found in the tables is cached and returned, and the next lookup within five minutes is a cache hit with nothing changed, returning the client decoded from the cache (ids, creation times and description are not cached) |
| AuthRepo.Auth.constructor | auth/repo/auth.go:19-24 | the repository holds the database and the (possibly absent) cache |
| AuthRepo.Auth.CreateAuthClient | auth/repo/auth.go:34-58 | succeeds iff both tables are available and neither row clashes; on success both rows are appended with fresh ids (the user with its defaults) and the client id and secrets are returned; on failure neither table changes and the error names the user table when it is down or clashes, else the secret table |
| AuthRepo.Auth.FindClientWithSecrets | auth/repo/auth.go:60-88 | without a cache the result is the two-row lookup; with one, the result and store are the cache-aside composition over it |
| AuthRepo.Auth.CreateAccessToken | auth/repo/auth.go:90-100 | succeeds iff the table is available and the token is new; the row is appended with the next id and the cache holds it as WriteAccess writes it; on failure the error is the table's unavailability or a duplicate key, and neither the table nor the cache changes |
| AuthRepo.Auth.CreateRefreshToken | auth/repo/auth.go:102-111 | the same for refresh tokens |
| AuthRepo.Auth.FindValidRefreshToken | auth/repo/auth.go:113-130 | the result is the cache hit, or the table result with a backfill of the cache |
| AuthRepo.Auth.FindValidAccessToken | auth/repo/auth.go:132-149 | the same for access tokens |
| AuthService.DetectDeviceType | auth/service/auth.go:171-183 | the device type is always one of mobile, tablet or desktop |
| AuthService.LowerCaseIdempotent | auth/service/auth.go:172 | lower-casing twice, or after upper-casing, equals lower-casing once |
| AuthService.DeviceTypeIgnoresCase | auth/service/auth.go:171-183 | the device type does not depend on the letter case of the user agent |
| AuthService.LowerOfMiddle | auth/service/auth.go:172-174 | a marker inside the user agent still occurs, lower-cased, at the same place after lower-casing |
| AuthService.PhoneMarkerWins | auth/service/auth.go:174-176 | a user agent containing mobile, android or iphone in any case is a mobile, even if it also names a tablet |
| AuthService.TabletMarker | auth/service/auth.go:178-180 | a user agent containing tablet or ipad and no phone marker is a tablet |
| AuthService.LogoutNoop | auth/service/auth.go:117-125 | a token that is not found, or has no time left, is logged out with no cache change beyond the lookup and no error |
| AuthService.LogoutReportsOnlyBlacklistFailure | auth/service/auth.go:126-137 | logout only reports the failure of the blacklist write; delete failures are swallowed |
| AuthService.LogoutBlacklistsRemainingLifetime | auth/service/auth.go:122-137 | after a successful logout the token is blacklisted exactly until its expiry, and its cache entry and session are gone |
| AuthService.ToResponse | auth/service/auth.go:152-160 | each session becomes a response with the same fields |
| AuthService.ToResponseInjective | auth/service/auth.go:152-160 | distinct sessions give distinct responses |
| AuthService.IssueStoreTouches | auth/service/auth.go:73-100 | besides its access entry, the token half of a login changes only the refresh entry and the session key of the cache |
| AuthService.Auth.constructor | auth/service/auth.go:19-24 | the service shares the repository's cache |
| AuthService.Auth.RegisterClient | auth/service/auth.go:26-52 | the client id and both secrets are the next three 50-character draws of the entropy source; succeeds iff both tables are available and neither row clashes; on success exactly those three strings are returned and one user row (active, with its description default) and one secret row are appended; on failure neither table changes and the error is that of the transaction |
| AuthService.Auth.Login | auth/service/auth.go:54-111 | a lookup failure is returned with no token drawn, no row added and the cache as the lookup left it; otherwise the tokens are the next two 50-character draws, the call succeeds iff neither row clashes and both tables are available, returning the client and both tokens with expiries one day and seven days on; a failed access insert adds nothing, a failed refresh insert leaves the access row behind and reports that table's error; the cache is the lookup's store followed by the access entry, the refresh entry and the 24-hour session |
| AuthService.Auth.IssueTokens | auth/service/auth.go:61-108 | the same as Login once the client is known: succeeds iff both inserts succeed, returns the two drawn tokens, keeps the access row when the refresh insert fails, and leaves the cache as the access write, refresh write and session write compose |
| AuthService.Auth.Logout | auth/service/auth.go:113-138 | without a cache nothing happens; with one the store and error are those of the logout effect |
| AuthService.Auth.ListSessions | auth/service/auth.go:140-164 | without a cache an empty list; with one the KEYS error is passed through, or there is one response per readable session key, in the cache's order, each with the fields of that session; as a set they are exactly the live sessions under the client's prefix |
| AuthService.Auth.RevokeSession | auth/service/auth.go:166-168 | the same effect as Logout of the token; the client id is not consulted |
| AuthService.Auth.RefreshToken | auth/service/auth.go:185-212 | a lookup failure is returned with no token drawn, no row added and the cache as the lookup left it; otherwise the token is the next 50-character draw and the call succeeds iff the table is available and the token is new, appending one access row for the refresh token's client valid one day and caching it after the lookup's store; a failed insert adds nothing |
| Middleware.BearerExactly | auth/middleware/auth.go:15-25 | a header is accepted with token t exactly when it is "Bearer " followed by t and t has no space |
| Middleware.IssuedTokenAccepted | auth/service/auth.go:61-110 | the access token a login stores authenticates its client with and without a cache for the next 24 hours unless blacklisted, even when the refresh insert then fails |
| Middleware.IssuedTokenRefusedOnceExpired | auth/service/auth.go:64-73 | once its day is over the tables refuse that token, and the cache does from the second after |
| Middleware.NotBearerRefused | auth/middleware/auth.go:20-23 | a header that is not "Bearer " plus a space-free token is refused |
| Middleware.NotBearerPrefixRefused | auth/middleware/auth.go:20-23 | a header that does not start with "Bearer " is refused |
| Middleware.BearerRejections | auth/middleware/auth.go:20-23 | a lower-case scheme, a doubled space and a token containing a space are all refused |
| Middleware.EmptyHeaderRefused | auth/middleware/auth.go:16-18 | an empty header is refused as missing, without touching the cache |
| Middleware.BlacklistedRefused | auth/middleware/auth.go:26-30 | a blacklisted token is refused as logged out whatever the tables hold, and the cache is unchanged |
| Middleware.BlacklistCheckFailsOpen | auth/middleware/auth.go:27-28 | when the blacklist cannot be read the token lookup alone decides |
| Middleware.WithoutCacheTablesDecide | auth/middleware/auth.go:32-42 | without a cache a well-formed header is accepted iff the tables hold a valid token, with that token's client |
| Middleware.LoggedOutTokenRefused | auth/middleware/auth.go:26-30 | after a successful logout, the token is refused as logged out at every later time before its expiry |
| Middleware.Authenticate | auth/middleware/auth.go:15-42 | the outcome and cache are those of the filter: parse, blacklist, token lookup, activity touch, then client id and token passed on |
| Middleware.RateLimitKeyInjective | auth/middleware/ratelimit.go:19 | distinct limit classes (without ':') or addresses give distinct counter keys |
| Middleware.PolicyTable | auth/middleware/ratelimit.go:23-36 | login allows 5 per 900 s, register 3 per 3600 s, api and every other class 100 per 60 s |
| Middleware.RefusedRequestsUncounted | auth/middleware/ratelimit.go:37-48 | a refused request, or one whose check failed, leaves the counter unchanged |
| Middleware.BurstFrom | auth/middleware/ratelimit.go:37-54 | with the counter at n and requests inside the window, the next max-n requests pass and the one after is refused with 429 |
| Middleware.BurstStep | auth/middleware/ratelimit.go:37-54 | a request inside the window with the counter below max passes and raises the counter by one |
| Middleware.BurstFromFreshKey | auth/middleware/ratelimit.go:37-54 | from a fresh counter exactly max requests pass within a window and the next gets 429 |
| Middleware.RateLimit | auth/middleware/ratelimit.go:15-54 | without a cache every request passes; with one the outcome and counter are those of check-then-count |
| Worker.TokenCleanupWorker.constructor | worker/token_cleanup.go:15-19 | the worker holds the database |
| Worker.TokenCleanupWorker.Run | worker/token_cleanup.go:21-37 | the access sweep runs first and its failure stops the tick with refresh tokens untouched; the refresh failure is returned after the access sweep; on success both tables keep exactly their unexpired rows |
| Worker.SecondRunDeletesNothing | worker/token_cleanup.go:23-29 | a second tick at the same time deletes nothing |
| Dto.LoginValidate | dto/login.go:20-36 | each field is flagged under its own key with its required message iff its trimmed length is 0 or over 100; Status is set iff a field is flagged |
| Dto.RefreshValidate | dto/refresh.go:17-28 | the refresh token is flagged iff its trimmed length is 0 or over 100 |
| Dto.RegisterClientValidate | dto/register_client.go:20-36 | the name is flagged iff its trimmed length is 0 or over 50, the email iff it is not a valid address; Status iff anything is flagged |
| Dto.Registered | dto/register_client.go:20-36 | the response holds exactly the flagged fields with their required messages |
| Dto.EmptyEmailInvalid | dto/register_client.go:27-30 | an empty email is flagged |
| Dto.RegisterRejectsCapitals | dto/register_client.go:27-30 | an email with a capital letter is flagged |
| Dto.RegisterIgnoresFlags | dto/register_client.go:20-36 | the active flag and the description are not validated |
| Dto.ValidateRequestWith | dto/customer.go:101-180 | passes iff every check passes, and otherwise returns the first failing check's message |
| Dto.IdentityFailure | dto/customer.go:102-127 | none exactly when the verification type, names, birth date, email and phone pass; otherwise the failure names a check that fails while every check before it passes |
| Dto.BasicInfoFailure | dto/customer.go:129-138 | none exactly when the country of residence, nationality and TIN pass the blank test; otherwise the failure names a field that is blank while every field before it is not |
| Dto.AddressFailure | dto/customer.go:142-156 | none exactly when street, city, state, postal code and country pass the blank test; otherwise the failure names a field that is blank while every field before it is not |
| Dto.TextFailure | dto/customer.go:129-156 | none exactly when all eight text fields pass, basic information checked before address |
| Dto.ProfileFailure | dto/customer.go:159-178 | none exactly when the three ids, the monthly volume, the source-of-fund description and the reference pass; otherwise the failure names a check that fails while every check before it passes |
| Dto.FirstFailure | dto/customer.go:101-180 | none exactly when all three groups pass; a text or profile failure is reported only after the earlier groups passed |
| Dto.AsWrittenNeverRefusesCountry | dto/customer.go:129-131 | the as-written check never answers "Invalid country of residence" |
| Dto.ValidateRequest | dto/customer.go:101-180 | as written, passes iff the identity, id, volume checks pass; the eight text-field checks never fire |
| Dto.ValidateRequestCorrected | dto/customer.go:129-177 | with the blank test corrected, passes iff also no text field is blank |
| Dto.TrimmedNeverSingleSpace | dto/customer.go:129 | a trimmed string is never a single space |
| Dto.TextFieldsNeverBlank | dto/customer.go:129-177 | the as-written blank test is false for every input |
| Dto.VerificationTypeFirst | dto/customer.go:102-104 | an unknown verification type is reported before anything else |
| Dto.IdsCheckedInOrder | dto/customer.go:159-167 | the occupation, source-of-fund and purpose ids are checked in that order, nil or non-positive failing |
| Dto.CorrectedRefusesBlankCountry | dto/customer.go:129-131 | a blank country of residence is refused by the corrected check and passes the as-written one |
| Validation.StringFiledValidation | utils/validation.go:251-264 | true iff the trimmed length is at least max(minLen, 1) and at most maxLen (-1 meaning unbounded) |
| Validation.StringFiledValidationIgnoresPadding | utils/validation.go:251-264 | surrounding white space does not change the verdict, and blank strings always fail |
| Validation.StringMaxValidation | utils/validation.go:314-320 | true iff maxLen is -1 or the trimmed length is at most maxLen |
| Validation.StringMaxValidationMonotone | utils/validation.go:314-320 | a string within a limit is within every larger limit |
| Validation.StringInSlice | utils/validation.go:322-329 | true iff the string is in the list |
| Validation.IsValidCurrencyCode | utils/validation.go:821-831 | true iff three upper-case ASCII letters |
| Validation.EmailValidIffShape | utils/validation.go:307-312 | the email check accepts exactly local part, '@', domain, '.', and two or more lower-case letters over the pattern's character classes |
| Validation.ShapedEmailIsValid | utils/validation.go:307-312 | any split of the pattern's shape sits at the first '@' and the last '.', so the address is accepted |
| Validation.EmailValidIsLowerCaseWithoutPlus | utils/validation.go:307-312 | an accepted email has no capital letter and no '+' |
| Validation.ValidURLRequirements | utils/validation.go:726-807 | an accepted URL has an http or https scheme, a non-empty host, a digits-only port, valid labels, a dot and a top-level label of two or more letters |
| Validation.HostnameRequirements | utils/validation.go:784-804 | the host's last label after its last dot is two or more letters |
| Text.SplitLastPiece | utils/validation.go:789-794 | the last element of the split is the text after the last separator |
| Validation.SchemeRequired | utils/validation.go:731-736 | a URL without http:// or https:// after trimming is refused |
| Validation.ValidateURL | utils/validation.go:809-819 | empty gives the required code, otherwise no code iff the URL is valid |
| Validation.AppendedChangesOneField | utils/validation.go:364-375 | appending error codes changes only that field's list, which grows by exactly those codes |
| Validation.ValidateRequiredPositiveInt | utils/validation.go:505-517 | zero records the required message, negative the invalid-value code, both returning 0; positive passes unchanged |
| Validation.ValidateOptionalString | utils/validation.go:364-375 | empty passes untouched; otherwise the trimmed value is returned and the length code recorded iff out of bounds |
| Validation.ValidateOptionalStringWithLength | utils/validation.go:565-576 | the same with the caller's error code |
| Validation.ValidateOptionalStringWithMaxLength | utils/validation.go:638-649 | the same with only an upper bound |
| Validation.CodesDistinct | utils/validation.go:129-159 | the four codes the email check can record are distinct |
| Validation.CodeList | utils/validation.go:386-405 | each code is present iff its check failed, and the disposable-domain code comes last |
| Validation.ContainsChar | utils/validation.go:390 | a one-character substring test is membership |
| Validation.EmailCodesMeaning | utils/validation.go:378-408 | a '+' records both the plus and the format code; no code is recorded iff length 3..254, valid and not disposable |
| Validation.AppendedTwice | utils/validation.go:378-408 | two appends to one field equal one append of both lists |
| Validation.ValidateEmail | utils/validation.go:378-408 | empty records the required message; otherwise the trimmed lower-cased address is returned and exactly its failing checks' codes are recorded in order |
| Validation.EmailCodesRecorded | utils/validation.go:378-408 | the two recording steps together append exactly the codes of the normalized address |
| Validation.RecordChecks | utils/validation.go:386-396 | the length, plus and format checks record their codes in order |
| Validation.CodeListLast | utils/validation.go:398-405 | the disposable code is appended after the others |
| Validation.RecordDisposable | utils/validation.go:398-405 | the disposable code is recorded iff the domain contains a listed disposable domain |
| Validation.CountryCodes | utils/validation.go:652-675 | at most one code; the restricted code only for a well-formed listed country |
| Validation.ValidateCountryCodeWithRestrictions | utils/validation.go:652-675 | empty records the required message; otherwise the trimmed upper-cased code is returned with its country codes |
| Validation.ErrorResponse.Add | utils/validation.go:42-44 | the entry for the key becomes the value |
| Validation.ErrorResponse.AddNested | utils/validation.go:55-62 | the key's nested map gains the field's message and other keys are unchanged |
| Validation.NewValidationError | utils/validation.go:27-33 | status 422, not failed, message "Validation failed!", empty response |
| Utils.SafeString | utils/utils.go:70-75 | the pointed-to string, or "" for nil |
| Utils.Clock | utils/utils.go:134-137 | hour, minute and second are in range |
| Utils.GetTimeInSeconds | utils/utils.go:134-137 | the seconds since midnight, in [0, 86400) |
| Utils.GetFileExtension | utils/utils.go:144-149 | the suffix from the last dot, or "" when there is no inner dot |
| Utils.IsStateAllowedForBridge | utils/utils.go:203-210 | allowed iff the trimmed upper-cased state is not listed |
| Utils.IsCountryAllowedForBridge | utils/utils.go:214-256 | allowed iff non-empty and the trimmed upper-cased code is not listed |
| Utils.ListedCodesHaveCodeShape | utils/utils.go:203-256 | every listed code is upper-case letters and dashes |
| Utils.NormalizePadded | utils/utils.go:203-256 | padding and lower case normalize back to the code |
| Utils.CodeCaseRoundTrip | utils/utils.go:203-256 | a listed code survives lower-casing then upper-casing |
| Utils.CharCaseRoundTrip | utils/utils.go:203-256 | an upper-case letter or dash survives lower-casing then upper-casing |
| Utils.ListedCountryRefusedInAnyCase | utils/utils.go:214-256 | a listed country is refused in any case and with any padding |
| Utils.ListedStateRefusedInAnyCase | utils/utils.go:203-210 | a listed state is refused in any case and with any padding |
| Utils.BlankCodes | utils/utils.go:203-256 | an empty country is refused, a blank one allowed, an empty state allowed |
| Utils.ToSnakeCase | utils/utils.go:258-273 | the builder loop produces the snake-case function of the input |
| Utils.SnakeCaseIsLowerSnake | utils/utils.go:258-273 | the result has no capital, space or dash |
| Utils.SnakeCaseOfSnake | utils/utils.go:258-273 | a string already in that form is unchanged |
| Utils.SnakeCaseLength | utils/utils.go:258-273 | the result is longer by one underscore per capital after the first character |
| Utils.UniqueInt64Array | utils/utils.go:311-321 | the loop produces the first-occurrence deduplication |
| Utils.DedupSameValues | utils/utils.go:311-321 | the result holds exactly the input's values |
| Utils.DedupDistinct | utils/utils.go:311-321 | the result has no duplicates |
| Utils.FirstIndex | utils/utils.go:311-321 | the first position of a value |
| Utils.FirstIndexOfPrefix | utils/utils.go:311-321 | a value's first position in a prefix is its first position overall |
| Utils.FirstIndexOfNewLast | utils/utils.go:311-321 | a last element not seen before first occurs at the end |
| Utils.DedupFirstOccurrenceOrder | utils/utils.go:311-321 | the result is ordered by first occurrence |
| Utils.HideString | utils/utils.go:323-328 | all but the last numChars characters become '*'; short strings are unchanged |
| Utils.Repeat | utils/utils.go:323-328 | n copies of the character |
| Utils.ValidateSuffix | utils/utils.go:363-368 | no error iff the string ends with the suffix, otherwise the quoted-suffix message |
| Utils.RemoveSuffix | utils/utils.go:370-372 | a present suffix is removed, otherwise the string is unchanged |
| Utils.RemoveSuffixOfAppended | utils/utils.go:363-372 | appending then removing a suffix is the identity, and the appended string passes ValidateSuffix |
| Utils.DivMinorUnits | utils/utils.go:380-393 | as written: an error iff the denominator is zero; otherwise an int64 result |
| Utils.DivMinorUnitsExact | utils/utils.go:380-393 | the same computation without overflow |
| Utils.DivMinorUnitsExactOfMultiple | utils/utils.go:380-393 | dividing a multiple k*d by d gives k |
| Utils.DivMinorUnitsOfMultiple | utils/utils.go:380-393 | the code as written gives k for k*d by d while k*d*10^6 fits in int64 |
| Utils.DivMinorUnitsOverflows | utils/utils.go:388-392 | 10^13 divided by 1 comes back negative as written and 10^13 when exact |
| Errors.Unwrap | utils/errors.go:103-105 | the cause is a strictly smaller error |
| Errors.AsWrapErr | utils/errors.go:65-67 | the first WrapErr along the chain, none for plain and sentinel errors |
| Errors.WrapError | utils/errors.go:107-113 | the wrapper keeps the message and unwraps to the wrapped error |
| Errors.GetStatusCode | utils/errors.go:48-71 | the sentinel table (404, 404, 409, 400, 422, 403, 401), otherwise the chain's WrapErr status or 500 |
| Errors.GetErrCode | utils/errors.go:85-91 | the chain's WrapErr code, or "" |
| Errors.WrapErrorRoundTrip | utils/errors.go:48-113 | a wrapped error, further wrapped by messages, reports the status and code it was wrapped with |
| Errors.WrapInside | utils/errors.go:85-91 | wrapping with messages keeps the first WrapErr of the chain |
| Errors.UnlistedSentinelIsInternal | utils/errors.go:64-69 | the other sentinels map to 500 and code "" |
| Errors.UnwrappedChainIsInternal | utils/errors.go:64-69 | a chain without WrapErr maps to 500 and code "" |
| Errors.NoWrapErrHasNone | utils/errors.go:85-91 | a chain without WrapErr has none to find |
| Helpers.Charset | utils/helpers.go:28 | the alphabet has 62 characters in order |
| Helpers.CharsetLayout | utils/helpers.go:28 | it runs a..z, A..Z, 0..9 |
| Helpers.CharsetIsAlphanumeric | utils/helpers.go:28 | a character is in the alphabet iff it is an ASCII letter or digit |
| Helpers.CharsetByte | utils/helpers.go:49-51 | a byte maps to the alphabet character at its value modulo 62 |
| Helpers.GenerateRandomString | utils/helpers.go:40-53 | the result is RandomString of the pool and exactly length bytes are drawn, or nothing when too few remain; every character is alphanumeric |
| Helpers.RandomString | utils/helpers.go:40-53 | with enough entropy, length characters, each the alphabet character of a drawn byte modulo 62; otherwise "" |
| Helpers.RandomStringIsAlphanumeric | utils/helpers.go:28-53 | every character of a generated string is an ASCII letter or digit |
| Helpers.InArrayString | utils/helpers.go:81-88 | true iff the target is an element |
| Helpers.ExtraCounts | utils/helpers.go:245-261 | each string occurs in the result as often as in the first list, unless it is in the second |
| Helpers.FindExtraData | utils/helpers.go:245-261 | the elements of the first list absent from the second, in order |
| Helpers.PageOfOffsetOf | utils/helpers.go:305-313 | the page of a page's first offset is that page |
| Helpers.OffsetWithinPage | utils/helpers.go:310-313 | an offset lies on the page computed from it |
| Helpers.ParsePaginationParams | utils/helpers.go:283-317 | the limit defaults to 10; a valid page fixes the offset, otherwise a valid offset fixes the page, with int64 wrap-around |
| Helpers.CalculateTotalPages | utils/helpers.go:319-328 | never 0 and within int64 |
| Helpers.TotalPagesIsCeiling | utils/helpers.go:319-328 | for positive values, the fewest pages of limit rows that hold total rows |
| Random.Entropy.Read | utils/helpers.go:44-47 | fills the buffer from the pool and consumes it, or fails with nothing changed |
| Strconv.ParseIntOfItoa | cache/redis.go:70-71 | every int64 survives formatting and parsing back |
| Strconv.ParseUint32OfItoa | cache/redis.go:102 | every 32-bit unsigned value survives formatting and parsing back |
| Strconv.ParseBoolOfFormatBool | cache/redis.go:251-276 | a bool written to Redis parses back |
| Strconv.RedisIntegerOfItoa | cache/redis.go:229-235 | a counter INCR wrote reads back as the same integer |

## Left out

- I/O is not modelled. The HTTP handlers (`auth/rest`), echo routing, JSON encoding and the
  log lines are replaced by return values. This covers the worker's "deleted %d" line.
- Handler checks are not part of this model. The secret comparison in `auth/rest/auth.go`
  and its status codes are among them.
- Utils.Clock: takes the instant as Unix seconds in UTC. Go's `t.Clock()` reads the time of
  day in the time's own location, and locations are not modelled (utils/utils.go:134-137).
- Validation.ErrorResponse.AddNested: returns an updated value. Go writes into the existing
  nested map in place, so any other holder of that map would see the change
  (utils/validation.go:55-62). Nothing in the modelled core keeps a second reference to it.
- Concurrency is not modelled. Requests, worker ticks and Redis clients run one at a time.
  The gap between the rate-limit check and its increment therefore never races.
- The clock is a parameter and has whole seconds only:
  - `time.Until` at logout uses the same `now` as the lookup;
  - time-to-live values are whole seconds;
  - the zero time is 0;
  - time text is not parsed.
- Redis is simplified:
  - KEYS is modelled as a prefix filter;
  - go-redis pipelines are separate commands, each of which can fail on its own;
  - `%q` quoting is not modelled.
- Postgres is simplified:
  - `size:100` column limits are not modelled;
  - ids come from one counter per table, as Postgres sequences do: an insert that breaks a
    unique index still uses up its id, a transaction rolled back after the user insert keeps
    the users counter advanced, and an unavailable table uses up nothing.
- Strings are ASCII. `strings.ToLower`, `ToUpper` and `TrimSpace` act on ASCII only.
- Floating point is not modelled. This covers the monthly-volume check of the customer
  request and the float helpers of utils/utils.go.
- The regular-expression, date and phone checks of the customer request are external
  predicates.
- Utils.HideString: requires numChars >= 0. The Go code panics on the negative slice bound
  (utils/utils.go:327).
- Dto.ValidateRequest: requires a verification type. The Go code dereferences it and panics
  on nil.
- Any member that consumes entropy: when the source runs dry it yields the empty string.
  Tokens and ids are then empty, as in the code. No contract rules this out.
- Models: `BaseModel` is not part of this model. Rows are taken to have an auto-increment
  id and a creation time, and to be hard-deleted.
- Helpers in `utils/` that are not listed in the table are outside the modelled core:
  - file, image and base64 helpers;
  - hashing;
  - UUID, JSON and struct conversions;
  - float conversions;
  - date helpers.

## Findings

| source | as written | input that shows it | evidently intended | confidence | as-written member | corrected member |
|---|---|---|---|---|---|---|
| utils/utils.go:380-393 | the numerator is multiplied by 10^6 in int64, which wraps | DivMinorUnits(10^13, 1) returns a negative amount | the quotient in minor units, 10^13 | high, not executed | Utils.DivMinorUnitsOverflows | Utils.DivMinorUnitsExactOfMultiple |
| dto/customer.go:129-177 | each text field is refused when `strings.TrimSpace(x) == " "`, which no trimmed string equals | a blank country of residence, "   ", passes | refuse fields that are empty after trimming | high, not executed | Dto.TextFieldsNeverBlank | Dto.CorrectedRefusesBlankCountry |
