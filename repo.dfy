/**
 * The authentication repository of auth/repo/auth.go: token and client lookups that try the
 * cache first, fall back to the tables, and write what they found back to the cache; and the
 * creation of clients and tokens.
 */
module AuthRepo {
  import opened Wrappers
  import opened Models
  import opened Tables
  import opened Cache
  import Int64

  // ------------------------------------------------------------ cache-aside decisions

  /** A valid-token lookup: a cache hit wins; otherwise the table's answer, written back to the cache when found. */
  function AccessAside(entries: Store, failing: set<Cmd>, found: Result<AccessToken, DbError>, token: string, now: int): (Store, Result<AccessToken, DbError>) {
    var (s1, cached) := ReadAccess(entries, failing, token, now);
    if cached.Ok? then (s1, Ok(cached.value))
    else match found
      case Err(e) => (s1, Err(e))
      case Ok(row) => (WriteAccess(s1, failing, row.token, row, now).0, Ok(row))
  }

  function RefreshAside(entries: Store, failing: set<Cmd>, found: Result<RefreshToken, DbError>, token: string, now: int): (Store, Result<RefreshToken, DbError>) {
    var (s1, cached) := ReadRefresh(entries, failing, token, now);
    if cached.Ok? then (s1, Ok(cached.value))
    else match found
      case Err(e) => (s1, Err(e))
      case Ok(row) => (WriteRefresh(s1, failing, row.token, row, now).0, Ok(row))
  }

  /** A client exists in the tables only with both its user row and its secret row. */
  function ClientFromRows(user: Result<User, DbError>, secret: Result<Secret, DbError>): (r: Result<ClientWithSecrets, DbError>)
    ensures r.Ok? <==> user.Ok? && secret.Ok?
    ensures r.Ok? ==> r.value == ClientWithSecrets(user.value, secret.value)
  {
    match user
    case Err(e) => Err(e)
    case Ok(u) =>
      match secret
      case Err(e) => Err(e)
      case Ok(s) => Ok(ClientWithSecrets(u, s))
  }

  /** FindClientWithSecrets: a cache hit wins; otherwise both rows, cached for five minutes. */
  function ClientAside(entries: Store, failing: set<Cmd>, found: Result<ClientWithSecrets, DbError>, clientId: string, now: int): (Store, Result<ClientWithSecrets, DbError>) {
    match ReadClient(entries, failing, clientId, now)
    case Ok(c) => (entries, Ok(c))
    case Err(_) =>
      match found
      case Err(e) => (entries, Err(e))
      case Ok(c) => (WriteClient(entries, failing, clientId, c, now).0, Ok(c))
  }

  // ------------------------------------------------------------ properties

  /** A cache hit is returned whatever the tables hold: they are not consulted. */
  lemma CacheHitSkipsTables(entries: Store, failing: set<Cmd>, found: Result<AccessToken, DbError>, other: Result<AccessToken, DbError>, token: string, now: int)
    requires ReadAccess(entries, failing, token, now).1.Ok?
    ensures AccessAside(entries, failing, found, token, now) == AccessAside(entries, failing, other, token, now)
    ensures AccessAside(entries, failing, found, token, now).1 == Ok(ReadAccess(entries, failing, token, now).1.value)
  {
  }

  /**
   * After a miss, a row found in the tables is written back, so a second lookup before its
   * expiry is a cache hit (which no longer carries the row id).
   */
  lemma AccessBackfillThenHit(entries: Store, failing: set<Cmd>, row: AccessToken, other: Result<AccessToken, DbError>, now: int, later: int)
    requires HSetCmd !in failing && HGetAllCmd !in failing
    requires Lookup(entries, AccessKey(row.token), now).None?
    requires Int64.InRange(row.createdAt) && Int64.InRange(row.expiredAt)
    requires now < row.expiredAt && now <= later <= row.expiredAt
    ensures var (s, r) := AccessAside(entries, failing, Ok(row), row.token, now);
      r == Ok(row) && AccessAside(s, failing, other, row.token, later) == (s, Ok(row.(id := 0)))
  {
    assert ReadAccess(entries, failing, row.token, now) == (entries, Err(NotFound));
    AccessRoundTrip(entries, failing, row.token, row, now, later);
  }

  lemma RefreshBackfillThenHit(entries: Store, failing: set<Cmd>, row: RefreshToken, other: Result<RefreshToken, DbError>, now: int, later: int)
    requires HSetCmd !in failing && HGetAllCmd !in failing
    requires Lookup(entries, RefreshKey(row.token), now).None?
    requires Int64.InRange(row.createdAt) && Int64.InRange(row.expiredAt) && row.accessTokenId <= Strconv.MaxUint32
    requires now < row.expiredAt && now <= later <= row.expiredAt
    ensures var (s, r) := RefreshAside(entries, failing, Ok(row), row.token, now);
      r == Ok(row) && RefreshAside(s, failing, other, row.token, later) == (s, Ok(row.(id := 0)))
  {
    assert ReadRefresh(entries, failing, row.token, now) == (entries, Err(NotFound));
    RefreshRoundTrip(entries, failing, row.token, row, now, later);
  }

  /**
   * At the very second a token expires the two sources disagree: the cache still returns it
   * (its check is "expiry before now") while the tables refuse it (their query is "expiry after now").
   */
  lemma CacheAndTablesDisagreeAtExpiry(entries: Store, failing: set<Cmd>, rows: seq<AccessToken>, row: AccessToken, now: int)
    requires HSetCmd !in failing && HGetAllCmd !in failing
    requires Lookup(entries, AccessKey(row.token), now).None?
    requires Int64.InRange(row.createdAt) && Int64.InRange(row.expiredAt) && now < row.expiredAt
    requires forall t :: t in rows && t.token == row.token ==> t.expiredAt == row.expiredAt
    ensures var s := WriteAccess(entries, failing, row.token, row, now).0;
      ReadAccess(s, failing, row.token, row.expiredAt).1.Ok? && FindValidAccess(rows, row.token, row.expiredAt).Err?
  {
    AccessRoundTrip(entries, failing, row.token, row, now, row.expiredAt);
  }

  /** With no usable cache entry, a client missing either its user row or its secret row is not found. */
  lemma ClientNeedsBothRows(entries: Store, failing: set<Cmd>, users: seq<User>, secrets: seq<Secret>, unavailable: set<Table>, clientId: string, now: int)
    requires ReadClient(entries, failing, clientId, now).Err?
    requires (forall u :: u in users ==> u.clientId != clientId) || (forall s :: s in secrets ==> s.clientId != clientId)
    requires unavailable == {}
    ensures ClientAside(entries, failing, ClientFromRows(QueryUser(users, unavailable, clientId), QuerySecret(secrets, unavailable, clientId)), clientId, now)
      == (entries, Err(RecordNotFound))
  {
    if forall u :: u in users ==> u.clientId != clientId {
      assert FindUser(users, clientId).Err?;
    } else {
      assert FindSecret(secrets, clientId).Err?;
    }
  }

  /**
   * A client found in the tables is cached, so the next lookup within five minutes is a hit
   * whatever the tables say then: the cached name, email, active flag and secrets, under the
   * looked-up id, with ids, times and description not cached.
   */
  lemma ClientBackfillThenHit(entries: Store, failing: set<Cmd>, c: ClientWithSecrets, other: Result<ClientWithSecrets, DbError>, clientId: string, now: int, later: int)
    requires HSetCmd !in failing && HGetAllCmd !in failing && ExpireCmd !in failing
    requires Lookup(entries, ClientKey(clientId), now).None?
    requires now <= later < now + ClientTtl
    ensures var (s, r) := ClientAside(entries, failing, Ok(c), clientId, now);
      r == Ok(c) &&
      ClientAside(s, failing, other, clientId, later) ==
        (s, Ok(ClientWithSecrets(User(0, 0, clientId, c.user.name, c.user.email, c.user.isActive, ""),
                                 Secret(0, 0, clientId, c.secret.secret, c.secret.secondarySecret))))
  {
    ClientRoundTrip(entries, failing, clientId, c, now, later);
  }

  // ------------------------------------------------------------ the repository object

  class Auth {
    const db: Database
    const cache: RedisCache?

    constructor (db: Database, cache: RedisCache?)
      ensures this.db == db && this.cache == cache
    {
      this.db := db;
      this.cache := cache;
    }

    /** CreateAuthClient: the user row and the secret row in one transaction, both or neither. */
    method CreateAuthClient(user: User, secret: Secret, now: int) returns (r: Result<RegisterClientRes, DbError>)
      modifies db`users, db`secrets, db`lastUserId, db`lastSecretId
      ensures r.Ok? <==>
        Users !in db.unavailable && Secrets !in db.unavailable && !UserClash(old(db.users), user) && !SecretClash(old(db.secrets), secret)
      ensures r.Err? ==> db.users == old(db.users) && db.secrets == old(db.secrets)
      ensures r.Err? ==> (r.error ==
        if Users in db.unavailable || UserClash(old(db.users), user) then InsertError(Users, db.unavailable)
        else InsertError(Secrets, db.unavailable))
      ensures r.Ok? ==>
        r.value == RegisterClientRes(user.clientId, secret.secret, secret.secondarySecret) &&
        db.users == old(db.users) + [UserDefaults(user).(id := old(db.lastUserId) + 1, createdAt := now)] &&
        db.secrets == old(db.secrets) + [secret.(id := old(db.lastSecretId) + 1, createdAt := now)]
    {
      var saved := db.users;
      var u := db.InsertUser(user, now);
      if u.Err? {
        return Err(u.error);
      }
      var s := db.InsertSecret(secret, now);
      if s.Err? {
        db.RollbackUsers(saved);
        return Err(s.error);
      }
      return Ok(RegisterClientRes(user.clientId, secret.secret, secret.secondarySecret));
    }

    method FindClientWithSecrets(clientId: string, now: int) returns (r: Result<ClientWithSecrets, DbError>)
      modifies cache
      ensures cache == null ==> r == ClientFromRows(QueryUser(db.users, db.unavailable, clientId), QuerySecret(db.secrets, db.unavailable, clientId))
      ensures cache != null ==> ((cache.store, r) ==
        ClientAside(old(cache.store), cache.failing,
                    ClientFromRows(QueryUser(db.users, db.unavailable, clientId), QuerySecret(db.secrets, db.unavailable, clientId)), clientId, now))
    {
      if cache != null {
        var cached := cache.GetCachedClient(clientId, now);
        if cached.Ok? {
          return Ok(cached.value);
        }
      }
      var user := db.FirstUser(clientId);
      if user.Err? {
        return Err(user.error);
      }
      var secret := db.FirstSecret(clientId);
      if secret.Err? {
        return Err(secret.error);
      }
      var result := ClientWithSecrets(user.value, secret.value);
      if cache != null {
        var _ := cache.CacheClient(clientId, result, now);
      }
      return Ok(result);
    }

    /** CreateAccessToken: the row first; then, only if it was stored, a best-effort cache write. */
    method CreateAccessToken(token: AccessToken, now: int) returns (r: Result<AccessToken, DbError>)
      modifies db`accessTokens, db`lastAccessId, cache
      ensures r.Ok? <==> AccessTokens !in db.unavailable && !AccessClash(old(db.accessTokens), token)
      ensures r.Err? ==> r.error == InsertError(AccessTokens, db.unavailable)
      ensures r.Err? ==> db.accessTokens == old(db.accessTokens) && (cache != null ==> cache.store == old(cache.store))
      ensures r.Ok? ==>
        r.value == token.(id := old(db.lastAccessId) + 1, createdAt := now) &&
        db.accessTokens == old(db.accessTokens) + [r.value] &&
        (cache != null ==> cache.store == WriteAccess(old(cache.store), cache.failing, token.token, r.value, now).0)
    {
      var row := db.InsertAccessToken(token, now);
      if row.Err? {
        return Err(row.error);
      }
      if cache != null {
        var _ := cache.CacheAccessToken(row.value.token, row.value, now);
      }
      return Ok(row.value);
    }

    method CreateRefreshToken(token: RefreshToken, now: int) returns (r: Result<RefreshToken, DbError>)
      modifies db`refreshTokens, db`lastRefreshId, cache
      ensures r.Ok? <==> RefreshTokens !in db.unavailable && !RefreshClash(old(db.refreshTokens), token)
      ensures r.Err? ==> r.error == InsertError(RefreshTokens, db.unavailable)
      ensures r.Err? ==> db.refreshTokens == old(db.refreshTokens) && (cache != null ==> cache.store == old(cache.store))
      ensures r.Ok? ==>
        r.value == token.(id := old(db.lastRefreshId) + 1, createdAt := now) &&
        db.refreshTokens == old(db.refreshTokens) + [r.value] &&
        (cache != null ==> cache.store == WriteRefresh(old(cache.store), cache.failing, token.token, r.value, now).0)
    {
      var row := db.InsertRefreshToken(token, now);
      if row.Err? {
        return Err(row.error);
      }
      if cache != null {
        var _ := cache.CacheRefreshToken(row.value.token, row.value, now);
      }
      return Ok(row.value);
    }

    method FindValidRefreshToken(token: string, now: int) returns (r: Result<RefreshToken, DbError>)
      modifies cache
      ensures cache == null ==> r == QueryRefresh(db.refreshTokens, db.unavailable, token, now)
      ensures cache != null ==> ((cache.store, r) ==
        RefreshAside(old(cache.store), cache.failing, QueryRefresh(db.refreshTokens, db.unavailable, token, now), token, now))
    {
      if cache != null {
        var cached := cache.GetRefreshToken(token, now);
        if cached.Ok? {
          return Ok(cached.value);
        }
      }
      var row := db.FirstValidRefreshToken(token, now);
      if row.Err? {
        return Err(row.error);
      }
      if cache != null {
        var _ := cache.CacheRefreshToken(row.value.token, row.value, now);
      }
      return Ok(row.value);
    }

    method FindValidAccessToken(token: string, now: int) returns (r: Result<AccessToken, DbError>)
      modifies cache
      ensures cache == null ==> r == QueryAccess(db.accessTokens, db.unavailable, token, now)
      ensures cache != null ==> ((cache.store, r) ==
        AccessAside(old(cache.store), cache.failing, QueryAccess(db.accessTokens, db.unavailable, token, now), token, now))
    {
      if cache != null {
        var cached := cache.GetAccessToken(token, now);
        if cached.Ok? {
          return Ok(cached.value);
        }
      }
      var row := db.FirstValidAccessToken(token, now);
      if row.Err? {
        return Err(row.error);
      }
      if cache != null {
        var _ := cache.CacheAccessToken(row.value.token, row.value, now);
      }
      return Ok(row.value);
    }
  }
}
