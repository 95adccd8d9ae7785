/**
 * The Redis-backed cache of cache/redis.go: the key-value server it talks to, modelled as a
 * map from keys to entries with an optional expiry, and the RedisCache operations on it.
 *
 * A key is visible while `now < expiresAt`; an expired entry reads as missing. Each client
 * command can be made to fail (the server unreachable) by naming its kind in `failing`.
 */
module Cache {
  import opened Wrappers
  import opened Text
  import Int64
  import opened Strconv
  import opened Models

  /** A stored value: a string, a session record (kept as the record, not its JSON text) or a hash. */
  datatype Value = Str(s: string) | Session(data: SessionData) | Hash(fields: map<string, string>)

  datatype Entry = Entry(value: Value, expiresAt: Option<int>)

  type Store = map<string, Entry>

  /** The kinds of command the cache issues. */
  datatype Cmd = HSetCmd | HGetAllCmd | DelCmd | SetCmd | GetCmd | ExistsCmd | KeysCmd | IncrCmd | ExpireCmd

  /**
   * Errors: the server unreachable for a command, GET of a missing key (redis.Nil), a command
   * on the wrong kind of value, a non-integer counter, INCR past the int64 range, and the
   * cache's own "not found", "expired" and undecodable-session errors.
   */
  datatype CacheError = Unreachable(cmd: Cmd) | Nil | WrongType | NotInteger | Overflow | NotFound | Expired | Decode

  predicate Live(e: Entry, now: int) {
    e.expiresAt.None? || now < e.expiresAt.value
  }

  /** The value a client sees under `key` at `now`: none when absent or expired. */
  function Lookup(store: Store, key: string, now: int): (r: Option<Value>)
    ensures r.Some? <==> key in store && Live(store[key], now)
  {
    if key in store && Live(store[key], now) then Some(store[key].value) else None
  }

  /** The expiry a positive time-to-live gives; zero or less means no expiry. */
  function ExpiryAfter(ttl: int, now: int): Option<int> {
    if ttl > 0 then Some(now + ttl) else None
  }

  // ------------------------------------------------------------ server commands

  /** HSET: merges `fields` into the hash (new values win), keeping its expiry; creates it when missing. */
  function DoHSet(store: Store, failing: set<Cmd>, key: string, fields: map<string, string>, now: int): (Store, Option<CacheError>) {
    if HSetCmd in failing then (store, Some(Unreachable(HSetCmd)))
    else match Lookup(store, key, now)
      case None => (store[key := Entry(Hash(fields), None)], None)
      case Some(Hash(prev)) => (store[key := Entry(Hash(prev + fields), store[key].expiresAt)], None)
      case Some(_) => (store, Some(WrongType))
  }

  /** HGETALL: the fields of the hash; a missing key gives the empty map. */
  function DoHGetAll(store: Store, failing: set<Cmd>, key: string, now: int): Result<map<string, string>, CacheError> {
    if HGetAllCmd in failing then Err(Unreachable(HGetAllCmd))
    else match Lookup(store, key, now)
      case None => Ok(map[])
      case Some(Hash(m)) => Ok(m)
      case Some(_) => Err(WrongType)
  }

  /** SET with a time-to-live: replaces whatever the key held. */
  function DoSet(store: Store, failing: set<Cmd>, key: string, v: Value, ttl: int, now: int): (Store, Option<CacheError>) {
    if SetCmd in failing then (store, Some(Unreachable(SetCmd)))
    else (store[key := Entry(v, ExpiryAfter(ttl, now))], None)
  }

  /** GET: the string (or session text) under the key; redis.Nil when missing. */
  function DoGet(store: Store, failing: set<Cmd>, key: string, now: int): Result<Value, CacheError> {
    if GetCmd in failing then Err(Unreachable(GetCmd))
    else match Lookup(store, key, now)
      case None => Err(Nil)
      case Some(Hash(_)) => Err(WrongType)
      case Some(v) => Ok(v)
  }

  /** DEL: removes the key. */
  function DoDel(store: Store, failing: set<Cmd>, key: string): (Store, Option<CacheError>) {
    if DelCmd in failing then (store, Some(Unreachable(DelCmd)))
    else (store - {key}, None)
  }

  /** EXISTS: whether the key is visible. */
  function DoExists(store: Store, failing: set<Cmd>, key: string, now: int): Result<bool, CacheError> {
    if ExistsCmd in failing then Err(Unreachable(ExistsCmd)) else Ok(Lookup(store, key, now).Some?)
  }

  /** KEYS prefix*: the visible keys that start with `prefix`. */
  function DoKeys(store: Store, failing: set<Cmd>, prefix: string, now: int): Result<set<string>, CacheError> {
    if KeysCmd in failing then Err(Unreachable(KeysCmd))
    else Ok(set k | k in store && HasPrefix(k, prefix) && Live(store[k], now))
  }

  /**
   * INCR: a missing key becomes "1" without expiry; a canonical integer string is increased
   * by one, keeping its expiry; anything else is an error and changes nothing.
   */
  function DoIncr(store: Store, failing: set<Cmd>, key: string, now: int): (Store, Result<int, CacheError>) {
    if IncrCmd in failing then (store, Err(Unreachable(IncrCmd)))
    else match Lookup(store, key, now)
      case None => (store[key := Entry(Str("1"), None)], Ok(1))
      case Some(Hash(_)) => (store, Err(WrongType))
      case Some(Session(_)) => (store, Err(NotInteger))
      case Some(Str(s)) =>
        match RedisInteger(s)
        case None => (store, Err(NotInteger))
        case Some(n) =>
          if n + 1 > Int64.Max then (store, Err(Overflow))
          else (store[key := Entry(Str(Itoa(n + 1)), store[key].expiresAt)], Ok(n + 1))
  }

  /** EXPIRE: a positive time-to-live sets the expiry of a visible key, zero or less deletes it. */
  function DoExpire(store: Store, failing: set<Cmd>, key: string, ttl: int, now: int): (Store, Option<CacheError>) {
    if ExpireCmd in failing then (store, Some(Unreachable(ExpireCmd)))
    else if Lookup(store, key, now).None? then (store, None)
    else if ttl > 0 then (store[key := store[key].(expiresAt := Some(now + ttl))], None)
    else (store - {key}, None)
  }

  /** The client-side `.Int()` of a GET reply: strconv.Atoi of the text; session text is never an integer. */
  function IntOf(v: Value): (r: Result<int, CacheError>)
    ensures r.Ok? ==> Int64.InRange(r.value)
  {
    match v
    case Str(s) => if Atoi(s).err.None? then Ok(Atoi(s).value) else Err(NotInteger)
    case _ => Err(NotInteger)
  }

  // ------------------------------------------------------------ keys

  function AccessKey(token: string): string { "token:access:" + token }

  function RefreshKey(token: string): string { "token:refresh:" + token }

  function BlacklistKey(token: string): string { "blacklist:token:" + token }

  function SessionPrefix(clientId: string): string { "session:" + clientId + ":" }

  function SessionKey(clientId: string, token: string): string { SessionPrefix(clientId) + token }

  function ClientKey(clientId: string): string { "client:" + clientId }

  /** Two keys built with different fixed prefixes differ, whatever follows the prefixes. */
  lemma PrefixesDiffer(p: string, q: string, a: string, b: string, i: nat)
    requires i < |p| && i < |q| && p[i] != q[i]
    ensures p + a != q + b
  {
    assert (p + a)[i] == p[i];
    assert (q + b)[i] == q[i];
  }

  /** Equal keys of one family name the same token. */
  lemma PrefixInjective(p: string, a: string, b: string)
    requires p + a == p + b
    ensures a == b
  {
    assert a == (p + a)[|p|..];
    assert b == (p + b)[|p|..];
  }

  /** The key families never collide, and each family names its token uniquely. */
  lemma KeyFamiliesDisjoint(a: string, b: string, c: string)
    ensures AccessKey(a) != RefreshKey(b) && AccessKey(a) != BlacklistKey(b) && AccessKey(a) != SessionKey(c, b)
    ensures AccessKey(a) != ClientKey(b) && RefreshKey(a) != BlacklistKey(b) && RefreshKey(a) != SessionKey(c, b)
    ensures BlacklistKey(a) != SessionKey(c, b) && ClientKey(a) != SessionKey(c, b)
    ensures RefreshKey(a) != ClientKey(b) && BlacklistKey(a) != ClientKey(b)
    ensures AccessKey(a) == AccessKey(b) ==> a == b
    ensures RefreshKey(a) == RefreshKey(b) ==> a == b
    ensures BlacklistKey(a) == BlacklistKey(b) ==> a == b
  {
    PrefixesDiffer("token:access:", "token:refresh:", a, b, 6);
    PrefixesDiffer("token:access:", "blacklist:token:", a, b, 0);
    PrefixesDiffer("token:access:", "session:", a, c + ":" + b, 0);
    assert SessionKey(c, b) == "session:" + (c + ":" + b);
    PrefixesDiffer("token:access:", "client:", a, b, 0);
    PrefixesDiffer("token:refresh:", "blacklist:token:", a, b, 0);
    PrefixesDiffer("token:refresh:", "session:", a, c + ":" + b, 0);
    PrefixesDiffer("blacklist:token:", "session:", a, c + ":" + b, 0);
    PrefixesDiffer("client:", "session:", a, c + ":" + b, 1);
    PrefixesDiffer("token:refresh:", "client:", a, b, 0);
    PrefixesDiffer("blacklist:token:", "client:", a, b, 0);
    if AccessKey(a) == AccessKey(b) {
      PrefixInjective("token:access:", a, b);
    }
    if RefreshKey(a) == RefreshKey(b) {
      PrefixInjective("token:refresh:", a, b);
    }
    if BlacklistKey(a) == BlacklistKey(b) {
      PrefixInjective("blacklist:token:", a, b);
    }
  }

  // ------------------------------------------------------------ record codecs

  /** A missing hash field reads as "" (Go's map zero value). */
  function Field(m: map<string, string>, k: string): string {
    if k in m then m[k] else ""
  }

  /** The hash CacheAccessToken writes: owner, expiry and creation time in Unix seconds. */
  function AccessFields(data: AccessToken): map<string, string> {
    map["client_id" := data.clientId, "expired_at" := Itoa(data.expiredAt), "created_at" := Itoa(data.createdAt)]
  }

  /** The token GetAccessToken rebuilds; unparsable times read as 0 and the row id is not cached. */
  function DecodeAccess(token: string, m: map<string, string>): AccessToken {
    AccessToken(0, ParseInt(Field(m, "created_at")).value, Field(m, "client_id"), token, ParseInt(Field(m, "expired_at")).value)
  }

  function RefreshFields(data: RefreshToken): map<string, string> {
    map["client_id" := data.clientId, "access_token_id" := Itoa(data.accessTokenId),
        "expired_at" := Itoa(data.expiredAt), "created_at" := Itoa(data.createdAt)]
  }

  /** The token GetRefreshToken rebuilds; the access-token id is parsed as a 32-bit unsigned number. */
  function DecodeRefresh(token: string, m: map<string, string>): RefreshToken {
    RefreshToken(0, ParseInt(Field(m, "created_at")).value, Field(m, "client_id"), token,
                 ParseUint32(Field(m, "access_token_id")).value, ParseInt(Field(m, "expired_at")).value)
  }

  function ClientFields(data: ClientWithSecrets): map<string, string> {
    map["name" := data.user.name, "email" := data.user.email, "is_active" := FormatBool(data.user.isActive),
        "secret" := data.secret.secret, "secondary_secret" := data.secret.secondarySecret]
  }

  /** The client GetCachedClient rebuilds: ids, times and description are not cached; a bad flag reads as false. */
  function DecodeClient(clientId: string, m: map<string, string>): ClientWithSecrets {
    var isActive := match ParseBool(Field(m, "is_active")) case Ok(b) => b case Err(_) => false;
    ClientWithSecrets(User(0, 0, clientId, Field(m, "name"), Field(m, "email"), isActive, ""),
                      Secret(0, 0, clientId, Field(m, "secret"), Field(m, "secondary_secret")))
  }

  // ------------------------------------------------------------ operation semantics

  /** CacheAccessToken: nothing is written for a token already expired; otherwise one HSET, no expiry. */
  function WriteAccess(store: Store, failing: set<Cmd>, token: string, data: AccessToken, now: int): (Store, Option<CacheError>) {
    if data.expiredAt - now <= 0 then (store, None)
    else DoHSet(store, failing, AccessKey(token), AccessFields(data), now)
  }

  function WriteRefresh(store: Store, failing: set<Cmd>, token: string, data: RefreshToken, now: int): (Store, Option<CacheError>) {
    if data.expiredAt - now <= 0 then (store, None)
    else DoHSet(store, failing, RefreshKey(token), RefreshFields(data), now)
  }

  /**
   * GetAccessToken: an empty hash is "not found"; a token whose expiry is before `now` is
   * deleted (a failed delete is ignored) and reported expired.
   */
  function ReadAccess(store: Store, failing: set<Cmd>, token: string, now: int): (Store, Result<AccessToken, CacheError>) {
    match DoHGetAll(store, failing, AccessKey(token), now)
    case Err(e) => (store, Err(e))
    case Ok(m) =>
      if m == map[] then (store, Err(NotFound))
      else if DecodeAccess(token, m).expiredAt < now then (DoDel(store, failing, AccessKey(token)).0, Err(Expired))
      else (store, Ok(DecodeAccess(token, m)))
  }

  function ReadRefresh(store: Store, failing: set<Cmd>, token: string, now: int): (Store, Result<RefreshToken, CacheError>) {
    match DoHGetAll(store, failing, RefreshKey(token), now)
    case Err(e) => (store, Err(e))
    case Ok(m) =>
      if m == map[] then (store, Err(NotFound))
      else if DecodeRefresh(token, m).expiredAt < now then (DoDel(store, failing, RefreshKey(token)).0, Err(Expired))
      else (store, Ok(DecodeRefresh(token, m)))
  }

  /** IsTokenBlacklisted: (false, error) when EXISTS fails, otherwise whether the blacklist key is visible. */
  function Blacklisted(store: Store, failing: set<Cmd>, token: string, now: int): (bool, Option<CacheError>) {
    match DoExists(store, failing, BlacklistKey(token), now)
    case Err(e) => (false, Some(e))
    case Ok(b) => (b, None)
  }

  /** GetSession: the stored record; a value that is not a session record does not decode. */
  function ReadSession(store: Store, failing: set<Cmd>, clientId: string, token: string, now: int): Result<SessionData, CacheError> {
    match DoGet(store, failing, SessionKey(clientId, token), now)
    case Err(e) => Err(e)
    case Ok(Session(d)) => Ok(d)
    case Ok(_) => Err(Decode)
  }

  /** UpdateLastActivity: a session that cannot be read is left alone; otherwise rewritten with the new activity time for 24 hours. */
  function TouchSession(store: Store, failing: set<Cmd>, clientId: string, token: string, now: int): (Store, Option<CacheError>) {
    match ReadSession(store, failing, clientId, token, now)
    case Err(_) => (store, None)
    case Ok(d) => DoSet(store, failing, SessionKey(clientId, token), Session(d.(lastActivity := now)), Day, now)
  }

  /** The sessions visible under a client's prefix. */
  function SessionsUnder(store: Store, prefix: string, now: int): set<SessionData> {
    set k | k in store && HasPrefix(k, prefix) && Live(store[k], now) && store[k].value.Session? :: store[k].value.data
  }

  /** The session record a GET of `key` yields, if the read succeeds and decodes. */
  function SessionAt(store: Store, failing: set<Cmd>, key: string, now: int): Option<SessionData> {
    match DoGet(store, failing, key, now)
    case Ok(Session(d)) => Some(d)
    case _ => None
  }

  /** The sessions that reading each of `keys` yields. */
  function SessionsAmong(store: Store, failing: set<Cmd>, keys: set<string>, now: int): set<SessionData> {
    set k | k in keys && SessionAt(store, failing, k, now).Some? :: SessionAt(store, failing, k, now).value
  }

  /** The records a list holds. */
  function Elems(s: seq<SessionData>): set<SessionData> {
    set d | d in s
  }

  lemma ElemsAppend(s: seq<SessionData>, d: SessionData)
    ensures Elems(s + [d]) == Elems(s) + {d}
  {
  }

  lemma SessionsAmongAdd(store: Store, failing: set<Cmd>, keys: set<string>, key: string, now: int)
    ensures SessionsAmong(store, failing, keys + {key}, now) ==
      SessionsAmong(store, failing, keys, now) +
      (if SessionAt(store, failing, key, now).Some? then {SessionAt(store, failing, key, now).value} else {})
  {
  }

  /** The sessions read through `keys` in that order, one per key whose GET yields a session record. */
  function SessionsOf(store: Store, failing: set<Cmd>, keys: seq<string>, now: int): seq<SessionData> {
    if keys == [] then []
    else
      var rest := SessionsOf(store, failing, keys[..|keys| - 1], now);
      match SessionAt(store, failing, keys[|keys| - 1], now)
      case Some(d) => rest + [d]
      case None => rest
  }

  /** The keys among `keys` that hold a readable session record. */
  function ReadableKeys(store: Store, failing: set<Cmd>, keys: seq<string>, now: int): set<string> {
    set k | k in keys && SessionAt(store, failing, k, now).Some?
  }

  predicate Distinct(keys: seq<string>) {
    forall i, j :: 0 <= i < j < |keys| ==> keys[i] != keys[j]
  }

  /** Reading one more key appends the session it holds, if any. */
  lemma SessionsOfSnoc(store: Store, failing: set<Cmd>, keys: seq<string>, key: string, now: int)
    ensures SessionsOf(store, failing, keys + [key], now) ==
      SessionsOf(store, failing, keys, now) +
      (if SessionAt(store, failing, key, now).Some? then [SessionAt(store, failing, key, now).value] else [])
  {
    assert (keys + [key])[..|keys|] == keys;
  }

  /** A list of distinct keys stays distinct when a key not yet in it is appended. */
  lemma DistinctSnoc(keys: seq<string>, key: string)
    requires Distinct(keys) && key !in keys
    ensures Distinct(keys + [key])
  {
  }

  /** Reading distinct keys yields exactly one record per key that holds a readable session. */
  lemma {:induction false} SessionsOfCount(store: Store, failing: set<Cmd>, keys: seq<string>, now: int)
    requires Distinct(keys)
    ensures |SessionsOf(store, failing, keys, now)| == |ReadableKeys(store, failing, keys, now)|
  {
    if keys != [] {
      var init, last := keys[..|keys| - 1], keys[|keys| - 1];
      assert keys == init + [last];
      assert Distinct(init);
      SessionsOfCount(store, failing, init, now);
      SessionsOfSnoc(store, failing, init, last, now);
      ReadableKeysSnoc(store, failing, init, last, now);
      assert last !in init by {
        forall i | 0 <= i < |init|
          ensures init[i] != last
        {
          assert init[i] == keys[i];
        }
      }
    }
  }

  lemma ReadableKeysSnoc(store: Store, failing: set<Cmd>, keys: seq<string>, key: string, now: int)
    ensures ReadableKeys(store, failing, keys + [key], now) ==
      ReadableKeys(store, failing, keys, now) + (if SessionAt(store, failing, key, now).Some? then {key} else {})
  {
  }

  /** The records read through a list of keys are the sessions those keys hold. */
  lemma {:induction false} SessionsOfElems(store: Store, failing: set<Cmd>, keys: seq<string>, now: int)
    ensures Elems(SessionsOf(store, failing, keys, now)) == SessionsAmong(store, failing, (set k | k in keys), now)
  {
    if keys != [] {
      var init, last := keys[..|keys| - 1], keys[|keys| - 1];
      assert keys == init + [last];
      assert (set k | k in keys) == (set k | k in init) + {last};
      SessionsOfElems(store, failing, init, now);
      SessionsAmongAdd(store, failing, (set k | k in init), last, now);
      var rest := SessionsOf(store, failing, init, now);
      if SessionAt(store, failing, last, now).Some? {
        ElemsAppend(rest, SessionAt(store, failing, last, now).value);
      }
    }
  }

  /**
   * Reading every visible key under a prefix yields exactly the sessions stored there, and
   * nothing at all while GET fails.
   */
  lemma SessionsAmongKeys(store: Store, failing: set<Cmd>, prefix: string, now: int)
    requires DoKeys(store, failing, prefix, now).Ok?
    ensures SessionsAmong(store, failing, DoKeys(store, failing, prefix, now).value, now) ==
      if GetCmd in failing then {} else SessionsUnder(store, prefix, now)
  {
    var keys := DoKeys(store, failing, prefix, now).value;
    if GetCmd !in failing {
      forall d | d in SessionsUnder(store, prefix, now)
        ensures d in SessionsAmong(store, failing, keys, now)
      {
        var k :| k in store && HasPrefix(k, prefix) && Live(store[k], now) && store[k].value.Session? && store[k].value.data == d;
        assert SessionAt(store, failing, k, now) == Some(d);
      }
    }
  }
  /**
   * Reading each visible key under a prefix once, in any order, yields one record per key that
   * holds a readable session, and exactly the sessions stored there (none while GET fails).
   */
  lemma ListedInAnyOrder(store: Store, failing: set<Cmd>, prefix: string, order: seq<string>, now: int)
    requires DoKeys(store, failing, prefix, now).Ok?
    requires Distinct(order) && (set k | k in order) == DoKeys(store, failing, prefix, now).value
    ensures |SessionsOf(store, failing, order, now)| == |ReadableKeys(store, failing, order, now)|
    ensures Elems(SessionsOf(store, failing, order, now)) == if GetCmd in failing then {} else SessionsUnder(store, prefix, now)
  {
    SessionsOfCount(store, failing, order, now);
    SessionsOfElems(store, failing, order, now);
    SessionsAmongKeys(store, failing, prefix, now);
  }


  /** CheckRateLimit: (count < max) with a missing key counting 0; any other read error allows, reporting the error. */
  function RateCheck(store: Store, failing: set<Cmd>, key: string, max: int, now: int): (bool, Option<CacheError>) {
    match DoGet(store, failing, key, now)
    case Err(Nil) => (0 < max, None)
    case Err(e) => (true, Some(e))
    case Ok(v) =>
      match IntOf(v)
      case Err(e) => (true, Some(e))
      case Ok(count) => (count < max, None)
  }

  /** IncrementRateLimit: a pipeline of INCR and EXPIRE; each runs on its own, the first failure is reported. */
  function RateBump(store: Store, failing: set<Cmd>, key: string, ttl: int, now: int): (Store, Option<CacheError>) {
    var (s1, incr) := DoIncr(store, failing, key, now);
    var (s2, expire) := DoExpire(s1, failing, key, ttl, now);
    (s2, if incr.Err? then Some(incr.error) else expire)
  }

  /** GetRateLimitCount: 0 for a missing key; otherwise what `.Int()` gives, with its error. */
  function RateCount(store: Store, failing: set<Cmd>, key: string, now: int): (int, Option<CacheError>) {
    match DoGet(store, failing, key, now)
    case Err(Nil) => (0, None)
    case Err(e) => (0, Some(e))
    case Ok(v) =>
      match v
      case Str(s) => (Atoi(s).value, if Atoi(s).err.None? then None else Some(NotInteger))
      case _ => (0, Some(NotInteger))
  }

  /** CacheClient: HSET of the five fields, then a 5-minute expiry; a failed HSET stops there. */
  function WriteClient(store: Store, failing: set<Cmd>, clientId: string, data: ClientWithSecrets, now: int): (Store, Option<CacheError>) {
    var (s1, err) := DoHSet(store, failing, ClientKey(clientId), ClientFields(data), now);
    if err.Some? then (s1, err) else DoExpire(s1, failing, ClientKey(clientId), ClientTtl, now)
  }

  /** GetCachedClient: "not found" for an empty hash; otherwise the decoded client with ClientId from the key. */
  function ReadClient(store: Store, failing: set<Cmd>, clientId: string, now: int): Result<ClientWithSecrets, CacheError> {
    match DoHGetAll(store, failing, ClientKey(clientId), now)
    case Err(e) => Err(e)
    case Ok(m) => if m == map[] then Err(NotFound) else Ok(DecodeClient(clientId, m))
  }

  // ------------------------------------------------------------ properties

  /** A key that holds nothing, or a hash still visible at `later`: HSET on it succeeds and stays readable. */
  predicate HashSlot(store: Store, key: string, now: int, later: int) {
    match Lookup(store, key, now)
    case None => true
    case Some(v) => v.Hash? && Live(store[key], later)
  }

  /** HSET leaves every written field readable, over whatever the hash held. */
  lemma HSetHolds(store: Store, failing: set<Cmd>, key: string, fields: map<string, string>, now: int, later: int)
    requires HSetCmd !in failing && HGetAllCmd !in failing && now <= later
    requires HashSlot(store, key, now, later)
    ensures DoHSet(store, failing, key, fields, now).1 == None
    ensures var m := DoHGetAll(DoHSet(store, failing, key, fields, now).0, failing, key, later);
      m.Ok? && (forall k :: k in fields ==> k in m.value && m.value[k] == fields[k])
  {
  }

  /** Caching a token that has already expired writes nothing. */
  lemma CachingExpiredTokenWritesNothing(store: Store, failing: set<Cmd>, token: string, access: AccessToken, refresh: RefreshToken, now: int)
    requires access.expiredAt <= now && refresh.expiredAt <= now
    ensures WriteAccess(store, failing, token, access, now) == (store, None)
    ensures WriteRefresh(store, failing, token, refresh, now) == (store, None)
  {
  }

  /**
   * An access token cached before its expiry reads back, until that expiry, with its owner and
   * times; the row id is not cached and reads as 0.
   */
  lemma AccessRoundTrip(store: Store, failing: set<Cmd>, token: string, data: AccessToken, now: int, later: int)
    requires HSetCmd !in failing && HGetAllCmd !in failing
    requires Int64.InRange(data.createdAt) && Int64.InRange(data.expiredAt)
    requires now < data.expiredAt && now <= later <= data.expiredAt
    requires HashSlot(store, AccessKey(token), now, later)
    ensures WriteAccess(store, failing, token, data, now).1 == None
    ensures var s := WriteAccess(store, failing, token, data, now).0;
      ReadAccess(s, failing, token, later) == (s, Ok(data.(id := 0, token := token)))
  {
    HSetHolds(store, failing, AccessKey(token), AccessFields(data), now, later);
    var m := DoHGetAll(WriteAccess(store, failing, token, data, now).0, failing, AccessKey(token), later).value;
    assert Field(m, "created_at") == Itoa(data.createdAt) && Field(m, "expired_at") == Itoa(data.expiredAt);
    ParseIntOfItoa(data.createdAt);
    ParseIntOfItoa(data.expiredAt);
    assert DecodeAccess(token, m) == data.(id := 0, token := token);
  }

  /** A token read looks at the token's own key only: stores that agree there read alike. */
  lemma ReadAccessSeesOnlyItsKey(s: Store, t: Store, failing: set<Cmd>, token: string, now: int)
    requires AccessKey(token) in s <==> AccessKey(token) in t
    requires AccessKey(token) in s ==> s[AccessKey(token)] == t[AccessKey(token)]
    ensures ReadAccess(s, failing, token, now).1 == ReadAccess(t, failing, token, now).1
  {
    assert DoHGetAll(s, failing, AccessKey(token), now) == DoHGetAll(t, failing, AccessKey(token), now);
  }

  /** Once its expiry has passed, a cached access token reads as expired and its key is deleted. */
  lemma AccessExpiresAfterDeadline(store: Store, failing: set<Cmd>, token: string, data: AccessToken, now: int, later: int)
    requires HSetCmd !in failing && HGetAllCmd !in failing && DelCmd !in failing
    requires Int64.InRange(data.createdAt) && Int64.InRange(data.expiredAt)
    requires now < data.expiredAt < later
    requires HashSlot(store, AccessKey(token), now, later)
    ensures var s := WriteAccess(store, failing, token, data, now).0;
      ReadAccess(s, failing, token, later) == (s - {AccessKey(token)}, Err(Expired))
  {
    HSetHolds(store, failing, AccessKey(token), AccessFields(data), now, later);
    var m := DoHGetAll(WriteAccess(store, failing, token, data, now).0, failing, AccessKey(token), later).value;
    assert Field(m, "expired_at") == Itoa(data.expiredAt);
    ParseIntOfItoa(data.expiredAt);
    assert DecodeAccess(token, m).expiredAt == data.expiredAt;
  }

  /** A refresh token cached before its expiry reads back with its owner, times and access-token id. */
  lemma RefreshRoundTrip(store: Store, failing: set<Cmd>, token: string, data: RefreshToken, now: int, later: int)
    requires HSetCmd !in failing && HGetAllCmd !in failing
    requires Int64.InRange(data.createdAt) && Int64.InRange(data.expiredAt) && data.accessTokenId <= MaxUint32
    requires now < data.expiredAt && now <= later <= data.expiredAt
    requires HashSlot(store, RefreshKey(token), now, later)
    ensures WriteRefresh(store, failing, token, data, now).1 == None
    ensures var s := WriteRefresh(store, failing, token, data, now).0;
      ReadRefresh(s, failing, token, later) == (s, Ok(data.(id := 0, token := token)))
  {
    HSetHolds(store, failing, RefreshKey(token), RefreshFields(data), now, later);
    var m := DoHGetAll(WriteRefresh(store, failing, token, data, now).0, failing, RefreshKey(token), later).value;
    assert Field(m, "created_at") == Itoa(data.createdAt) && Field(m, "expired_at") == Itoa(data.expiredAt);
    assert Field(m, "access_token_id") == Itoa(data.accessTokenId);
    ParseIntOfItoa(data.createdAt);
    ParseIntOfItoa(data.expiredAt);
    ParseUint32OfItoa(data.accessTokenId);
    assert DecodeRefresh(token, m) == data.(id := 0, token := token);
  }

  /** An access-token id above 2^32 - 1 does not survive the cache: it reads back as 2^32 - 1. */
  lemma RefreshIdClamped(m: map<string, string>, token: string, id: nat)
    requires "access_token_id" in m && m["access_token_id"] == Itoa(id) && id > MaxUint32
    ensures DecodeRefresh(token, m).accessTokenId == MaxUint32
  {
    ValueOfDigitsOf(id);
  }

  /** A token the cache does not hold is "not found", and nothing changes. */
  lemma MissingTokenNotFound(store: Store, failing: set<Cmd>, token: string, now: int)
    requires HGetAllCmd !in failing
    requires Lookup(store, AccessKey(token), now).None? && Lookup(store, RefreshKey(token), now).None?
    ensures ReadAccess(store, failing, token, now) == (store, Err(NotFound))
    ensures ReadRefresh(store, failing, token, now) == (store, Err(NotFound))
  {
  }

  /**
   * A blacklisted token reads as blacklisted exactly until its time-to-live runs out, and
   * blacklisting one token says nothing about any other.
   */
  lemma BlacklistHolds(store: Store, failing: set<Cmd>, token: string, other: string, ttl: int, now: int, later: int)
    requires SetCmd !in failing && ExistsCmd !in failing && ttl > 0 && now <= later
    requires other != token
    ensures var s := DoSet(store, failing, BlacklistKey(token), Str("1"), ttl, now).0;
      Blacklisted(s, failing, token, later) == (later < now + ttl, None) &&
      Blacklisted(s, failing, other, later) == Blacklisted(store, failing, other, later)
  {
    KeyFamiliesDisjoint(token, other, "");
  }

  /** DeleteTokenFromCache removes the access-token entry and nothing else. */
  lemma DeleteTouchesOnlyAccessKey(store: Store, failing: set<Cmd>, token: string)
    requires DelCmd !in failing
    ensures var s := DoDel(store, failing, AccessKey(token)).0;
      AccessKey(token) !in s &&
      forall k :: k != AccessKey(token) ==> (k in s <==> k in store) && (k in s ==> s[k] == store[k])
  {
  }

  /** UpdateLastActivity on a session that cannot be read changes nothing and reports no error. */
  lemma TouchMissingSession(store: Store, failing: set<Cmd>, clientId: string, token: string, now: int)
    requires ReadSession(store, failing, clientId, token, now).Err?
    ensures TouchSession(store, failing, clientId, token, now) == (store, None)
  {
  }

  /**
   * UpdateLastActivity on a live session changes only its activity time and restarts its
   * life at exactly 24 hours, whatever was left of it; no other key changes.
   */
  lemma TouchLiveSession(store: Store, failing: set<Cmd>, clientId: string, token: string, now: int, later: int)
    requires GetCmd !in failing && SetCmd !in failing && now <= later < now + Day
    requires ReadSession(store, failing, clientId, token, now).Ok?
    ensures var d := ReadSession(store, failing, clientId, token, now).value;
      var s := TouchSession(store, failing, clientId, token, now).0;
      ReadSession(s, failing, clientId, token, later) == Ok(d.(lastActivity := now)) &&
      ReadSession(s, failing, clientId, token, now + Day) == Err(Nil)
    ensures var s := TouchSession(store, failing, clientId, token, now).0;
      s.Keys == store.Keys && forall k :: k in s && k != SessionKey(clientId, token) ==> s[k] == store[k]
  {
  }

  /** The first request of a window: a missing counter counts 0 and becomes 1 for `ttl` seconds. */
  lemma RateFirstRequest(store: Store, failing: set<Cmd>, key: string, max: int, ttl: int, now: int)
    requires GetCmd !in failing && IncrCmd !in failing && ExpireCmd !in failing && ttl > 0
    requires Lookup(store, key, now).None?
    ensures RateCheck(store, failing, key, max, now) == (0 < max, None)
    ensures RateCount(store, failing, key, now) == (0, None)
    ensures RateBump(store, failing, key, ttl, now) == (store[key := Entry(Str("1"), Some(now + ttl))], None)
  {
    var s1 := store[key := Entry(Str("1"), None)];
    assert DoIncr(store, failing, key, now) == (s1, Ok(1));
    assert DoExpire(s1, failing, key, ttl, now).0 == store[key := Entry(Str("1"), Some(now + ttl))];
  }

  /** A later request: the counter n is compared with the maximum, then becomes n + 1 with the window restarted. */
  lemma RateLaterRequest(store: Store, failing: set<Cmd>, key: string, n: int, max: int, ttl: int, now: int)
    requires GetCmd !in failing && IncrCmd !in failing && ExpireCmd !in failing && ttl > 0
    requires 0 <= n < Int64.Max
    requires Lookup(store, key, now) == Some(Str(Itoa(n)))
    ensures RateCheck(store, failing, key, max, now) == (n < max, None)
    ensures RateCount(store, failing, key, now) == (n, None)
    ensures RateBump(store, failing, key, ttl, now) == (store[key := Entry(Str(Itoa(n + 1)), Some(now + ttl))], None)
  {
    ParseIntOfItoa(n);
    RedisIntegerOfItoa(n);
    var s1 := store[key := Entry(Str(Itoa(n + 1)), store[key].expiresAt)];
    assert DoIncr(store, failing, key, now) == (s1, Ok(n + 1));
    assert DoExpire(s1, failing, key, ttl, now).0 == store[key := Entry(Str(Itoa(n + 1)), Some(now + ttl))];
  }

  /** A counter that cannot be read lets the request through and reports why. */
  lemma RateCheckFailsOpen(store: Store, failing: set<Cmd>, key: string, max: int, now: int)
    requires GetCmd in failing
    ensures RateCheck(store, failing, key, max, now) == (true, Some(Unreachable(GetCmd)))
  {
  }

  /**
   * A client cached at `now` reads back for five minutes with its name, email, flag and both
   * secrets, and after that is "not found".
   */
  lemma ClientRoundTrip(store: Store, failing: set<Cmd>, clientId: string, data: ClientWithSecrets, now: int, later: int)
    requires HSetCmd !in failing && ExpireCmd !in failing && HGetAllCmd !in failing && now <= later
    requires HashSlot(store, ClientKey(clientId), now, now)
    ensures WriteClient(store, failing, clientId, data, now).1 == None
    ensures var s := WriteClient(store, failing, clientId, data, now).0;
      ReadClient(s, failing, clientId, later) ==
        if later < now + ClientTtl then
          Ok(ClientWithSecrets(User(0, 0, clientId, data.user.name, data.user.email, data.user.isActive, ""),
                               Secret(0, 0, clientId, data.secret.secret, data.secret.secondarySecret)))
        else Err(NotFound)
  {
    var key := ClientKey(clientId);
    var fields := ClientFields(data);
    HSetHolds(store, failing, key, fields, now, now);
    var s1 := DoHSet(store, failing, key, fields, now).0;
    var m := DoHGetAll(s1, failing, key, now).value;
    assert Lookup(s1, key, now) == Some(Hash(m));
    var s2 := s1[key := s1[key].(expiresAt := Some(now + ClientTtl))];
    assert WriteClient(store, failing, clientId, data, now) == (s2, None);
    if later < now + ClientTtl {
      assert Lookup(s2, key, later) == Some(Hash(m));
      ParseBoolOfFormatBool(data.user.isActive);
      assert "name" in m;
      ReadClientDecodes(s2, failing, clientId, later, m, data);
    } else {
      assert Lookup(s2, key, later) == None;
    }
  }

  /** Reading back a hash that holds the five client fields yields the client they describe. */
  lemma ReadClientDecodes(s: Store, failing: set<Cmd>, clientId: string, later: int, m: map<string, string>, data: ClientWithSecrets)
    requires HGetAllCmd !in failing && Lookup(s, ClientKey(clientId), later) == Some(Hash(m))
    requires forall k :: k in ClientFields(data) ==> k in m && m[k] == ClientFields(data)[k]
    ensures ReadClient(s, failing, clientId, later) ==
      Ok(ClientWithSecrets(User(0, 0, clientId, data.user.name, data.user.email, data.user.isActive, ""),
                           Secret(0, 0, clientId, data.secret.secret, data.secret.secondarySecret)))
  {
    var fields := ClientFields(data);
    assert "name" in fields && "email" in fields && "is_active" in fields && "secret" in fields && "secondary_secret" in fields;
    assert m != map[] by {
      assert "name" in m;
    }
    ParseBoolOfFormatBool(data.user.isActive);
    assert Field(m, "is_active") == FormatBool(data.user.isActive);
  }

  /** When EXPIRE fails after a successful HSET, the client stays cached with no expiry at all. */
  lemma ClientWithoutExpiryWhenExpireFails(store: Store, failing: set<Cmd>, clientId: string, data: ClientWithSecrets, now: int)
    requires HSetCmd !in failing && ExpireCmd in failing
    requires Lookup(store, ClientKey(clientId), now).None?
    ensures var (s, err) := WriteClient(store, failing, clientId, data, now);
      err == Some(Unreachable(ExpireCmd)) && s[ClientKey(clientId)] == Entry(Hash(ClientFields(data)), None)
  {
  }

  // ------------------------------------------------------------ the cache object

  class RedisCache {
    var store: Store
    const failing: set<Cmd>

    constructor (store: Store, failing: set<Cmd>)
      ensures this.store == store && this.failing == failing
    {
      this.store := store;
      this.failing := failing;
    }

    method CacheAccessToken(token: string, data: AccessToken, now: int) returns (err: Option<CacheError>)
      modifies this
      ensures (store, err) == WriteAccess(old(store), failing, token, data, now)
    {
      var key := AccessKey(token);
      var tokenData := AccessFields(data);
      var ttl := data.expiredAt - now;
      if ttl <= 0 {
        return None;
      }
      var (s, e) := DoHSet(store, failing, key, tokenData, now);
      store := s;
      return e;
    }

    method CacheRefreshToken(token: string, data: RefreshToken, now: int) returns (err: Option<CacheError>)
      modifies this
      ensures (store, err) == WriteRefresh(old(store), failing, token, data, now)
    {
      var key := RefreshKey(token);
      var tokenData := RefreshFields(data);
      var ttl := data.expiredAt - now;
      if ttl <= 0 {
        return None;
      }
      var (s, e) := DoHSet(store, failing, key, tokenData, now);
      store := s;
      return e;
    }

    method GetAccessToken(token: string, now: int) returns (r: Result<AccessToken, CacheError>)
      modifies this
      ensures (store, r) == ReadAccess(old(store), failing, token, now)
    {
      var key := AccessKey(token);
      var result := DoHGetAll(store, failing, key, now);
      if result.Err? {
        return Err(result.error);
      }
      if result.value == map[] {
        return Err(NotFound);
      }
      var accessToken := DecodeAccess(token, result.value);
      if accessToken.expiredAt < now {
        store := DoDel(store, failing, key).0;
        return Err(Expired);
      }
      return Ok(accessToken);
    }

    method GetRefreshToken(token: string, now: int) returns (r: Result<RefreshToken, CacheError>)
      modifies this
      ensures (store, r) == ReadRefresh(old(store), failing, token, now)
    {
      var key := RefreshKey(token);
      var result := DoHGetAll(store, failing, key, now);
      if result.Err? {
        return Err(result.error);
      }
      if result.value == map[] {
        return Err(NotFound);
      }
      var refreshToken := DecodeRefresh(token, result.value);
      if refreshToken.expiredAt < now {
        store := DoDel(store, failing, key).0;
        return Err(Expired);
      }
      return Ok(refreshToken);
    }

    method BlacklistToken(token: string, ttl: int, now: int) returns (err: Option<CacheError>)
      modifies this
      ensures (store, err) == DoSet(old(store), failing, BlacklistKey(token), Str("1"), ttl, now)
    {
      var (s, e) := DoSet(store, failing, BlacklistKey(token), Str("1"), ttl, now);
      store := s;
      return e;
    }

    method IsTokenBlacklisted(token: string, now: int) returns (blacklisted: bool, err: Option<CacheError>)
      ensures (blacklisted, err) == Blacklisted(store, failing, token, now)
    {
      var reply := DoExists(store, failing, BlacklistKey(token), now);
      if reply.Err? {
        return false, Some(reply.error);
      }
      return reply.value, None;
    }

    method DeleteTokenFromCache(token: string) returns (err: Option<CacheError>)
      modifies this
      ensures (store, err) == DoDel(old(store), failing, AccessKey(token))
    {
      var (s, e) := DoDel(store, failing, AccessKey(token));
      store := s;
      return e;
    }

    method CreateSession(clientId: string, token: string, data: SessionData, now: int) returns (err: Option<CacheError>)
      modifies this
      ensures (store, err) == DoSet(old(store), failing, SessionKey(clientId, token), Session(data), Day, now)
    {
      var (s, e) := DoSet(store, failing, SessionKey(clientId, token), Session(data), Day, now);
      store := s;
      return e;
    }

    method GetSession(clientId: string, token: string, now: int) returns (r: Result<SessionData, CacheError>)
      ensures r == ReadSession(store, failing, clientId, token, now)
    {
      var data := DoGet(store, failing, SessionKey(clientId, token), now);
      if data.Err? {
        return Err(data.error);
      }
      if !data.value.Session? {
        return Err(Decode);
      }
      return Ok(data.value.data);
    }

    method UpdateLastActivity(clientId: string, token: string, now: int) returns (err: Option<CacheError>)
      modifies this
      ensures (store, err) == TouchSession(old(store), failing, clientId, token, now)
    {
      var key := SessionKey(clientId, token);
      var session := GetSession(clientId, token, now);
      if session.Err? {
        return None;
      }
      var updated := session.value.(lastActivity := now);
      var (s, e) := DoSet(store, failing, key, Session(updated), Day, now);
      store := s;
      return e;
    }

    /**
     * ListSessions: the sessions under the client's prefix, read one key at a time in the
     * order KEYS returned them (`order`, which Redis leaves unspecified); keys whose read
     * fails or whose value is not a session record are skipped.
     */
    method ListSessions(clientId: string, now: int) returns (r: Result<seq<SessionData>, CacheError>, ghost order: seq<string>)
      ensures DoKeys(store, failing, SessionPrefix(clientId), now).Err? ==>
        r == Err(DoKeys(store, failing, SessionPrefix(clientId), now).error)
      ensures DoKeys(store, failing, SessionPrefix(clientId), now).Ok? ==>
        Distinct(order) && (set k | k in order) == DoKeys(store, failing, SessionPrefix(clientId), now).value &&
        r == Ok(SessionsOf(store, failing, order, now)) &&
        |r.value| == |ReadableKeys(store, failing, order, now)|
      ensures DoKeys(store, failing, SessionPrefix(clientId), now).Ok? ==>
        (r.Ok? && Elems(r.value) == if GetCmd in failing then {} else SessionsUnder(store, SessionPrefix(clientId), now))
    {
      var prefix := SessionPrefix(clientId);
      var found := DoKeys(store, failing, prefix, now);
      order := [];
      if found.Err? {
        return Err(found.error), order;
      }
      var remaining := found.value;
      var sessions: seq<SessionData> := [];
      while remaining != {}
        invariant Distinct(order)
        invariant forall k :: k in remaining ==> k !in order
        invariant forall k :: k in found.value <==> k in remaining || k in order
        invariant sessions == SessionsOf(store, failing, order, now)
        decreases |remaining|
      {
        var key :| key in remaining;
        var read := SessionAt(store, failing, key, now);
        SessionsOfSnoc(store, failing, order, key, now);
        DistinctSnoc(order, key);
        if read.Some? {
          sessions := sessions + [read.value];
        }
        order := order + [key];
        remaining := remaining - {key};
      }
      assert (set k | k in order) == found.value;
      ListedInAnyOrder(store, failing, prefix, order, now);
      return Ok(sessions), order;
    }

    method DeleteSession(clientId: string, token: string) returns (err: Option<CacheError>)
      modifies this
      ensures (store, err) == DoDel(old(store), failing, SessionKey(clientId, token))
    {
      var (s, e) := DoDel(store, failing, SessionKey(clientId, token));
      store := s;
      return e;
    }

    method CheckRateLimit(key: string, max: int, ttl: int, now: int) returns (allowed: bool, err: Option<CacheError>)
      ensures (allowed, err) == RateCheck(store, failing, key, max, now)
    {
      var reply := DoGet(store, failing, key, now);
      var count := 0;
      if reply.Err? {
        if reply.error != Nil {
          return true, Some(reply.error);
        }
      } else {
        var n := IntOf(reply.value);
        if n.Err? {
          return true, Some(n.error);
        }
        count := n.value;
      }
      return count < max, None;
    }

    method IncrementRateLimit(key: string, ttl: int, now: int) returns (err: Option<CacheError>)
      modifies this
      ensures (store, err) == RateBump(old(store), failing, key, ttl, now)
    {
      var (s1, incr) := DoIncr(store, failing, key, now);
      var (s2, expire) := DoExpire(s1, failing, key, ttl, now);
      store := s2;
      err := if incr.Err? then Some(incr.error) else expire;
    }

    method GetRateLimitCount(key: string, now: int) returns (count: int, err: Option<CacheError>)
      ensures (count, err) == RateCount(store, failing, key, now)
    {
      var reply := DoGet(store, failing, key, now);
      if reply.Err? {
        if reply.error == Nil {
          return 0, None;
        }
        return 0, Some(reply.error);
      }
      if !reply.value.Str? {
        return 0, Some(NotInteger);
      }
      var p := Atoi(reply.value.s);
      return p.value, if p.err.None? then None else Some(NotInteger);
    }

    method CacheClient(clientId: string, data: ClientWithSecrets, now: int) returns (err: Option<CacheError>)
      modifies this
      ensures (store, err) == WriteClient(old(store), failing, clientId, data, now)
    {
      var key := ClientKey(clientId);
      var (s1, e1) := DoHSet(store, failing, key, ClientFields(data), now);
      store := s1;
      if e1.Some? {
        return e1;
      }
      var (s2, e2) := DoExpire(store, failing, key, ClientTtl, now);
      store := s2;
      return e2;
    }

    method GetCachedClient(clientId: string, now: int) returns (r: Result<ClientWithSecrets, CacheError>)
      ensures r == ReadClient(store, failing, clientId, now)
    {
      var result := DoHGetAll(store, failing, ClientKey(clientId), now);
      if result.Err? {
        return Err(result.error);
      }
      if result.value == map[] {
        return Err(NotFound);
      }
      return Ok(DecodeClient(clientId, result.value));
    }

    method InvalidateClient(clientId: string) returns (err: Option<CacheError>)
      modifies this
      ensures (store, err) == DoDel(old(store), failing, ClientKey(clientId))
    {
      var (s, e) := DoDel(store, failing, ClientKey(clientId));
      store := s;
      return e;
    }
  }
}
