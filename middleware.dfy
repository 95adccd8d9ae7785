/**
 * The two request filters of auth/middleware: the bearer-token authenticator and the
 * per-address rate limiter. Calling the next handler is modelled by the filter's outcome.
 */
module Middleware {
  import opened Wrappers
  import opened Text
  import opened Models
  import opened Tables
  import opened Cache
  import Int64
  import opened Strconv
  import AuthRepo
  import AuthService

  // ------------------------------------------------------------ authentication

  /** The filter either answers 401 with a message, or calls the next handler with client_id and token set. */
  datatype AuthOutcome = Rejected(status: int, message: string) | Accepted(clientId: string, token: string)

  /** The Authorization header check: non-empty, then exactly "Bearer" and one token around a single space. */
  function ParseBearer(header: string): Result<string, string> {
    if header == "" then Err("Missing authorization header")
    else
      var parts := Split(header, ' ');
      if |parts| != 2 || parts[0] != "Bearer" then Err("Invalid authorization format")
      else Ok(parts[1])
  }

  /** A header is accepted exactly when it is "Bearer " followed by a token without spaces, and yields that token. */
  lemma BearerExactly(header: string, token: string)
    ensures ParseBearer(header) == Ok(token) <==> header == "Bearer " + token && ' ' !in token
  {
    if header == "Bearer " + token && ' ' !in token {
      assert ' ' !in "Bearer";
      assert header == "Bearer" + [' '] + token;
      SplitAfterFirst("Bearer", ' ', token);
      SplitWithoutSeparator(token, ' ');
    }
    if ParseBearer(header) == Ok(token) {
      var parts := Split(header, ' ');
      assert parts == [parts[0], parts[1]];
      assert Join(parts, ' ') == parts[0] + [' '] + Join(parts[1..], ' ');
      assert parts[1..] == [token];
    }
  }

  /** A header that is not "Bearer " followed by a space-free token is refused. */
  lemma NotBearerRefused(header: string)
    requires forall t: string :: header == "Bearer " + t ==> ' ' in t
    ensures ParseBearer(header).Err?
  {
    if ParseBearer(header).Ok? {
      BearerExactly(header, ParseBearer(header).value);
    }
  }

  /** A header that does not start with "Bearer " is refused. */
  lemma NotBearerPrefixRefused(header: string)
    requires |header| < 7 || header[..7] != "Bearer "
    ensures ParseBearer(header).Err?
  {
    if ParseBearer(header).Ok? {
      BearerExactly(header, ParseBearer(header).value);
    }
  }

  /** The header forms the filter refuses: a lower-case scheme, a doubled space, a token with a space. */
  lemma BearerRejections(token: string)
    ensures ParseBearer("bearer " + token).Err?
    ensures ParseBearer("Bearer  " + token).Err?
    ensures ParseBearer("Bearer a b").Err?
  {
    var lower, doubled, spaced := "bearer " + token, "Bearer  " + token, "Bearer a b";
    assert lower[..7] != "Bearer " by {
      assert lower[0] == 'b';
    }
    NotBearerPrefixRefused(lower);
    forall t: string | doubled == "Bearer " + t
      ensures ' ' in t
    {
      assert t == doubled[7..];
      assert t[0] == ' ';
    }
    NotBearerRefused(doubled);
    forall t: string | spaced == "Bearer " + t
      ensures ' ' in t
    {
      assert t == spaced[7..];
      assert t[1] == ' ';
    }
    NotBearerRefused(spaced);
  }

  /**
   * The filter with a cache: a blacklisted token is refused before any lookup (a failed
   * blacklist check counts as "not blacklisted"); then the token must be valid; the session's
   * activity time is refreshed, its outcome ignored.
   */
  function AuthWithCache(entries: Store, failing: set<Cmd>, rows: seq<AccessToken>, unavailable: set<Table>, header: string, now: int): (Store, AuthOutcome) {
    match ParseBearer(header)
    case Err(msg) => (entries, Rejected(401, msg))
    case Ok(token) =>
      if Blacklisted(entries, failing, token, now) == (true, None) then (entries, Rejected(401, "User has been logged out"))
      else
        var (s1, found) := AuthRepo.AccessAside(entries, failing, QueryAccess(rows, unavailable, token, now), token, now);
        if found.Err? then (s1, Rejected(401, "Invalid or expired token"))
        else (TouchSession(s1, failing, found.value.clientId, token, now).0, Accepted(found.value.clientId, token))
  }

  /** The filter without a cache: the tables alone decide. */
  function AuthWithoutCache(rows: seq<AccessToken>, unavailable: set<Table>, header: string, now: int): AuthOutcome {
    match ParseBearer(header)
    case Err(msg) => Rejected(401, msg)
    case Ok(token) =>
      match QueryAccess(rows, unavailable, token, now)
      case Err(_) => Rejected(401, "Invalid or expired token")
      case Ok(t) => Accepted(t.clientId, token)
  }

  /** An empty header is refused before the cache or the tables are consulted. */
  lemma EmptyHeaderRefused(entries: Store, failing: set<Cmd>, rows: seq<AccessToken>, unavailable: set<Table>, now: int)
    ensures AuthWithCache(entries, failing, rows, unavailable, "", now) == (entries, Rejected(401, "Missing authorization header"))
    ensures AuthWithoutCache(rows, unavailable, "", now) == Rejected(401, "Missing authorization header")
  {
  }

  /** A blacklisted token is refused whatever the tables hold, and nothing in the cache changes. */
  lemma BlacklistedRefused(entries: Store, failing: set<Cmd>, rows: seq<AccessToken>, unavailable: set<Table>, token: string, now: int)
    requires ' ' !in token
    requires ExistsCmd !in failing && Lookup(entries, BlacklistKey(token), now).Some?
    ensures AuthWithCache(entries, failing, rows, unavailable, "Bearer " + token, now) == (entries, Rejected(401, "User has been logged out"))
  {
    BearerExactly("Bearer " + token, token);
  }

  /** When the blacklist cannot be read the filter fails open: the token lookup alone decides. */
  lemma BlacklistCheckFailsOpen(entries: Store, failing: set<Cmd>, rows: seq<AccessToken>, unavailable: set<Table>, token: string, now: int)
    requires ' ' !in token && ExistsCmd in failing
    ensures var (s1, found) := AuthRepo.AccessAside(entries, failing, QueryAccess(rows, unavailable, token, now), token, now);
      AuthWithCache(entries, failing, rows, unavailable, "Bearer " + token, now).1 ==
        if found.Err? then Rejected(401, "Invalid or expired token") else Accepted(found.value.clientId, token)
  {
    BearerExactly("Bearer " + token, token);
  }

  /** Without a cache, a well-formed header is accepted exactly when the tables hold a valid token. */
  lemma WithoutCacheTablesDecide(rows: seq<AccessToken>, unavailable: set<Table>, token: string, now: int)
    requires ' ' !in token
    ensures AuthWithoutCache(rows, unavailable, "Bearer " + token, now).Accepted? <==> QueryAccess(rows, unavailable, token, now).Ok?
    ensures AuthWithoutCache(rows, unavailable, "Bearer " + token, now).Accepted? ==>
      AuthWithoutCache(rows, unavailable, "Bearer " + token, now) == Accepted(QueryAccess(rows, unavailable, token, now).value.clientId, token)
  {
    BearerExactly("Bearer " + token, token);
  }

  /** After a successful logout the token is refused as logged out for the rest of its lifetime. */
  lemma LoggedOutTokenRefused(entries: Store, failing: set<Cmd>, rows: seq<AccessToken>, unavailable: set<Table>, token: string, now: int, later: int)
    requires ' ' !in token
    requires SetCmd !in failing && ExistsCmd !in failing && DelCmd !in failing
    requires var found := AuthRepo.AccessAside(entries, failing, QueryAccess(rows, unavailable, token, now), token, now).1;
      found.Ok? && now <= later < found.value.expiredAt
    ensures var s := AuthService.LogoutEffect(entries, failing, QueryAccess(rows, unavailable, token, now), token, now).0;
      AuthWithCache(s, failing, rows, unavailable, "Bearer " + token, later) == (s, Rejected(401, "User has been logged out"))
  {
    AuthService.LogoutBlacklistsRemainingLifetime(entries, failing, QueryAccess(rows, unavailable, token, now), token, now, later);
    BearerExactly("Bearer " + token, token);
  }

  /**
   * The access token a login stores authenticates its client for the next 24 hours, through
   * the cache and through the tables alike, as long as it is not blacklisted; this holds even
   * when the refresh-token insert then fails and the login reports an error.
   */
  lemma IssuedTokenAccepted(s0: Store, failing: set<Cmd>, rows: seq<AccessToken>, unavailable: set<Table>, lastAccessId: nat,
                            clientId: string, token: string, f: RefreshToken, refreshOk: bool, session: SessionData, now: int, t: int)
    requires ' ' !in token && HSetCmd !in failing && HGetAllCmd !in failing
    requires AccessTokens !in unavailable && !AccessClash(rows, AuthService.NewAccess(lastAccessId, clientId, token, now))
    requires Lookup(s0, AccessKey(token), now).None? && Int64.InRange(now) && Int64.InRange(now + Day)
    requires now <= t < now + Day && Lookup(s0, BlacklistKey(token), t).None?
    ensures var a := AuthService.NewAccess(lastAccessId, clientId, token, now);
      var s := AuthService.IssueStore(s0, failing, a, f, true, refreshOk, session, now);
      AuthWithCache(s, failing, rows + [a], unavailable, "Bearer " + token, t).1 == Accepted(clientId, token) &&
      AuthWithoutCache(rows + [a], unavailable, "Bearer " + token, t) == Accepted(clientId, token)
  {
    var a := AuthService.NewAccess(lastAccessId, clientId, token, now);
    var s1 := WriteAccess(s0, failing, token, a, now).0;
    var s := AuthService.IssueStore(s0, failing, a, f, true, refreshOk, session, now);
    BearerExactly("Bearer " + token, token);
    KeyFamiliesDisjoint(token, token, clientId);
    KeyFamiliesDisjoint(token, f.token, clientId);
    KeyFamiliesDisjoint(f.token, token, clientId);
    AuthService.IssueStoreTouches(s0, failing, a, f, refreshOk, session, now, BlacklistKey(token));
    AuthService.IssueStoreTouches(s0, failing, a, f, refreshOk, session, now, AccessKey(token));
    assert Blacklisted(s, failing, token, t).0 == false;
    AccessRoundTrip(s0, failing, token, a, now, t);
    ReadAccessSeesOnlyItsKey(s, s1, failing, token, t);
    assert ReadAccess(s, failing, token, t).1 == Ok(a.(id := 0));
    InsertedAccessFound(rows, a, t);
  }

  /**
   * Once it has expired, the access token a login stored is refused by the tables, and by the
   * cache from the second after its expiry (the cache still accepts it at the expiry second).
   */
  lemma IssuedTokenRefusedOnceExpired(s0: Store, failing: set<Cmd>, rows: seq<AccessToken>, unavailable: set<Table>, lastAccessId: nat,
                                      clientId: string, token: string, f: RefreshToken, refreshOk: bool, session: SessionData, now: int, t: int)
    requires ' ' !in token && HSetCmd !in failing && HGetAllCmd !in failing && DelCmd !in failing
    requires !AccessClash(rows, AuthService.NewAccess(lastAccessId, clientId, token, now))
    requires Lookup(s0, AccessKey(token), now).None? && Int64.InRange(now) && Int64.InRange(now + Day)
    requires now + Day <= t
    ensures var a := AuthService.NewAccess(lastAccessId, clientId, token, now);
      AuthWithoutCache(rows + [a], unavailable, "Bearer " + token, t) == Rejected(401, "Invalid or expired token")
    ensures var a := AuthService.NewAccess(lastAccessId, clientId, token, now);
      var s := AuthService.IssueStore(s0, failing, a, f, true, refreshOk, session, now);
      now + Day < t ==> AuthWithCache(s, failing, rows + [a], unavailable, "Bearer " + token, t).1.Rejected?
  {
    var a := AuthService.NewAccess(lastAccessId, clientId, token, now);
    var s1 := WriteAccess(s0, failing, token, a, now).0;
    var s := AuthService.IssueStore(s0, failing, a, f, true, refreshOk, session, now);
    BearerExactly("Bearer " + token, token);
    assert QueryAccess(rows + [a], unavailable, token, t).Err?;
    if now + Day < t {
      KeyFamiliesDisjoint(token, token, clientId);
      KeyFamiliesDisjoint(token, f.token, clientId);
      AuthService.IssueStoreTouches(s0, failing, a, f, refreshOk, session, now, AccessKey(token));
      AccessExpiresAfterDeadline(s0, failing, token, a, now, t);
      ReadAccessSeesOnlyItsKey(s, s1, failing, token, t);
      assert ReadAccess(s, failing, token, t).1 == Err(Expired);
    }
  }

  /** AuthMiddleware: the repository and the filter share one cache. */
  method Authenticate(repo: AuthRepo.Auth, cache: RedisCache?, header: string, now: int) returns (outcome: AuthOutcome)
    requires repo.cache == cache
    modifies cache
    ensures cache == null ==> outcome == AuthWithoutCache(repo.db.accessTokens, repo.db.unavailable, header, now)
    ensures cache != null ==>
      ((cache.store, outcome) == AuthWithCache(old(cache.store), cache.failing, repo.db.accessTokens, repo.db.unavailable, header, now))
  {
    if header == "" {
      return Rejected(401, "Missing authorization header");
    }
    var parts := Split(header, ' ');
    if |parts| != 2 || parts[0] != "Bearer" {
      return Rejected(401, "Invalid authorization format");
    }
    var token := parts[1];
    if cache != null {
      var blacklisted, err := cache.IsTokenBlacklisted(token, now);
      if err == None && blacklisted {
        return Rejected(401, "User has been logged out");
      }
    }
    var accessToken := repo.FindValidAccessToken(token, now);
    if accessToken.Err? {
      return Rejected(401, "Invalid or expired token");
    }
    if cache != null {
      var _ := cache.UpdateLastActivity(accessToken.value.clientId, token, now);
    }
    return Accepted(accessToken.value.clientId, token);
  }

  // ------------------------------------------------------------ rate limiting

  /** The counter key: the limit class and the client address. */
  function RateLimitKey(limitType: string, ip: string): string {
    "ratelimit:" + limitType + ":" + ip
  }

  lemma RateLimitKeyInjective(t1: string, ip1: string, t2: string, ip2: string)
    requires ':' !in t1 && ':' !in t2
    requires RateLimitKey(t1, ip1) == RateLimitKey(t2, ip2)
    ensures t1 == t2 && ip1 == ip2
  {
    var r1, r2 := t1 + [':'] + ip1, t2 + [':'] + ip2;
    assert RateLimitKey(t1, ip1) == "ratelimit:" + r1 && RateLimitKey(t2, ip2) == "ratelimit:" + r2;
    assert r1 == RateLimitKey(t1, ip1)[10..] && r2 == RateLimitKey(t2, ip2)[10..];
    SplitAtFirstSeparator(t1, ip1, t2, ip2, ':');
  }

  /** Two texts joined by a separator that neither head holds split back into the same parts. */
  lemma SplitAtFirstSeparator(a: string, b: string, c: string, d: string, sep: char)
    requires sep !in a && sep !in c
    requires a + [sep] + b == c + [sep] + d
    ensures a == c && b == d
  {
    var s := a + [sep] + b;
    SeparatorFirstAt(a, b, sep);
    SeparatorFirstAt(c, d, sep);
    assert a == s[..|a|] && c == s[..|c|];
    assert b == s[|a| + 1..] && d == s[|c| + 1..];
  }

  /** The separator first occurs right after a head that lacks it. */
  lemma SeparatorFirstAt(a: string, b: string, sep: char)
    requires sep !in a
    ensures IndexAny(a + [sep] + b, {sep}) == |a|
  {
    var s := a + [sep] + b;
    assert s[|a|] in {sep};
    forall j | 0 <= j < |a|
      ensures s[j] !in {sep}
    {
      assert s[j] == a[j];
    }
  }

  /** A limit: at most `max` requests per `window` seconds. */
  datatype Policy = Policy(max: int, window: int)

  function PolicyFor(limitType: string): Policy {
    if limitType == "login" then Policy(5, 15 * 60)
    else if limitType == "register" then Policy(3, 60 * 60)
    else Policy(100, 60)
  }

  /** The policy table: login 5 per 15 minutes, register 3 per hour, "api" and every other class 100 per minute. */
  lemma PolicyTable(limitType: string)
    ensures PolicyFor("login") == Policy(5, 900) && PolicyFor("register") == Policy(3, 3600)
    ensures PolicyFor("api") == Policy(100, 60)
    ensures limitType != "login" && limitType != "register" ==> PolicyFor(limitType) == Policy(100, 60)
    ensures PolicyFor(limitType).max > 0 && PolicyFor(limitType).window > 0
  {
  }

  /** Go's rendering of a whole number of seconds as a duration: "1h0m0s", "15m0s", "45s". */
  function DurationText(secs: nat): string {
    var h := secs / 3600;
    var m := secs % 3600 / 60;
    var s := secs % 60;
    if h > 0 then Itoa(h) + "h" + Itoa(m) + "m" + Itoa(s) + "s"
    else if m > 0 then Itoa(m) + "m" + Itoa(s) + "s"
    else Itoa(s) + "s"
  }

  /** What the filter does with a request: pass it on, or answer 429. */
  datatype RateOutcome = Passed | TooMany(status: int, message: string, error: string)

  function Refusal(p: Policy): RateOutcome {
    TooMany(429, "Rate limit exceeded. Please try again later.",
            "Maximum " + Itoa(p.max) + " requests per " + DurationText(if p.window < 0 then 0 else p.window))
  }

  /**
   * Check, then count: a failed check lets the request through uncounted; a count at the
   * maximum refuses it uncounted; otherwise the counter goes up and its window restarts.
   */
  function RateDecision(entries: Store, failing: set<Cmd>, key: string, p: Policy, now: int): (Store, RateOutcome) {
    var (allowed, err) := RateCheck(entries, failing, key, p.max, now);
    if err.Some? then (entries, Passed)
    else if !allowed then (entries, Refusal(p))
    else (RateBump(entries, failing, key, p.window, now).0, Passed)
  }

  /** A refused request, and a request whose check failed, leave the counter as it was. */
  lemma RefusedRequestsUncounted(entries: Store, failing: set<Cmd>, key: string, p: Policy, now: int)
    requires RateDecision(entries, failing, key, p, now).1.TooMany? || RateCheck(entries, failing, key, p.max, now).1.Some?
    ensures RateDecision(entries, failing, key, p, now).0 == entries
  {
  }

  /** Requests at the given times, one after another, each seeing what the previous ones left. */
  function RunRequests(entries: Store, failing: set<Cmd>, key: string, p: Policy, times: seq<int>): seq<RateOutcome>
    decreases |times|
  {
    if times == [] then []
    else
      var (s1, o) := RateDecision(entries, failing, key, p, times[0]);
      [o] + RunRequests(s1, failing, key, p, times[1..])
  }

  function Passes(n: nat): seq<RateOutcome> {
    seq(n, _ => Passed)
  }

  lemma PassesOneMore(k: nat)
    ensures Passes(k + 1) == [Passed] + Passes(k)
  {
  }

  /** Each request comes before the window the previous one restarted has run out. */
  predicate WithinWindow(times: seq<int>, window: int) {
    forall i :: 0 <= i < |times| - 1 ==> times[i] <= times[i + 1] < times[i] + window
  }

  /** With the counter at `n`, the next max - n requests pass and the one after is refused. */
  lemma {:induction false} BurstFrom(entries: Store, failing: set<Cmd>, key: string, p: Policy, times: seq<int>, n: nat)
    requires GetCmd !in failing && IncrCmd !in failing && ExpireCmd !in failing
    requires p.window > 0 && n <= p.max < Int64.Max
    requires |times| == p.max - n + 1 && WithinWindow(times, p.window)
    requires n == 0 ==> Lookup(entries, key, times[0]).None?
    requires n > 0 ==> Lookup(entries, key, times[0]) == Some(Str(Itoa(n)))
    ensures RunRequests(entries, failing, key, p, times) == Passes(p.max - n) + [Refusal(p)]
    decreases p.max - n
  {
    if n < p.max {
      var s1 := BurstStep(entries, failing, key, p, times, n);
      BurstFrom(s1, failing, key, p, times[1..], n + 1);
      PassesOneMore(p.max - (n + 1));
    } else {
      BurstEnd(entries, failing, key, p, times, n);
    }
  }

  /** The request that finds the counter at the maximum is refused and is the last of the burst. */
  lemma BurstEnd(entries: Store, failing: set<Cmd>, key: string, p: Policy, times: seq<int>, n: nat)
    requires GetCmd !in failing && IncrCmd !in failing && ExpireCmd !in failing
    requires p.window > 0 && n == p.max < Int64.Max
    requires |times| == 1
    requires n == 0 ==> Lookup(entries, key, times[0]).None?
    requires n > 0 ==> Lookup(entries, key, times[0]) == Some(Str(Itoa(n)))
    ensures RunRequests(entries, failing, key, p, times) == Passes(0) + [Refusal(p)]
  {
    if n == 0 {
      RateFirstRequest(entries, failing, key, p.max, p.window, times[0]);
    } else {
      RateLaterRequest(entries, failing, key, n, p.max, p.window, times[0]);
    }
    assert times[1..] == [];
  }

  /** One passing request of a burst: the counter moves from `n` to n + 1 and the rest of the burst stays in the window. */
  lemma BurstStep(entries: Store, failing: set<Cmd>, key: string, p: Policy, times: seq<int>, n: nat) returns (s1: Store)
    requires GetCmd !in failing && IncrCmd !in failing && ExpireCmd !in failing
    requires p.window > 0 && n < p.max < Int64.Max
    requires |times| == p.max - n + 1 && WithinWindow(times, p.window)
    requires n == 0 ==> Lookup(entries, key, times[0]).None?
    requires n > 0 ==> Lookup(entries, key, times[0]) == Some(Str(Itoa(n)))
    ensures RunRequests(entries, failing, key, p, times) == [Passed] + RunRequests(s1, failing, key, p, times[1..])
    ensures Lookup(s1, key, times[1]) == Some(Str(Itoa(n + 1)))
    ensures WithinWindow(times[1..], p.window)
  {
    s1 := entries[key := Entry(Str(Itoa(n + 1)), Some(times[0] + p.window))];
    if n == 0 {
      RateFirstRequest(entries, failing, key, p.max, p.window, times[0]);
      assert Itoa(1) == "1";
    } else {
      RateLaterRequest(entries, failing, key, n, p.max, p.window, times[0]);
    }
    assert RateDecision(entries, failing, key, p, times[0]) == (s1, Passed);
    assert times[0] <= times[1] < times[0] + p.window;
    forall i | 0 <= i < |times[1..]| - 1
      ensures times[1..][i] <= times[1..][i + 1] < times[1..][i] + p.window
    {
      assert times[1..][i] == times[i + 1] && times[1..][i + 1] == times[i + 2];
    }
  }

  /** From a fresh counter, within one window, exactly `max` requests pass and the next is refused. */
  lemma BurstFromFreshKey(entries: Store, failing: set<Cmd>, key: string, p: Policy, times: seq<int>)
    requires GetCmd !in failing && IncrCmd !in failing && ExpireCmd !in failing
    requires p.window > 0 && 0 <= p.max < Int64.Max
    requires |times| == p.max + 1 && WithinWindow(times, p.window)
    requires Lookup(entries, key, times[0]).None?
    ensures RunRequests(entries, failing, key, p, times) == Passes(p.max) + [Refusal(p)]
  {
    BurstFrom(entries, failing, key, p, times, 0);
  }

  /** RateLimitMiddleware: every request passes without a cache. */
  method RateLimit(cache: RedisCache?, limitType: string, ip: string, now: int) returns (outcome: RateOutcome)
    modifies cache
    ensures cache == null ==> outcome == Passed
    ensures cache != null ==>
      ((cache.store, outcome) == RateDecision(old(cache.store), cache.failing, RateLimitKey(limitType, ip), PolicyFor(limitType), now))
  {
    if cache == null {
      return Passed;
    }
    var key := RateLimitKey(limitType, ip);
    var policy := PolicyFor(limitType);
    var allowed, err := cache.CheckRateLimit(key, policy.max, policy.window, now);
    if err.Some? {
      return Passed;
    }
    if !allowed {
      return Refusal(policy);
    }
    var _ := cache.IncrementRateLimit(key, policy.window, now);
    return Passed;
  }
}
