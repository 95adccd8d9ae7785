/**
 * The authentication service of auth/service/auth.go: client registration, login, logout and
 * session revocation, session listing, token refresh, and the device classification of a
 * user agent.
 */
module AuthService {
  import opened Wrappers
  import opened Text
  import opened Models
  import opened Tables
  import opened Cache
  import opened Random
  import opened Helpers
  import Dto
  import AuthRepo

  // ------------------------------------------------------------ device classification

  /** detectDeviceType: phone markers first, then tablet markers, case-insensitively; anything else is a desktop. */
  function DetectDeviceType(userAgent: string): (r: string)
    ensures r == "mobile" || r == "tablet" || r == "desktop"
  {
    var ua := ToLower(userAgent);
    if Contains(ua, "mobile") || Contains(ua, "android") || Contains(ua, "iphone") then "mobile"
    else if Contains(ua, "tablet") || Contains(ua, "ipad") then "tablet"
    else "desktop"
  }

  lemma LowerCaseIdempotent(s: string)
    ensures ToLower(ToLower(s)) == ToLower(s)
    ensures ToLower(ToUpper(s)) == ToLower(s)
  {
    assert forall i :: 0 <= i < |s| ==> LowerChar(LowerChar(s[i])) == LowerChar(s[i]);
    assert forall i :: 0 <= i < |s| ==> LowerChar(UpperChar(s[i])) == LowerChar(s[i]);
  }

  /** The classification ignores letter case. */
  lemma DeviceTypeIgnoresCase(userAgent: string)
    ensures DetectDeviceType(ToLower(userAgent)) == DetectDeviceType(userAgent)
    ensures DetectDeviceType(ToUpper(userAgent)) == DetectDeviceType(userAgent)
  {
    LowerCaseIdempotent(userAgent);
  }

  /** Lower-casing a string lower-cases the piece in its middle. */
  lemma LowerOfMiddle(pre: string, marker: string, post: string)
    ensures OccursAt(ToLower(pre + marker + post), ToLower(marker), |pre|)
  {
    var s := pre + marker + post;
    assert ToLower(s)[|pre|..|pre| + |marker|] == ToLower(marker) by {
      forall i | 0 <= i < |marker|
        ensures ToLower(s)[|pre| + i] == ToLower(marker)[i]
      {
        assert s[|pre| + i] == marker[i];
      }
    }
  }

  /** A phone marker, in any letter case and anywhere, makes the agent mobile, whatever else it says. */
  lemma PhoneMarkerWins(pre: string, marker: string, post: string)
    requires ToLower(marker) == "mobile" || ToLower(marker) == "android" || ToLower(marker) == "iphone"
    ensures DetectDeviceType(pre + marker + post) == "mobile"
  {
    LowerOfMiddle(pre, marker, post);
  }

  /** A tablet marker makes the agent a tablet when no phone marker occurs. */
  lemma TabletMarker(pre: string, marker: string, post: string)
    requires ToLower(marker) == "tablet" || ToLower(marker) == "ipad"
    requires var ua := ToLower(pre + marker + post);
      !Contains(ua, "mobile") && !Contains(ua, "android") && !Contains(ua, "iphone")
    ensures DetectDeviceType(pre + marker + post) == "tablet"
  {
    LowerOfMiddle(pre, marker, post);
  }

  // ------------------------------------------------------------ what the repository finds

  /** The cache's contents and failing commands before a call, or none without a cache. */
  type View = Option<(Store, set<Cmd>)>

  function ClientFound(view: View, rows: Result<ClientWithSecrets, DbError>, clientId: string, now: int): Result<ClientWithSecrets, DbError> {
    match view
    case None => rows
    case Some((s, f)) => AuthRepo.ClientAside(s, f, rows, clientId, now).1
  }

  function RefreshFound(view: View, rows: Result<RefreshToken, DbError>, token: string, now: int): Result<RefreshToken, DbError> {
    match view
    case None => rows
    case Some((s, f)) => AuthRepo.RefreshAside(s, f, rows, token, now).1
  }

  // ------------------------------------------------------------ what a login writes

  /** The access-token row a login or a refresh stores: the next id, created now, valid for 24 hours. */
  function NewAccess(lastAccessId: nat, clientId: string, token: string, now: int): AccessToken {
    AccessToken(lastAccessId + 1, now, clientId, token, now + Day)
  }

  /** The refresh-token row a login stores: the next id, valid for 7 days, pointing at the access row stored just before it. */
  function NewRefresh(lastRefreshId: nat, lastAccessId: nat, clientId: string, token: string, now: int): Models.RefreshToken {
    Models.RefreshToken(lastRefreshId + 1, now, clientId, token, lastAccessId + 1, now + Week)
  }

  /** The session record a login opens. */
  function NewSession(clientId: string, token: string, ipAddress: string, userAgent: string, now: int): SessionData {
    SessionData(clientId, token, now, ipAddress, userAgent, DetectDeviceType(userAgent), now)
  }

  /**
   * The cache after the token half of a login: the access entry once its row is stored, then the
   * refresh entry and the 24-hour session once the refresh row is stored too.
   */
  function IssueStore(s: Store, failing: set<Cmd>, a: AccessToken, f: Models.RefreshToken, accessOk: bool, refreshOk: bool,
                      session: SessionData, now: int): Store {
    if !accessOk then s
    else
      var s1 := WriteAccess(s, failing, a.token, a, now).0;
      if !refreshOk then s1
      else DoSet(WriteRefresh(s1, failing, f.token, f, now).0, failing, SessionKey(a.clientId, a.token), Session(session), Day, now).0
  }

  /** Besides its access entry, the token half of a login touches only the refresh entry and the session. */
  lemma IssueStoreTouches(s: Store, failing: set<Cmd>, a: AccessToken, f: Models.RefreshToken, refreshOk: bool,
                          session: SessionData, now: int, k: string)
    requires k != RefreshKey(f.token) && k != SessionKey(a.clientId, a.token)
    ensures var s1 := WriteAccess(s, failing, a.token, a, now).0;
      var s2 := IssueStore(s, failing, a, f, true, refreshOk, session, now);
      (k in s2 <==> k in s1) && (k in s1 ==> s2[k] == s1[k])
    ensures var s1 := WriteAccess(s, failing, a.token, a, now).0;
      k != AccessKey(a.token) ==> (k in s1 <==> k in s) && (k in s ==> s1[k] == s[k])
  {
  }

  // ------------------------------------------------------------ logout

  /**
   * Logout with a cache: look the token up; when it is valid and has time left, blacklist it
   * for exactly that time, then drop its cache entry and its session, ignoring failures of
   * those two deletes. Only a failed blacklist write is reported.
   */
  function LogoutEffect(entries: Store, failing: set<Cmd>, rows: Result<AccessToken, DbError>, token: string, now: int): (Store, Option<CacheError>) {
    var (s1, found) := AuthRepo.AccessAside(entries, failing, rows, token, now);
    if found.Err? then (s1, None)
    else if found.value.expiredAt - now <= 0 then (s1, None)
    else
      var (s2, e) := DoSet(s1, failing, BlacklistKey(token), Str("1"), found.value.expiredAt - now, now);
      if e.Some? then (s2, e)
      else (DoDel(DoDel(s2, failing, AccessKey(token)).0, failing, SessionKey(found.value.clientId, token)).0, None)
  }

  /** A token the lookup does not find, or that has no time left, is logged out silently with no effect. */
  lemma LogoutNoop(entries: Store, failing: set<Cmd>, rows: Result<AccessToken, DbError>, token: string, now: int)
    requires var found := AuthRepo.AccessAside(entries, failing, rows, token, now).1;
      found.Err? || found.value.expiredAt <= now
    ensures LogoutEffect(entries, failing, rows, token, now) == (AuthRepo.AccessAside(entries, failing, rows, token, now).0, None)
  {
  }

  /** The only error Logout reports is a failed blacklist write. */
  lemma LogoutReportsOnlyBlacklistFailure(entries: Store, failing: set<Cmd>, rows: Result<AccessToken, DbError>, token: string, now: int)
    ensures LogoutEffect(entries, failing, rows, token, now).1 == None ||
            LogoutEffect(entries, failing, rows, token, now).1 == Some(Unreachable(SetCmd))
  {
  }

  /**
   * After a successful logout the token is blacklisted for exactly its remaining lifetime, and
   * its cache entry and session are gone.
   */
  lemma LogoutBlacklistsRemainingLifetime(entries: Store, failing: set<Cmd>, rows: Result<AccessToken, DbError>, token: string, now: int, later: int)
    requires SetCmd !in failing && ExistsCmd !in failing && DelCmd !in failing && now <= later
    requires var found := AuthRepo.AccessAside(entries, failing, rows, token, now).1;
      found.Ok? && found.value.expiredAt > now
    ensures var found := AuthRepo.AccessAside(entries, failing, rows, token, now).1.value;
      var (s, err) := LogoutEffect(entries, failing, rows, token, now);
      err == None && Blacklisted(s, failing, token, later) == (later < found.expiredAt, None) &&
      AccessKey(token) !in s && SessionKey(found.clientId, token) !in s
  {
    var found := AuthRepo.AccessAside(entries, failing, rows, token, now).1.value;
    KeyFamiliesDisjoint(token, token, found.clientId);
  }

  /** A listed session as the service reports it. */
  function ToResponse(d: SessionData): (r: SessionResponse)
    ensures r.clientId == d.clientId && r.token == d.token && r.loginTime == d.loginTime
    ensures r.lastActivity == d.lastActivity && r.deviceType == d.deviceType
  {
    SessionResponse(d.clientId, d.token, d.loginTime, d.ipAddress, d.userAgent, d.deviceType, d.lastActivity)
  }

  lemma ToResponseInjective(a: SessionData, b: SessionData)
    requires ToResponse(a) == ToResponse(b)
    ensures a == b
  {
  }

  // ------------------------------------------------------------ the service object

  class Auth {
    const repo: AuthRepo.Auth
    const cache: RedisCache?
    /** The entropy source behind the random identifiers. */
    const rng: Entropy

    /** The service and its repository share one cache. */
    predicate Valid() {
      repo.cache == cache
    }

    constructor (repo: AuthRepo.Auth, cache: RedisCache?, rng: Entropy)
      requires repo.cache == cache
      ensures Valid() && this.repo == repo && this.cache == cache && this.rng == rng
    {
      this.repo := repo;
      this.cache := cache;
      this.rng := rng;
    }

    function CacheView(): View
      reads cache
    {
      if cache == null then None else Some((cache.store, cache.failing))
    }

    /**
     * RegisterClient: three random 50-character strings become the client id and its two
     * secrets; the user and secret rows share that client id.
     */
    method RegisterClient(req: Dto.RegisterClientReq, now: int) returns (r: Result<RegisterClientRes, DbError>)
      requires Valid()
      modifies rng, repo.db`users, repo.db`secrets, repo.db`lastUserId, repo.db`lastSecretId
      ensures var id := RandomString(50, old(rng.pool));
        var sec := RandomString(50, PoolAfter(50, old(rng.pool)));
        var sec2 := RandomString(50, PoolAfter(50, PoolAfter(50, old(rng.pool))));
        var user := User(0, 0, id, req.name, req.email, req.isActive, req.description);
        var secret := Secret(0, 0, id, sec, sec2);
        rng.pool == PoolAfter(50, PoolAfter(50, PoolAfter(50, old(rng.pool)))) &&
        (r.Ok? <==> Users !in repo.db.unavailable && Secrets !in repo.db.unavailable &&
                    !UserClash(old(repo.db.users), user) && !SecretClash(old(repo.db.secrets), secret)) &&
        (r.Ok? ==>
           r.value == RegisterClientRes(id, sec, sec2) &&
           repo.db.users == old(repo.db.users) + [UserDefaults(user).(id := old(repo.db.lastUserId) + 1, createdAt := now)] &&
           repo.db.secrets == old(repo.db.secrets) + [secret.(id := old(repo.db.lastSecretId) + 1, createdAt := now)]) &&
        (r.Err? ==> (r.error ==
           if Users in repo.db.unavailable || UserClash(old(repo.db.users), user) then InsertError(Users, repo.db.unavailable)
           else InsertError(Secrets, repo.db.unavailable)))
      ensures r.Err? ==> repo.db.users == old(repo.db.users) && repo.db.secrets == old(repo.db.secrets)
      ensures r.Ok? ==> repo.db.users[|repo.db.users| - 1].isActive && repo.db.users[|repo.db.users| - 1].description != ""
      ensures |old(rng.pool)| >= 150 ==> rng.pool == old(rng.pool)[150..]
      ensures |old(rng.pool)| >= 150 && r.Ok? ==>
        |r.value.clientId| == 50 && |r.value.secret| == 50 && |r.value.secondarySecret| == 50
    {
      var clientId := GenerateRandomString(50, rng);
      var secret := GenerateRandomString(50, rng);
      var secondarySecret := GenerateRandomString(50, rng);
      var user := User(0, 0, clientId, req.name, req.email, req.isActive, req.description);
      var secretModel := Secret(0, 0, clientId, secret, secondarySecret);
      r := repo.CreateAuthClient(user, secretModel, now);
    }

    /**
     * Login: find the client (the secret is not looked at here), then issue its tokens as
     * IssueTokens does, on top of whatever the client lookup left in the cache.
     */
    method Login(req: Dto.LoginReq, ipAddress: string, userAgent: string, now: int)
      returns (r: Result<(ClientWithSecrets, TokenResponse), DbError>)
      requires Valid()
      modifies rng, cache, repo.db`accessTokens, repo.db`lastAccessId, repo.db`refreshTokens, repo.db`lastRefreshId
      ensures var rows := AuthRepo.ClientFromRows(QueryUser(repo.db.users, repo.db.unavailable, req.clientId),
                                                  QuerySecret(repo.db.secrets, repo.db.unavailable, req.clientId));
        var found := ClientFound(old(CacheView()), rows, req.clientId, now);
        found.Err? ==>
          r == Err(found.error) && rng.pool == old(rng.pool) &&
          repo.db.accessTokens == old(repo.db.accessTokens) && repo.db.refreshTokens == old(repo.db.refreshTokens) &&
          (cache != null ==> cache.store == AuthRepo.ClientAside(old(cache.store), cache.failing, rows, req.clientId, now).0)
      ensures var rows := AuthRepo.ClientFromRows(QueryUser(repo.db.users, repo.db.unavailable, req.clientId),
                                                  QuerySecret(repo.db.secrets, repo.db.unavailable, req.clientId));
        var found := ClientFound(old(CacheView()), rows, req.clientId, now);
        var at := RandomString(50, old(rng.pool));
        var rt := RandomString(50, PoolAfter(50, old(rng.pool)));
        var a := NewAccess(old(repo.db.lastAccessId), req.clientId, at, now);
        var f := NewRefresh(old(repo.db.lastRefreshId), old(repo.db.lastAccessId), req.clientId, rt, now);
        var accessOk := AccessTokens !in repo.db.unavailable && !AccessClash(old(repo.db.accessTokens), a);
        var refreshOk := RefreshTokens !in repo.db.unavailable && !RefreshClash(old(repo.db.refreshTokens), f);
        found.Ok? ==>
          rng.pool == PoolAfter(50, PoolAfter(50, old(rng.pool))) &&
          (r.Ok? <==> accessOk && refreshOk) &&
          (r.Ok? ==> r.value == (found.value, TokenResponse(at, rt, now + Day, now + Week))) &&
          (!accessOk ==> r == Err(InsertError(AccessTokens, repo.db.unavailable))) &&
          (accessOk && !refreshOk ==> r == Err(InsertError(RefreshTokens, repo.db.unavailable))) &&
          repo.db.accessTokens == (if accessOk then old(repo.db.accessTokens) + [a] else old(repo.db.accessTokens)) &&
          repo.db.refreshTokens == (if accessOk && refreshOk then old(repo.db.refreshTokens) + [f] else old(repo.db.refreshTokens)) &&
          (cache != null ==> (cache.store ==
             IssueStore(AuthRepo.ClientAside(old(cache.store), cache.failing, rows, req.clientId, now).0, cache.failing,
                        a, f, accessOk, refreshOk, NewSession(req.clientId, at, ipAddress, userAgent, now), now)))
      ensures r.Ok? ==> r.value.1.refreshExpiresAt > r.value.1.accessExpiresAt
      ensures r.Ok? && |old(rng.pool)| >= 100 ==> |r.value.1.accessToken| == 50 && |r.value.1.refreshToken| == 50
      ensures r.Ok? && cache != null && SetCmd !in cache.failing ==>
        Lookup(cache.store, SessionKey(req.clientId, r.value.1.accessToken), now) ==
          Some(Session(NewSession(req.clientId, r.value.1.accessToken, ipAddress, userAgent, now)))
    {
      var clientData := repo.FindClientWithSecrets(req.clientId, now);
      if clientData.Err? {
        return Err(clientData.error);
      }
      var issued := IssueTokens(req.clientId, ipAddress, userAgent, now);
      if issued.Err? {
        return Err(issued.error);
      }
      return Ok((clientData.value, issued.value));
    }

    /**
     * The second half of Login, once the client is known: two 50-character tokens, the access
     * row, then the refresh row pointing at it, then the session in the cache (whose failure is
     * ignored). A failed refresh insert leaves the access row in place.
     */
    method IssueTokens(clientId: string, ipAddress: string, userAgent: string, now: int)
      returns (r: Result<TokenResponse, DbError>)
      requires Valid()
      modifies rng, cache, repo.db`accessTokens, repo.db`lastAccessId, repo.db`refreshTokens, repo.db`lastRefreshId
      ensures var at := RandomString(50, old(rng.pool));
        var rt := RandomString(50, PoolAfter(50, old(rng.pool)));
        var a := NewAccess(old(repo.db.lastAccessId), clientId, at, now);
        var f := NewRefresh(old(repo.db.lastRefreshId), old(repo.db.lastAccessId), clientId, rt, now);
        var accessOk := AccessTokens !in repo.db.unavailable && !AccessClash(old(repo.db.accessTokens), a);
        var refreshOk := RefreshTokens !in repo.db.unavailable && !RefreshClash(old(repo.db.refreshTokens), f);
        rng.pool == PoolAfter(50, PoolAfter(50, old(rng.pool))) &&
        (r.Ok? <==> accessOk && refreshOk) &&
        (r.Ok? ==> r.value == TokenResponse(at, rt, now + Day, now + Week)) &&
        (!accessOk ==> r == Err(InsertError(AccessTokens, repo.db.unavailable))) &&
        (accessOk && !refreshOk ==> r == Err(InsertError(RefreshTokens, repo.db.unavailable))) &&
        repo.db.accessTokens == (if accessOk then old(repo.db.accessTokens) + [a] else old(repo.db.accessTokens)) &&
        repo.db.refreshTokens == (if accessOk && refreshOk then old(repo.db.refreshTokens) + [f] else old(repo.db.refreshTokens)) &&
        (cache != null ==> (cache.store ==
           IssueStore(old(cache.store), cache.failing, a, f, accessOk, refreshOk, NewSession(clientId, at, ipAddress, userAgent, now), now)))
      ensures r.Ok? && |old(rng.pool)| >= 100 ==> |r.value.accessToken| == 50 && |r.value.refreshToken| == 50
      ensures r.Ok? && cache != null && SetCmd !in cache.failing ==>
        Lookup(cache.store, SessionKey(clientId, r.value.accessToken), now) ==
          Some(Session(NewSession(clientId, r.value.accessToken, ipAddress, userAgent, now)))
    {
      var accessToken := GenerateRandomString(50, rng);
      var refreshToken := GenerateRandomString(50, rng);
      var accessExpiresAt := now + Day;
      var refreshExpiresAt := now + Week;
      var access := repo.CreateAccessToken(AccessToken(0, 0, clientId, accessToken, accessExpiresAt), now);
      if access.Err? {
        return Err(access.error);
      }
      var refresh := repo.CreateRefreshToken(Models.RefreshToken(0, 0, clientId, refreshToken, access.value.id, refreshExpiresAt), now);
      if refresh.Err? {
        return Err(refresh.error);
      }
      if cache != null {
        var session := NewSession(clientId, accessToken, ipAddress, userAgent, now);
        var _ := cache.CreateSession(clientId, accessToken, session, now);
      }
      return Ok(TokenResponse(accessToken, refreshToken, accessExpiresAt, refreshExpiresAt));
    }

    /** Logout: nothing at all without a cache; otherwise LogoutEffect. */
    method Logout(token: string, now: int) returns (err: Option<CacheError>)
      requires Valid()
      modifies cache
      ensures cache == null ==> err == None
      ensures cache != null ==>
        ((cache.store, err) == LogoutEffect(old(cache.store), cache.failing, QueryAccess(repo.db.accessTokens, repo.db.unavailable, token, now), token, now))
    {
      if cache == null {
        return None;
      }
      var accessToken := repo.FindValidAccessToken(token, now);
      if accessToken.Err? {
        return None;
      }
      var ttl := accessToken.value.expiredAt - now;
      if ttl <= 0 {
        return None;
      }
      err := cache.BlacklistToken(token, ttl, now);
      if err.Some? {
        return err;
      }
      var _ := cache.DeleteTokenFromCache(token);
      var _ := cache.DeleteSession(accessToken.value.clientId, token);
      return None;
    }

    /**
     * ListSessions: none without a cache; otherwise one response per session the cache lists,
     * in the cache's order (the order its KEYS call returned, `order`).
     */
    method ListSessions(clientId: string, now: int) returns (r: Result<seq<SessionResponse>, CacheError>, ghost order: seq<string>)
      requires Valid()
      ensures cache == null ==> r == Ok([])
      ensures cache != null && DoKeys(cache.store, cache.failing, SessionPrefix(clientId), now).Err? ==>
        r == Err(DoKeys(cache.store, cache.failing, SessionPrefix(clientId), now).error)
      ensures cache != null && DoKeys(cache.store, cache.failing, SessionPrefix(clientId), now).Ok? ==>
        var listed := SessionsOf(cache.store, cache.failing, order, now);
        Distinct(order) && (set k | k in order) == DoKeys(cache.store, cache.failing, SessionPrefix(clientId), now).value &&
        r.Ok? && |r.value| == |listed| && |listed| == |ReadableKeys(cache.store, cache.failing, order, now)| &&
        forall i :: 0 <= i < |r.value| ==> r.value[i] == ToResponse(listed[i])
      ensures cache != null && DoKeys(cache.store, cache.failing, SessionPrefix(clientId), now).Ok? ==>
        (r.Ok? && (set x | x in r.value) ==
           (set d | d in (if GetCmd in cache.failing then {} else SessionsUnder(cache.store, SessionPrefix(clientId), now)) :: ToResponse(d)))
    {
      order := [];
      if cache == null {
        return Ok([]), order;
      }
      var sessions;
      sessions, order := cache.ListSessions(clientId, now);
      if sessions.Err? {
        return Err(sessions.error), order;
      }
      var responses: seq<SessionResponse> := [];
      for i := 0 to |sessions.value|
        invariant |responses| == i
        invariant forall j :: 0 <= j < i ==> responses[j] == ToResponse(sessions.value[j])
      {
        responses := responses + [ToResponse(sessions.value[i])];
      }
      assert forall x :: x in responses <==> exists d :: d in sessions.value && x == ToResponse(d) by {
        forall x | x in responses
          ensures exists d :: d in sessions.value && x == ToResponse(d)
        {
          var j :| 0 <= j < |responses| && responses[j] == x;
          assert sessions.value[j] in sessions.value;
        }
        forall d | d in sessions.value
          ensures ToResponse(d) in responses
        {
          var j :| 0 <= j < |sessions.value| && sessions.value[j] == d;
          assert responses[j] == ToResponse(d);
        }
      }
      assert Elems(sessions.value) == (set d | d in sessions.value);
      return Ok(responses), order;
    }

    /** RevokeSession: the client id is not used; the token is logged out. */
    method RevokeSession(clientId: string, token: string, now: int) returns (err: Option<CacheError>)
      requires Valid()
      modifies cache
      ensures cache == null ==> err == None
      ensures cache != null ==>
        ((cache.store, err) == LogoutEffect(old(cache.store), cache.failing, QueryAccess(repo.db.accessTokens, repo.db.unavailable, token, now), token, now))
    {
      err := Logout(token, now);
    }

    /**
     * RefreshToken: a valid refresh token buys a new 24-hour access token for its client; the
     * refresh token itself stays as it is.
     */
    method RefreshToken(req: Dto.RefreshTokenReq, now: int) returns (r: Result<RefreshTokenRes, DbError>)
      requires Valid()
      modifies rng, cache, repo.db`accessTokens, repo.db`lastAccessId
      ensures var rows := QueryRefresh(repo.db.refreshTokens, repo.db.unavailable, req.refreshToken, now);
        var found := RefreshFound(old(CacheView()), rows, req.refreshToken, now);
        found.Err? ==>
          r == Err(found.error) && rng.pool == old(rng.pool) && repo.db.accessTokens == old(repo.db.accessTokens) &&
          (cache != null ==> cache.store == AuthRepo.RefreshAside(old(cache.store), cache.failing, rows, req.refreshToken, now).0)
      ensures var rows := QueryRefresh(repo.db.refreshTokens, repo.db.unavailable, req.refreshToken, now);
        var found := RefreshFound(old(CacheView()), rows, req.refreshToken, now);
        found.Ok? ==>
          var at := RandomString(50, old(rng.pool));
          var a := NewAccess(old(repo.db.lastAccessId), found.value.clientId, at, now);
          var ok := AccessTokens !in repo.db.unavailable && !AccessClash(old(repo.db.accessTokens), a);
          rng.pool == PoolAfter(50, old(rng.pool)) &&
          (r.Ok? <==> ok) &&
          (r.Ok? ==> r.value == RefreshTokenRes(at, now + Day)) &&
          (!ok ==> r == Err(InsertError(AccessTokens, repo.db.unavailable))) &&
          repo.db.accessTokens == (if ok then old(repo.db.accessTokens) + [a] else old(repo.db.accessTokens)) &&
          (cache != null ==>
             var s1 := AuthRepo.RefreshAside(old(cache.store), cache.failing, rows, req.refreshToken, now).0;
             cache.store == if ok then WriteAccess(s1, cache.failing, at, a, now).0 else s1)
      ensures r.Err? ==> repo.db.accessTokens == old(repo.db.accessTokens)
      ensures r.Ok? && |old(rng.pool)| >= 50 ==> |r.value.accessToken| == 50
    {
      var refreshToken := repo.FindValidRefreshToken(req.refreshToken, now);
      if refreshToken.Err? {
        return Err(refreshToken.error);
      }
      var accessToken := GenerateRandomString(50, rng);
      var accessExpiresAt := now + Day;
      var created := repo.CreateAccessToken(AccessToken(0, 0, refreshToken.value.clientId, accessToken, accessExpiresAt), now);
      if created.Err? {
        return Err(created.error);
      }
      return Ok(RefreshTokenRes(accessToken, accessExpiresAt));
    }
  }
}
