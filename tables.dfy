/**
 * The relational store behind the credential engine: the users, secrets, access_tokens and
 * refresh_tokens tables, with the unique indexes their record definitions declare and the
 * queries the repository and the cleanup worker issue.
 *
 * Each insert takes the next id of its table and stamps the row with the current time, as the
 * shared base model does. A table can be made unreachable by naming it in `unavailable`.
 */
module Tables {
  import opened Wrappers
  import opened Models

  datatype Table = Users | Secrets | AccessTokens | RefreshTokens

  /** gorm's record-not-found, a unique-index violation, and the database unreachable for a table. */
  datatype DbError = RecordNotFound | DuplicateKey(table: Table) | Unavailable(table: Table)

  // ------------------------------------------------------------ queries

  /** `WHERE client_id = ? ... First`: the earliest user row with that client id. */
  function FindUser(rows: seq<User>, clientId: string): (r: Result<User, DbError>)
    ensures r.Ok? ==> r.value in rows && r.value.clientId == clientId
    ensures r.Err? ==> r.error == RecordNotFound && forall u :: u in rows ==> u.clientId != clientId
  {
    if rows == [] then Err(RecordNotFound)
    else if rows[0].clientId == clientId then Ok(rows[0])
    else FindUser(rows[1..], clientId)
  }

  function FindSecret(rows: seq<Secret>, clientId: string): (r: Result<Secret, DbError>)
    ensures r.Ok? ==> r.value in rows && r.value.clientId == clientId
    ensures r.Err? ==> r.error == RecordNotFound && forall s :: s in rows ==> s.clientId != clientId
  {
    if rows == [] then Err(RecordNotFound)
    else if rows[0].clientId == clientId then Ok(rows[0])
    else FindSecret(rows[1..], clientId)
  }

  /** `WHERE token = ? AND expired_at > ? ... First`: a matching row that expires strictly after `now`. */
  function FindValidAccess(rows: seq<AccessToken>, token: string, now: int): (r: Result<AccessToken, DbError>)
    ensures r.Ok? ==> r.value in rows && r.value.token == token && r.value.expiredAt > now
    ensures r.Err? ==> r.error == RecordNotFound && forall t :: t in rows && t.token == token ==> t.expiredAt <= now
  {
    if rows == [] then Err(RecordNotFound)
    else if rows[0].token == token && rows[0].expiredAt > now then Ok(rows[0])
    else FindValidAccess(rows[1..], token, now)
  }

  function FindValidRefresh(rows: seq<RefreshToken>, token: string, now: int): (r: Result<RefreshToken, DbError>)
    ensures r.Ok? ==> r.value in rows && r.value.token == token && r.value.expiredAt > now
    ensures r.Err? ==> r.error == RecordNotFound && forall t :: t in rows && t.token == token ==> t.expiredAt <= now
  {
    if rows == [] then Err(RecordNotFound)
    else if rows[0].token == token && rows[0].expiredAt > now then Ok(rows[0])
    else FindValidRefresh(rows[1..], token, now)
  }

  // ------------------------------------------------------------ unique indexes

  /** A new user clashes on the unique client_id or email index. */
  predicate UserClash(rows: seq<User>, u: User) {
    exists r :: r in rows && (r.clientId == u.clientId || r.email == u.email)
  }

  /** A new secret clashes on the unique secret or secondary_secret index. */
  predicate SecretClash(rows: seq<Secret>, s: Secret) {
    exists r :: r in rows && (r.secret == s.secret || r.secondarySecret == s.secondarySecret)
  }

  predicate AccessClash(rows: seq<AccessToken>, t: AccessToken) {
    exists r :: r in rows && r.token == t.token
  }

  predicate RefreshClash(rows: seq<RefreshToken>, t: RefreshToken) {
    exists r :: r in rows && r.token == t.token
  }

  /** The unique token index: no two rows share a token. */
  predicate UniqueAccess(rows: seq<AccessToken>) {
    forall i, j :: 0 <= i < |rows| && 0 <= j < |rows| && rows[i].token == rows[j].token ==> i == j
  }

  predicate UniqueRefresh(rows: seq<RefreshToken>) {
    forall i, j :: 0 <= i < |rows| && 0 <= j < |rows| && rows[i].token == rows[j].token ==> i == j
  }

  /** A token inserted without a clash is the one a valid-token query finds, until it expires. */
  lemma {:induction false} InsertedAccessFound(rows: seq<AccessToken>, t: AccessToken, now: int)
    requires !AccessClash(rows, t) && t.expiredAt > now
    ensures FindValidAccess(rows + [t], t.token, now) == Ok(t)
  {
    if rows != [] {
      assert (rows + [t])[1..] == rows[1..] + [t];
      InsertedAccessFound(rows[1..], t, now);
    }
  }

  lemma {:induction false} InsertedRefreshFound(rows: seq<RefreshToken>, t: RefreshToken, now: int)
    requires !RefreshClash(rows, t) && t.expiredAt > now
    ensures FindValidRefresh(rows + [t], t.token, now) == Ok(t)
  {
    if rows != [] {
      assert (rows + [t])[1..] == rows[1..] + [t];
      InsertedRefreshFound(rows[1..], t, now);
    }
  }

  /** Inserting a token that does not clash keeps the token index unique. */
  lemma InsertKeepsUnique(rows: seq<AccessToken>, t: AccessToken)
    requires UniqueAccess(rows) && !AccessClash(rows, t)
    ensures UniqueAccess(rows + [t])
  {
  }

  lemma InsertKeepsUniqueRefresh(rows: seq<RefreshToken>, t: RefreshToken)
    requires UniqueRefresh(rows) && !RefreshClash(rows, t)
    ensures UniqueRefresh(rows + [t])
  {
  }

  // ------------------------------------------------------------ table reads

  /** A user query: the table unreachable, or the earliest row with the client id. */
  function QueryUser(rows: seq<User>, unavailable: set<Table>, clientId: string): Result<User, DbError> {
    if Users in unavailable then Err(Unavailable(Users)) else FindUser(rows, clientId)
  }

  function QuerySecret(rows: seq<Secret>, unavailable: set<Table>, clientId: string): Result<Secret, DbError> {
    if Secrets in unavailable then Err(Unavailable(Secrets)) else FindSecret(rows, clientId)
  }

  function QueryAccess(rows: seq<AccessToken>, unavailable: set<Table>, token: string, now: int): Result<AccessToken, DbError> {
    if AccessTokens in unavailable then Err(Unavailable(AccessTokens)) else FindValidAccess(rows, token, now)
  }

  function QueryRefresh(rows: seq<RefreshToken>, unavailable: set<Table>, token: string, now: int): Result<RefreshToken, DbError> {
    if RefreshTokens in unavailable then Err(Unavailable(RefreshTokens)) else FindValidRefresh(rows, token, now)
  }

  // ------------------------------------------------------------ expiry sweep

  /** The access-token rows a `DELETE ... WHERE expired_at < now` leaves, in their order. */
  function UnexpiredAccess(rows: seq<AccessToken>, now: int): (r: seq<AccessToken>)
    ensures |r| <= |rows|
  {
    if rows == [] then []
    else UnexpiredAccess(rows[..|rows| - 1], now) + (if rows[|rows| - 1].expiredAt < now then [] else [rows[|rows| - 1]])
  }

  function UnexpiredRefresh(rows: seq<RefreshToken>, now: int): (r: seq<RefreshToken>)
    ensures |r| <= |rows|
  {
    if rows == [] then []
    else UnexpiredRefresh(rows[..|rows| - 1], now) + (if rows[|rows| - 1].expiredAt < now then [] else [rows[|rows| - 1]])
  }

  /** The sweep keeps exactly the rows with `expired_at >= now`, a row expiring at `now` included. */
  lemma {:induction false} UnexpiredAccessKeeps(rows: seq<AccessToken>, now: int)
    ensures forall t :: t in UnexpiredAccess(rows, now) <==> t in rows && t.expiredAt >= now
  {
    if rows != [] {
      var init := rows[..|rows| - 1];
      UnexpiredAccessKeeps(init, now);
      assert rows == init + [rows[|rows| - 1]];
    }
  }

  lemma {:induction false} UnexpiredRefreshKeeps(rows: seq<RefreshToken>, now: int)
    ensures forall t :: t in UnexpiredRefresh(rows, now) <==> t in rows && t.expiredAt >= now
  {
    if rows != [] {
      var init := rows[..|rows| - 1];
      UnexpiredRefreshKeeps(init, now);
      assert rows == init + [rows[|rows| - 1]];
    }
  }

  /** A second sweep with the same `now` removes nothing. */
  lemma {:induction false} UnexpiredAccessIdempotent(rows: seq<AccessToken>, now: int)
    ensures UnexpiredAccess(UnexpiredAccess(rows, now), now) == UnexpiredAccess(rows, now)
  {
    if rows != [] {
      var init := rows[..|rows| - 1];
      var last := rows[|rows| - 1];
      UnexpiredAccessIdempotent(init, now);
      var prefix := UnexpiredAccess(init, now);
      assert rows[..|rows| - 1] == init;
      if last.expiredAt >= now {
        var s := prefix + [last];
        assert UnexpiredAccess(rows, now) == s;
        assert s[..|s| - 1] == prefix && s[|s| - 1] == last;
        assert UnexpiredAccess(s, now) == UnexpiredAccess(prefix, now) + [last];
      } else {
        assert UnexpiredAccess(rows, now) == prefix;
      }
    }
  }

  lemma {:induction false} UnexpiredRefreshIdempotent(rows: seq<RefreshToken>, now: int)
    ensures UnexpiredRefresh(UnexpiredRefresh(rows, now), now) == UnexpiredRefresh(rows, now)
  {
    if rows != [] {
      var init := rows[..|rows| - 1];
      var last := rows[|rows| - 1];
      UnexpiredRefreshIdempotent(init, now);
      var prefix := UnexpiredRefresh(init, now);
      assert rows[..|rows| - 1] == init;
      if last.expiredAt >= now {
        var s := prefix + [last];
        assert UnexpiredRefresh(rows, now) == s;
        assert s[..|s| - 1] == prefix && s[|s| - 1] == last;
        assert UnexpiredRefresh(s, now) == UnexpiredRefresh(prefix, now) + [last];
      } else {
        assert UnexpiredRefresh(rows, now) == prefix;
      }
    }
  }

  /** The error a failed insert reports: the table unreachable, or else a unique-index violation. */
  function InsertError(t: Table, unavailable: set<Table>): (e: DbError)
    ensures !e.RecordNotFound? && e.table == t
    ensures e.Unavailable? <==> t in unavailable
  {
    if t in unavailable then Unavailable(t) else DuplicateKey(t)
  }

  /**
   * The user row gorm inserts: a zero-valued column with a declared default is left out of the
   * INSERT, so `is_active` false becomes the default true and an empty description becomes the
   * text 'null'.
   */
  function UserDefaults(u: User): (r: User)
    ensures r.isActive
    ensures r.description != ""
    ensures u.description != "" ==> r.description == u.description
    ensures r.(isActive := u.isActive, description := u.description) == u
  {
    u.(isActive := true, description := if u.description == "" then "null" else u.description)
  }

  // ------------------------------------------------------------ the database object

  class Database {
    var users: seq<User>
    var secrets: seq<Secret>
    var accessTokens: seq<AccessToken>
    var refreshTokens: seq<RefreshToken>
    /**
     * The last id each table's sequence handed out. A sequence value is taken before the unique
     * indexes are checked, so an insert that violates one still uses it up, and a rollback
     * does not give it back.
     */
    var lastUserId: nat
    var lastSecretId: nat
    var lastAccessId: nat
    var lastRefreshId: nat
    const unavailable: set<Table>

    constructor (unavailable: set<Table>)
      ensures users == [] && secrets == [] && accessTokens == [] && refreshTokens == []
      ensures lastUserId == 0 && lastSecretId == 0 && lastAccessId == 0 && lastRefreshId == 0
      ensures this.unavailable == unavailable
    {
      users, secrets, accessTokens, refreshTokens := [], [], [], [];
      lastUserId, lastSecretId, lastAccessId, lastRefreshId := 0, 0, 0, 0;
      this.unavailable := unavailable;
    }

    /** INSERT INTO users: fails on the unique client_id and email indexes; stores the row with the column defaults applied. */
    method InsertUser(u: User, now: int) returns (r: Result<User, DbError>)
      modifies this`users, this`lastUserId
      ensures Users in unavailable ==> r == Err(Unavailable(Users))
      ensures Users !in unavailable && UserClash(old(users), u) ==> r == Err(DuplicateKey(Users))
      ensures r.Err? ==> users == old(users) && lastUserId == old(lastUserId) + (if Users in unavailable then 0 else 1)
      ensures Users !in unavailable && !UserClash(old(users), u) ==>
        (r == Ok(UserDefaults(u).(id := old(lastUserId) + 1, createdAt := now)) && users == old(users) + [r.value] && lastUserId == old(lastUserId) + 1)
    {
      if Users in unavailable {
        return Err(Unavailable(Users));
      }
      lastUserId := lastUserId + 1;
      if UserClash(users, u) {
        return Err(DuplicateKey(Users));
      }
      var row := UserDefaults(u).(id := lastUserId, createdAt := now);
      users := users + [row];
      return Ok(row);
    }

    /** INSERT INTO secrets: fails on the unique secret and secondary_secret indexes. */
    method InsertSecret(s: Secret, now: int) returns (r: Result<Secret, DbError>)
      modifies this`secrets, this`lastSecretId
      ensures Secrets in unavailable ==> r == Err(Unavailable(Secrets))
      ensures Secrets !in unavailable && SecretClash(old(secrets), s) ==> r == Err(DuplicateKey(Secrets))
      ensures r.Err? ==> secrets == old(secrets) && lastSecretId == old(lastSecretId) + (if Secrets in unavailable then 0 else 1)
      ensures Secrets !in unavailable && !SecretClash(old(secrets), s) ==>
        (r == Ok(s.(id := old(lastSecretId) + 1, createdAt := now)) && secrets == old(secrets) + [r.value] && lastSecretId == old(lastSecretId) + 1)
    {
      if Secrets in unavailable {
        return Err(Unavailable(Secrets));
      }
      lastSecretId := lastSecretId + 1;
      if SecretClash(secrets, s) {
        return Err(DuplicateKey(Secrets));
      }
      var row := s.(id := lastSecretId, createdAt := now);
      secrets := secrets + [row];
      return Ok(row);
    }

    /** INSERT INTO access_tokens: fails on the unique token index. */
    method InsertAccessToken(t: AccessToken, now: int) returns (r: Result<AccessToken, DbError>)
      modifies this`accessTokens, this`lastAccessId
      ensures AccessTokens in unavailable ==> r == Err(Unavailable(AccessTokens))
      ensures AccessTokens !in unavailable && AccessClash(old(accessTokens), t) ==> r == Err(DuplicateKey(AccessTokens))
      ensures r.Err? ==> accessTokens == old(accessTokens) && lastAccessId == old(lastAccessId) + (if AccessTokens in unavailable then 0 else 1)
      ensures AccessTokens !in unavailable && !AccessClash(old(accessTokens), t) ==>
        (r == Ok(t.(id := old(lastAccessId) + 1, createdAt := now)) && accessTokens == old(accessTokens) + [r.value] && lastAccessId == old(lastAccessId) + 1)
    {
      if AccessTokens in unavailable {
        return Err(Unavailable(AccessTokens));
      }
      lastAccessId := lastAccessId + 1;
      if AccessClash(accessTokens, t) {
        return Err(DuplicateKey(AccessTokens));
      }
      var row := t.(id := lastAccessId, createdAt := now);
      accessTokens := accessTokens + [row];
      return Ok(row);
    }

    /** INSERT INTO refresh_tokens: fails on the unique token index. */
    method InsertRefreshToken(t: RefreshToken, now: int) returns (r: Result<RefreshToken, DbError>)
      modifies this`refreshTokens, this`lastRefreshId
      ensures RefreshTokens in unavailable ==> r == Err(Unavailable(RefreshTokens))
      ensures RefreshTokens !in unavailable && RefreshClash(old(refreshTokens), t) ==> r == Err(DuplicateKey(RefreshTokens))
      ensures r.Err? ==> refreshTokens == old(refreshTokens) && lastRefreshId == old(lastRefreshId) + (if RefreshTokens in unavailable then 0 else 1)
      ensures RefreshTokens !in unavailable && !RefreshClash(old(refreshTokens), t) ==>
        (r == Ok(t.(id := old(lastRefreshId) + 1, createdAt := now)) && refreshTokens == old(refreshTokens) + [r.value] && lastRefreshId == old(lastRefreshId) + 1)
    {
      if RefreshTokens in unavailable {
        return Err(Unavailable(RefreshTokens));
      }
      lastRefreshId := lastRefreshId + 1;
      if RefreshClash(refreshTokens, t) {
        return Err(DuplicateKey(RefreshTokens));
      }
      var row := t.(id := lastRefreshId, createdAt := now);
      refreshTokens := refreshTokens + [row];
      return Ok(row);
    }

    /** ROLLBACK of a transaction that may have inserted users: the rows go, the sequence does not. */
    method RollbackUsers(saved: seq<User>)
      modifies this`users
      ensures users == saved
    {
      users := saved;
    }

    /** The earliest user row with the client id, or the reason there is none. */
    method FirstUser(clientId: string) returns (r: Result<User, DbError>)
      ensures r == QueryUser(users, unavailable, clientId)
    {
      if Users in unavailable {
        return Err(Unavailable(Users));
      }
      return FindUser(users, clientId);
    }

    method FirstSecret(clientId: string) returns (r: Result<Secret, DbError>)
      ensures r == QuerySecret(secrets, unavailable, clientId)
    {
      if Secrets in unavailable {
        return Err(Unavailable(Secrets));
      }
      return FindSecret(secrets, clientId);
    }

    method FirstValidAccessToken(token: string, now: int) returns (r: Result<AccessToken, DbError>)
      ensures r == QueryAccess(accessTokens, unavailable, token, now)
    {
      if AccessTokens in unavailable {
        return Err(Unavailable(AccessTokens));
      }
      return FindValidAccess(accessTokens, token, now);
    }

    method FirstValidRefreshToken(token: string, now: int) returns (r: Result<RefreshToken, DbError>)
      ensures r == QueryRefresh(refreshTokens, unavailable, token, now)
    {
      if RefreshTokens in unavailable {
        return Err(Unavailable(RefreshTokens));
      }
      return FindValidRefresh(refreshTokens, token, now);
    }

    /** DELETE FROM access_tokens WHERE expired_at < now: scans the table, keeping the other rows in order. */
    method DeleteExpiredAccessTokens(now: int) returns (deleted: nat, err: Option<DbError>)
      modifies this`accessTokens
      ensures AccessTokens in unavailable ==> err == Some(Unavailable(AccessTokens)) && accessTokens == old(accessTokens) && deleted == 0
      ensures AccessTokens !in unavailable ==>
        (err == None && accessTokens == UnexpiredAccess(old(accessTokens), now) && deleted == |old(accessTokens)| - |accessTokens|)
    {
      if AccessTokens in unavailable {
        return 0, Some(Unavailable(AccessTokens));
      }
      var kept: seq<AccessToken> := [];
      for i := 0 to |accessTokens|
        invariant kept == UnexpiredAccess(accessTokens[..i], now)
      {
        assert accessTokens[..i + 1][..i] == accessTokens[..i];
        if accessTokens[i].expiredAt >= now {
          kept := kept + [accessTokens[i]];
        }
      }
      assert accessTokens[..|accessTokens|] == accessTokens;
      deleted := |accessTokens| - |kept|;
      accessTokens := kept;
      err := None;
    }

    /** DELETE FROM refresh_tokens WHERE expired_at < now. */
    method DeleteExpiredRefreshTokens(now: int) returns (deleted: nat, err: Option<DbError>)
      modifies this`refreshTokens
      ensures RefreshTokens in unavailable ==> err == Some(Unavailable(RefreshTokens)) && refreshTokens == old(refreshTokens) && deleted == 0
      ensures RefreshTokens !in unavailable ==>
        (err == None && refreshTokens == UnexpiredRefresh(old(refreshTokens), now) && deleted == |old(refreshTokens)| - |refreshTokens|)
    {
      if RefreshTokens in unavailable {
        return 0, Some(Unavailable(RefreshTokens));
      }
      var kept: seq<RefreshToken> := [];
      for i := 0 to |refreshTokens|
        invariant kept == UnexpiredRefresh(refreshTokens[..i], now)
      {
        assert refreshTokens[..i + 1][..i] == refreshTokens[..i];
        if refreshTokens[i].expiredAt >= now {
          kept := kept + [refreshTokens[i]];
        }
      }
      assert refreshTokens[..|refreshTokens|] == refreshTokens;
      deleted := |refreshTokens| - |kept|;
      refreshTokens := kept;
      err := None;
    }
  }
}
