/** The expired-token reaper of worker/token_cleanup.go: one tick of the cleanup worker. */
module Worker {
  import opened Wrappers
  import opened Models
  import opened Tables

  class TokenCleanupWorker {
    const db: Database

    constructor (db: Database)
      ensures this.db == db
    {
      this.db := db;
    }

    /**
     * Run: with one `now` for both statements, delete the access tokens and then the refresh
     * tokens that expired before it; the first failure stops the tick and is returned.
     */
    method Run(now: int) returns (err: Option<DbError>)
      modifies db`accessTokens, db`refreshTokens
      ensures AccessTokens in db.unavailable ==>
        (err == Some(Unavailable(AccessTokens)) && db.accessTokens == old(db.accessTokens) && db.refreshTokens == old(db.refreshTokens))
      ensures AccessTokens !in db.unavailable ==> db.accessTokens == UnexpiredAccess(old(db.accessTokens), now)
      ensures AccessTokens !in db.unavailable && RefreshTokens in db.unavailable ==>
        (err == Some(Unavailable(RefreshTokens)) && db.refreshTokens == old(db.refreshTokens))
      ensures AccessTokens !in db.unavailable && RefreshTokens !in db.unavailable ==>
        (err == None && db.refreshTokens == UnexpiredRefresh(old(db.refreshTokens), now))
      ensures err == None ==>
        (forall t :: t in db.accessTokens <==> t in old(db.accessTokens) && t.expiredAt >= now) &&
        (forall t :: t in db.refreshTokens <==> t in old(db.refreshTokens) && t.expiredAt >= now)
    {
      var accessDeleted, accessErr := db.DeleteExpiredAccessTokens(now);
      if accessErr.Some? {
        return accessErr;
      }
      var refreshDeleted, refreshErr := db.DeleteExpiredRefreshTokens(now);
      if refreshErr.Some? {
        return refreshErr;
      }
      UnexpiredAccessKeeps(old(db.accessTokens), now);
      UnexpiredRefreshKeeps(old(db.refreshTokens), now);
      return None;
    }
  }

  /** A second tick with the same `now` deletes nothing. */
  lemma SecondRunDeletesNothing(access: seq<AccessToken>, refresh: seq<RefreshToken>, now: int)
    ensures UnexpiredAccess(UnexpiredAccess(access, now), now) == UnexpiredAccess(access, now)
    ensures UnexpiredRefresh(UnexpiredRefresh(refresh, now), now) == UnexpiredRefresh(refresh, now)
  {
    UnexpiredAccessIdempotent(access, now);
    UnexpiredRefreshIdempotent(refresh, now);
  }
}
