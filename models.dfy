/**
 * Record shapes of the credential engine (the models and dto packages). Times are whole seconds
 * since the Unix epoch; `id` and `createdAt` are the fields the shared base model adds.
 */
module Models {

  /** 24 hours: the lifetime of an access token and of a cached session. */
  const Day: int := 86400

  /** 7 days: the lifetime of a refresh token. */
  const Week: int := 7 * 86400

  /** 5 minutes: how long a cached client lives. */
  const ClientTtl: int := 300

  datatype User = User(id: nat, createdAt: int, clientId: string, name: string, email: string, isActive: bool, description: string)

  datatype Secret = Secret(id: nat, createdAt: int, clientId: string, secret: string, secondarySecret: string)

  datatype AccessToken = AccessToken(id: nat, createdAt: int, clientId: string, token: string, expiredAt: int)

  datatype RefreshToken = RefreshToken(id: nat, createdAt: int, clientId: string, token: string, accessTokenId: nat, expiredAt: int)

  /** The session record kept in the cache (stored as the record itself rather than its JSON text). */
  datatype SessionData = SessionData(clientId: string, token: string, loginTime: int, ipAddress: string,
                                     userAgent: string, deviceType: string, lastActivity: int)

  datatype ClientWithSecrets = ClientWithSecrets(user: User, secret: Secret)

  datatype RegisterClientRes = RegisterClientRes(clientId: string, secret: string, secondarySecret: string)

  datatype TokenResponse = TokenResponse(accessToken: string, refreshToken: string, accessExpiresAt: int, refreshExpiresAt: int)

  datatype RefreshTokenRes = RefreshTokenRes(accessToken: string, accessExpiresAt: int)

  datatype SessionResponse = SessionResponse(clientId: string, token: string, loginTime: int, ipAddress: string,
                                             userAgent: string, deviceType: string, lastActivity: int)
}
