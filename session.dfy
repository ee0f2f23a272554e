/**
 * The session token shared by the verifier (which issues it) and the middleware (which checks
 * it): the HS256 secret taken from the environment, the payload and the cookie that carries it.
 */
module Session {
  import opened Bytes
  import opened Crypto
  import opened Http
  import Utf8

  /** The two environment variables the routes read; an unset variable is the empty string. */
  datatype Env = Env(jwtSecret: string, nodeEnv: string)

  const DefaultSecret := "your-secret-key"
  const CookieName := "token"
  /** 24 hours, in seconds: the token's lifetime and the cookie's `maxAge`. */
  const SessionSeconds := 24 * 60 * 60

  /** `new TextEncoder().encode(process.env.JWT_SECRET || 'your-secret-key')`. */
  function SecretKey(env: Env): (k: Bytes)
    ensures env.jwtSecret != "" ==> k == Utf8.Encode(env.jwtSecret)
    ensures env.jwtSecret == "" ==> k == Utf8.Encode(DefaultSecret)
  {
    Utf8.Encode(if env.jwtSecret != "" then env.jwtSecret else DefaultSecret)
  }

  /**
   * The payload `new SignJWT({ did }).setIssuedAt().setExpirationTime('24h')` signs at
   * `nowMs`: issued at the current second and expiring 24 hours later.
   */
  function Payload(did: string, nowMs: nat): (pl: JwtPayload)
    ensures pl.did == did && pl.exp - pl.iat == SessionSeconds
  {
    JwtPayload(did, nowMs / 1000, nowMs / 1000 + SessionSeconds)
  }

  /** The issued-at claim is the second in which `nowMs` falls. */
  lemma PayloadSecond(did: string, nowMs: nat)
    ensures var pl := Payload(did, nowMs); pl.iat * 1000 <= nowMs < (pl.iat + 1) * 1000
  {
  }

  /** The `token` cookie: HTTP-only, `secure` exactly in production, `lax`, one day, whole site. */
  function TokenCookie(token: string, env: Env): (c: Cookie)
    ensures c.name == CookieName && c.value == token && c.httpOnly
    ensures c.secure <==> env.nodeEnv == "production"
    ensures c.sameSite == "lax" && c.maxAge == SessionSeconds && c.path == "/"
  {
    Cookie(CookieName, token, true, env.nodeEnv == "production", "lax", SessionSeconds, "/")
  }
}
