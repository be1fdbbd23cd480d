/**
 * Admin credential and session-cookie logic of src/lib/auth/admin.ts.
 * bcrypt is foreign and enters as the comparison function `bcrypt`; the
 * cookie store is a map from cookie name to cookie.
 */
module AdminAuth {
  import opened Wrappers

  const SessionCookie: string := "tonalfocus_admin_session"
  const DefaultUsername: string := "admin"
  const DevelopmentPassword: string := "admin123"
  /** 60 * 60 * 24 seconds. */
  const SessionMaxAge: nat := 86400

  /** The environment variables the module reads; None is unset. */
  datatype Env = Env(adminUsername: Option<string>, adminPasswordHash: Option<string>, nodeEnv: Option<string>)

  /** `process.env.ADMIN_USERNAME || 'admin'`. */
  function ConfiguredUsername(env: Env): (u: string)
    ensures env.adminUsername.Some? && env.adminUsername.value != "" ==> u == env.adminUsername.value
    ensures env.adminUsername.None? || env.adminUsername == Some("") ==> u == DefaultUsername
    ensures u != ""
  {
    if env.adminUsername.Some? && env.adminUsername.value != "" then env.adminUsername.value else DefaultUsername
  }

  /** `process.env.ADMIN_PASSWORD_HASH || ''`. */
  function ConfiguredHash(env: Env): string {
    env.adminPasswordHash.GetOr("")
  }

  predicate UsesDevelopmentPassword(env: Env) {
    ConfiguredHash(env) == "" && env.nodeEnv == Some("development")
  }

  /** `verifyAdminCredentials(username, password)`. */
  function VerifyAdminCredentials(username: string, password: string, env: Env,
                                  bcrypt: (string, string) -> bool): (ok: bool)
    ensures username != ConfiguredUsername(env) ==> !ok
    ensures username == ConfiguredUsername(env) && UsesDevelopmentPassword(env) ==>
              (ok <==> password == DevelopmentPassword)
    ensures username == ConfiguredUsername(env) && !UsesDevelopmentPassword(env) ==>
              ok == bcrypt(password, ConfiguredHash(env))
  {
    if username != ConfiguredUsername(env) then false
    else if ConfiguredHash(env) == "" && env.nodeEnv == Some("development") then password == DevelopmentPassword
    else bcrypt(password, ConfiguredHash(env))
  }

  /**
   * Without a configured hash outside development every password is refused,
   * given that bcryptjs rejects a hash that is not 60 characters long.
   */
  lemma MissingHashOutsideDevelopmentRefuses(username: string, password: string, env: Env,
                                             bcrypt: (string, string) -> bool)
    requires ConfiguredHash(env) == "" && env.nodeEnv != Some("development") && !bcrypt(password, "")
    ensures !VerifyAdminCredentials(username, password, env, bcrypt)
  {
  }

  /** Outside development the fixed password is only accepted if bcrypt says so. */
  lemma DevelopmentPasswordOnlyInDevelopment(username: string, env: Env, bcrypt: (string, string) -> bool)
    requires env.nodeEnv != Some("development")
    ensures VerifyAdminCredentials(username, DevelopmentPassword, env, bcrypt) ==>
              bcrypt(DevelopmentPassword, ConfiguredHash(env))
  {
  }

  datatype SameSite = Lax | Strict | NoRestriction
  datatype CookieOptions = CookieOptions(httpOnly: bool, secure: bool, sameSite: SameSite, maxAge: nat, path: string)
  datatype Cookie = Cookie(value: string, options: CookieOptions)

  /** A cookie store: name to cookie. */
  type CookieJar = map<string, Cookie>

  /** The options `createAdminSession` sets on the session cookie. */
  function SessionCookieOptions(env: Env): (o: CookieOptions)
    ensures o.httpOnly && o.sameSite == Lax && o.path == "/" && o.maxAge == 24 * 60 * 60
    ensures o.secure <==> env.nodeEnv == Some("production")
  {
    CookieOptions(true, env.nodeEnv == Some("production"), Lax, SessionMaxAge, "/")
  }

  /** `createAdminSession`: stores the session id (a random UUID, passed in) under the session cookie. */
  function CreateAdminSession(jar: CookieJar, sessionId: string, env: Env): (r: CookieJar)
    ensures SessionCookie in r && r[SessionCookie] == Cookie(sessionId, SessionCookieOptions(env))
    ensures forall name :: name in jar && name != SessionCookie ==> name in r && r[name] == jar[name]
    ensures r.Keys == jar.Keys + {SessionCookie}
  {
    jar[SessionCookie := Cookie(sessionId, SessionCookieOptions(env))]
  }

  /**
   * `isAdminAuthenticated`: the session cookie exists with a non-empty
   * value; the value itself is not checked against anything.
   */
  predicate IsAdminAuthenticated(jar: CookieJar) {
    SessionCookie in jar && jar[SessionCookie].value != ""
  }

  /** Any non-empty value under the cookie name authenticates, whoever issued it. */
  lemma AnyNonEmptyValueAuthenticates(jar: CookieJar, value: string, options: CookieOptions)
    requires value != ""
    ensures IsAdminAuthenticated(jar[SessionCookie := Cookie(value, options)])
  {
  }

  /** A session created with a non-empty id (a UUID is 36 characters) authenticates. */
  lemma CreatedSessionAuthenticates(jar: CookieJar, sessionId: string, env: Env)
    requires |sessionId| == 36
    ensures IsAdminAuthenticated(CreateAdminSession(jar, sessionId, env))
  {
    assert sessionId != "";
  }

  /** `clearAdminSession`: deletes the session cookie and nothing else. */
  function ClearAdminSession(jar: CookieJar): (r: CookieJar)
    ensures !IsAdminAuthenticated(r)
    ensures r.Keys == jar.Keys - {SessionCookie}
    ensures forall name :: name in r ==> r[name] == jar[name]
  {
    jar - {SessionCookie}
  }

  /** What a route wrapped by `requireAdmin` answers. */
  datatype Guarded<R> = Unauthorized | Handled(result: R)

  const UnauthorizedStatus: nat := 401

  /** `requireAdmin(handler)`: a 401 without calling the handler, or the handler's result. */
  function RequireAdmin<R>(jar: CookieJar, handler: () -> R): (r: Guarded<R>)
    ensures !IsAdminAuthenticated(jar) <==> r == Unauthorized
    ensures r.Handled? ==> r.result == handler()
  {
    if !IsAdminAuthenticated(jar) then Unauthorized else Handled(handler())
  }

  /** After logout the guard refuses every handler. */
  lemma ClearedSessionIsRefused<R>(jar: CookieJar, handler: () -> R)
    ensures RequireAdmin(ClearAdminSession(jar), handler) == Unauthorized
  {
  }
}
