/**
 * The decisions of the admin authentication controller, as functions of the
 * two in-memory stores it keeps: failed login attempts per client address and
 * live sessions per token. The clock, the generated token, the configured
 * secret and the production flag are parameters. The controller object that
 * updates the stores in place is in module Auth; its methods are proved to
 * leave exactly the state these functions compute.
 */
module AuthLogic {
  import opened Wrappers
  import opened Text
  import opened Sanitizer

  const MaxLoginAttempts: int := 5
  const LockoutDuration: int := 15 * 60 * 1000
  const SessionDuration: int := 24 * 60 * 60 * 1000
  const SessionInactivityLimit: int := 2 * 60 * 60 * 1000

  /** The one principal the controller logs in. */
  const Admin: string := "admin"

  /** Passwords refused whatever the configured secret, compared lower-cased. */
  const WeakPasswords: seq<string> := ["password", "123456", "admin", "test", "qwerty"]

  /** Failed logins from one client address. */
  datatype Attempt = Attempt(count: int, lastAttempt: int)

  /** A session: its principal, its hard expiry and its last use. */
  datatype Session = Session(userId: string, expiresAt: int, lastActivity: int)

  type Attempts = map<string, Attempt>
  type Sessions = map<string, Session>

  // ---------------------------------------------------------------------
  // Login throttle

  /** The last failure is recent enough to count towards a lock. */
  predicate Recent(a: Attempt, now: int)
  {
    now - a.lastAttempt <= LockoutDuration
  }

  datatype Checked = Checked(limited: bool, attempts: Attempts)

  /** `isRateLimited`: whether `ip` is locked out at `now`. A stale record is
      dropped on the spot; nothing else is touched. */
  function IsRateLimited(attempts: Attempts, ip: string, now: int): (r: Checked)
    ensures r.limited <==> ip in attempts && Recent(attempts[ip], now) && attempts[ip].count >= MaxLoginAttempts
    ensures ip in r.attempts <==> ip in attempts && Recent(attempts[ip], now)
    ensures forall k :: k != ip ==> (k in r.attempts <==> k in attempts)
    ensures forall k :: k in r.attempts ==> r.attempts[k] == attempts[k]
  {
    if ip !in attempts then Checked(false, attempts)
    else if now - attempts[ip].lastAttempt > LockoutDuration then Checked(false, attempts - {ip})
    else Checked(attempts[ip].count >= MaxLoginAttempts, attempts)
  }

  /** Failures recorded so far for `ip`, none when there is no record. */
  function FailureCount(attempts: Attempts, ip: string): int
  {
    if ip in attempts then attempts[ip].count else 0
  }

  /** `recordLoginAttempt`: a success forgets `ip`; a failure counts one more
      and stamps it with `now`. Other addresses are untouched. */
  function RecordLoginAttempt(attempts: Attempts, ip: string, success: bool, now: int): (r: Attempts)
    ensures ip in r <==> !success
    ensures !success ==> r[ip].count == FailureCount(attempts, ip) + 1 && r[ip].lastAttempt == now
    ensures forall k :: k != ip ==> (k in r <==> k in attempts)
    ensures forall k :: k != ip && k in r ==> r[k] == attempts[k]
  {
    if success then attempts - {ip}
    else attempts[ip := Attempt(FailureCount(attempts, ip) + 1, now)]
  }

  /** Once the last failure is more than the lockout duration old the lock is
      lifted, the record is gone, and a new failure starts counting from one. */
  lemma LockLiftsAfterLockout(attempts: Attempts, ip: string, now: int)
    requires ip in attempts && now - attempts[ip].lastAttempt > LockoutDuration
    ensures !IsRateLimited(attempts, ip, now).limited
    ensures RecordLoginAttempt(IsRateLimited(attempts, ip, now).attempts, ip, false, now)[ip] == Attempt(1, now)
  {
  }

  // ---------------------------------------------------------------------
  // Password policy

  /** JavaScript truthiness of a request body field; `None` is a missing field. */
  predicate Truthy(v: Option<Json>)
  {
    match v
    case None => false
    case Some(j) =>
      match j
      case JNull => false
      case JBool(b) => b
      case JNum(n) => n != 0
      case JStr(s) => s != []
      case _ => true
  }

  /** `validatePassword`: a string of at least eight characters, not a weak
      password in any letter case, and equal to the configured secret (an
      unset secret matches nothing). */
  function ValidatePassword(password: Json, secret: Option<string>): (ok: bool)
    ensures ok ==> password.JStr? && secret == Some(password.s)
    ensures ok ==> |password.s| >= 8 && LowerAscii(password.s) !in WeakPasswords
    ensures (password.JStr? && secret == Some(password.s) && |password.s| >= 8 &&
             LowerAscii(password.s) !in WeakPasswords) ==> ok
  {
    match password
    case JStr(p) =>
      if |p| < 8 then false
      else if LowerAscii(p) in WeakPasswords then false
      else secret == Some(p)
    case _ => false
  }

  /** Only one weak password is long enough to matter: for a candidate that
      passes the length rule, the weak list reduces to "password". */
  lemma WeakListReducesToPassword(p: string)
    requires |p| >= 8
    ensures LowerAscii(p) in WeakPasswords <==> LowerAscii(p) == "password"
  {
    var l := LowerAscii(p);
    assert |l| >= 8;
    assert l != "123456" && l != "admin" && l != "test" && l != "qwerty" by {
      assert |"123456"| == 6 && |"admin"| == 5 && |"test"| == 4 && |"qwerty"| == 6;
    }
  }

  /** Reference form of the policy: exactly the secret itself, provided the
      secret is long enough and is not "password" in some letter case. A
      secret that breaks either rule locks everyone out. */
  lemma ValidatePasswordReference(password: string, secret: string)
    ensures ValidatePassword(JStr(password), Some(secret)) <==>
      password == secret && |secret| >= 8 && LowerAscii(secret) != "password"
  {
    if |password| >= 8 {
      WeakListReducesToPassword(password);
    }
  }

  // ---------------------------------------------------------------------
  // Sessions

  /** Not past its expiry and not idle for longer than the inactivity limit. */
  predicate Live(s: Session, now: int)
  {
    now <= s.expiresAt && now - s.lastActivity <= SessionInactivityLimit
  }

  /** `createSession`: the token now names a fresh session for `userId`. */
  function CreateSession(sessions: Sessions, userId: string, token: string, now: int): (r: Sessions)
    ensures r.Keys == sessions.Keys + {token}
    ensures r[token].userId == userId && r[token].lastActivity == now
    ensures r[token].expiresAt - r[token].lastActivity == SessionDuration
    ensures forall t :: t in sessions && t != token ==> r[t] == sessions[t]
  {
    sessions[token := Session(userId, now + SessionDuration, now)]
  }

  datatype Validated = Validated(valid: bool, sessions: Sessions)

  /** `validateSession`: a live session is touched and accepted; any other
      token is refused and its session, if any, is dropped. */
  function ValidateSession(sessions: Sessions, token: string, now: int): (r: Validated)
    ensures r.valid <==> token in sessions && Live(sessions[token], now)
    ensures r.valid ==> r.sessions == sessions[token := sessions[token].(lastActivity := now)]
    ensures !r.valid ==> r.sessions == sessions - {token}
  {
    if token !in sessions then Validated(false, sessions)
    else
      var session := sessions[token];
      if now > session.expiresAt then Validated(false, sessions - {token})
      else if now - session.lastActivity > SessionInactivityLimit then Validated(false, sessions - {token})
      else Validated(true, sessions[token := session.(lastActivity := now)])
  }

  /** `cleanupSessions`: the sessions still live at `now`, unmodified. */
  function CleanupSessions(sessions: Sessions, now: int): (r: Sessions)
    ensures forall t :: t in r <==> t in sessions && Live(sessions[t], now)
    ensures forall t :: t in r ==> r[t] == sessions[t]
  {
    map t | t in sessions && Live(sessions[t], now) :: sessions[t]
  }

  /** The sessions of every principal but `userId`. */
  function DropSessionsOf(sessions: Sessions, userId: string): (r: Sessions)
    ensures forall t :: t in r <==> t in sessions && sessions[t].userId != userId
    ensures forall t :: t in r ==> r[t] == sessions[t]
  {
    map t | t in sessions && sessions[t].userId != userId :: sessions[t]
  }

  lemma CleanupIdempotent(sessions: Sessions, now: int)
    ensures CleanupSessions(CleanupSessions(sessions, now), now) == CleanupSessions(sessions, now)
  {
  }

  /** A cleanup at an earlier or equal instant never changes whether a token
      validates later, nor what validation leaves for that token. */
  lemma CleanupInvisibleToValidation(sessions: Sessions, token: string, swept: int, now: int)
    requires swept <= now
    ensures ValidateSession(CleanupSessions(sessions, swept), token, now).valid == ValidateSession(sessions, token, now).valid
    ensures ValidateSession(sessions, token, now).valid ==>
      ValidateSession(CleanupSessions(sessions, swept), token, now).sessions[token] == ValidateSession(sessions, token, now).sessions[token]
  {
  }

  /** The session a token has after a series of validations at `times`,
      with the outcome of each. */
  datatype Trail = Trail(sessions: Sessions, valid: seq<bool>)

  function ValidateRun(sessions: Sessions, token: string, times: seq<int>): (r: Trail)
    ensures |r.valid| == |times|
  {
    if times == [] then Trail(sessions, [])
    else
      var prev := ValidateRun(sessions, token, times[..|times| - 1]);
      var v := ValidateSession(prev.sessions, token, times[|times| - 1]);
      Trail(v.sessions, prev.valid + [v.valid])
  }

  /** A session created at `t0` and used at least every two hours stays valid
      up to 24 hours after its creation, keeping its principal and expiry. */
  lemma {:induction false} ActiveSessionStaysValid(sessions: Sessions, userId: string, token: string, t0: int, times: seq<int>)
    requires forall i :: 0 <= i < |times| ==> times[i] <= t0 + SessionDuration
    requires |times| > 0 ==> t0 <= times[0] && times[0] - t0 <= SessionInactivityLimit
    requires forall i :: 0 < i < |times| ==> times[i - 1] <= times[i] && times[i] - times[i - 1] <= SessionInactivityLimit
    ensures var r := ValidateRun(CreateSession(sessions, userId, token, t0), token, times);
      (forall i :: 0 <= i < |times| ==> r.valid[i]) &&
      token in r.sessions &&
      r.sessions[token] == Session(userId, t0 + SessionDuration, if times == [] then t0 else times[|times| - 1])
  {
    if times != [] {
      var init := times[..|times| - 1];
      ActiveSessionStaysValid(sessions, userId, token, t0, init);
      var prev := ValidateRun(CreateSession(sessions, userId, token, t0), token, init);
      var r := ValidateRun(CreateSession(sessions, userId, token, t0), token, times);
      assert forall i :: 0 <= i < |init| ==> r.valid[i] == prev.valid[i];
    }
  }

  /** However often it is used, a session created at `t0` is refused at any
      instant more than 24 hours later. */
  lemma {:induction false} NoSessionOutlivesItsDuration(sessions: Sessions, userId: string, token: string, t0: int, times: seq<int>)
    ensures var r := ValidateRun(CreateSession(sessions, userId, token, t0), token, times);
      (token in r.sessions ==> r.sessions[token].expiresAt == t0 + SessionDuration) &&
      (forall i :: 0 <= i < |times| && times[i] > t0 + SessionDuration ==> !r.valid[i])
  {
    if times != [] {
      var init := times[..|times| - 1];
      NoSessionOutlivesItsDuration(sessions, userId, token, t0, init);
      var prev := ValidateRun(CreateSession(sessions, userId, token, t0), token, init);
      var r := ValidateRun(CreateSession(sessions, userId, token, t0), token, times);
      assert forall i :: 0 <= i < |init| ==> r.valid[i] == prev.valid[i];
    }
  }

  // ---------------------------------------------------------------------
  // Requests

  datatype AuthState = AuthState(sessions: Sessions, attempts: Attempts)

  datatype SameSite = Lax | SameSiteNone

  /** The `auth` cookie instruction of a response (always httpOnly, path "/"). */
  datatype Cookie =
    | NoCookie
    | SetAuth(token: string, maxAge: int, secure: bool, sameSite: SameSite)
    | ClearAuth(secure: bool)

  datatype Body =
    | Success
    | Authorized
    | TooManyAttempts(retryAfter: int)
    | MissingPassword
    | InvalidPassword
    | Unauthorized

  datatype Response = Response(status: int, body: Body, cookie: Cookie)

  datatype Outcome = Outcome(state: AuthState, response: Response)

  /** `login`: lockout check, missing password, then the password policy.
      A success replaces every admin session by one new session under
      `token` and forgets the address's failures. */
  function Login(st: AuthState, ip: string, password: Option<Json>, secret: Option<string>,
                 token: string, isProduction: bool, now: int): (r: Outcome)
    ensures r.response.status == 200 <==>
      !IsRateLimited(st.attempts, ip, now).limited && Truthy(password) && ValidatePassword(password.value, secret)
    ensures r.response.status == 429 <==> IsRateLimited(st.attempts, ip, now).limited
    ensures r.response.status == 400 <==> !IsRateLimited(st.attempts, ip, now).limited && !Truthy(password)
    ensures r.response.status in {200, 400, 401, 429}
    ensures r.response.status != 200 ==> r.state.sessions == st.sessions
    ensures r.response.status == 200 ==>
      r.state.sessions == CreateSession(DropSessionsOf(st.sessions, Admin), Admin, token, now)
    ensures r.response.status == 429 ==> r.state.attempts == IsRateLimited(st.attempts, ip, now).attempts
    ensures r.response.status != 429 ==>
      r.state.attempts == RecordLoginAttempt(IsRateLimited(st.attempts, ip, now).attempts, ip, r.response.status == 200, now)
    ensures forall k :: k != ip ==> (k in r.state.attempts <==> k in st.attempts)
    ensures forall k :: k != ip && k in r.state.attempts ==> r.state.attempts[k] == st.attempts[k]
  {
    var checked := IsRateLimited(st.attempts, ip, now);
    if checked.limited then
      Outcome(AuthState(st.sessions, checked.attempts),
              Response(429, TooManyAttempts(LockoutDuration / 1000), NoCookie))
    else if !Truthy(password) then
      Outcome(AuthState(st.sessions, RecordLoginAttempt(checked.attempts, ip, false, now)),
              Response(400, MissingPassword, NoCookie))
    else if ValidatePassword(password.value, secret) then
      var sessions := CreateSession(DropSessionsOf(st.sessions, Admin), Admin, token, now);
      var cookie := SetAuth(token, SessionDuration, isProduction, if isProduction then SameSiteNone else Lax);
      Outcome(AuthState(sessions, RecordLoginAttempt(checked.attempts, ip, true, now)),
              Response(200, Success, cookie))
    else
      Outcome(AuthState(st.sessions, RecordLoginAttempt(checked.attempts, ip, false, now)),
              Response(401, InvalidPassword, NoCookie))
  }

  /** A cookie value the controller treats as present. */
  predicate HasToken(cookie: Option<string>)
  {
    cookie.Some? && cookie.value != []
  }

  /** `check`: authorised exactly when the cookie names a live session;
      otherwise the cookie is cleared. The throttle is never involved. */
  function Check(st: AuthState, cookie: Option<string>, isProduction: bool, now: int): (r: Outcome)
    ensures r.response.status == 200 <==> HasToken(cookie) && cookie.value in st.sessions && Live(st.sessions[cookie.value], now)
    ensures r.response.status != 200 ==> r.response == Response(401, Unauthorized, ClearAuth(isProduction))
    ensures r.response.status == 200 ==> r.response == Response(200, Authorized, NoCookie)
    ensures r.state.attempts == st.attempts
    ensures r.state.sessions ==
      if HasToken(cookie) then ValidateSession(st.sessions, cookie.value, now).sessions else st.sessions
  {
    if !HasToken(cookie) then
      Outcome(st, Response(401, Unauthorized, ClearAuth(isProduction)))
    else
      var v := ValidateSession(st.sessions, cookie.value, now);
      if !v.valid then
        Outcome(AuthState(v.sessions, st.attempts), Response(401, Unauthorized, ClearAuth(isProduction)))
      else
        Outcome(AuthState(v.sessions, st.attempts), Response(200, Authorized, NoCookie))
  }

  /** `logout`: the named session is gone and the cookie cleared, whether or
      not the token was known. */
  function Logout(st: AuthState, cookie: Option<string>, isProduction: bool): (r: Outcome)
    ensures r.response == Response(200, Success, ClearAuth(isProduction))
    ensures HasToken(cookie) ==> cookie.value !in r.state.sessions
    ensures forall t :: t in r.state.sessions <==> t in st.sessions && !(HasToken(cookie) && t == cookie.value)
    ensures forall t :: t in r.state.sessions ==> r.state.sessions[t] == st.sessions[t]
    ensures r.state.attempts == st.attempts
  {
    var sessions := if HasToken(cookie) then st.sessions - {cookie.value} else st.sessions;
    Outcome(AuthState(sessions, st.attempts), Response(200, Success, ClearAuth(isProduction)))
  }

  /** Logging out twice is the same as logging out once. */
  lemma LogoutIdempotent(st: AuthState, cookie: Option<string>, isProduction: bool)
    ensures Logout(Logout(st, cookie, isProduction).state, cookie, isProduction) == Logout(st, cookie, isProduction)
  {
  }

  // ---------------------------------------------------------------------
  // The single-admin invariant

  /** No two tokens name sessions of `userId`. */
  predicate AtMostOneSessionOf(sessions: Sessions, userId: string)
  {
    forall t, u :: t in sessions && u in sessions && sessions[t].userId == userId && sessions[u].userId == userId ==> t == u
  }

  /** Every request keeps the admin to at most one session; a successful
      login leaves exactly one, under the new token. */
  lemma LoginKeepsOneAdminSession(st: AuthState, ip: string, password: Option<Json>, secret: Option<string>,
                                  token: string, isProduction: bool, now: int)
    requires AtMostOneSessionOf(st.sessions, Admin)
    ensures var r := Login(st, ip, password, secret, token, isProduction, now);
      AtMostOneSessionOf(r.state.sessions, Admin) &&
      (r.response.status == 200 ==> forall t :: t in r.state.sessions && r.state.sessions[t].userId == Admin <==> t == token)
  {
    var r := Login(st, ip, password, secret, token, isProduction, now);
    if r.response.status == 200 {
      var dropped := DropSessionsOf(st.sessions, Admin);
      assert r.state.sessions == CreateSession(dropped, Admin, token, now);
    }
  }

  lemma CheckKeepsOneAdminSession(st: AuthState, cookie: Option<string>, isProduction: bool, now: int)
    requires AtMostOneSessionOf(st.sessions, Admin)
    ensures AtMostOneSessionOf(Check(st, cookie, isProduction, now).state.sessions, Admin)
  {
  }

  lemma LogoutKeepsOneAdminSession(st: AuthState, cookie: Option<string>, isProduction: bool)
    requires AtMostOneSessionOf(st.sessions, Admin)
    ensures AtMostOneSessionOf(Logout(st, cookie, isProduction).state.sessions, Admin)
  {
  }

  lemma CleanupKeepsOneAdminSession(sessions: Sessions, now: int)
    requires AtMostOneSessionOf(sessions, Admin)
    ensures AtMostOneSessionOf(CleanupSessions(sessions, now), Admin)
  {
  }
}
