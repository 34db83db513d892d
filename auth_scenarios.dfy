/**
 * What a client of the login endpoint observes over one or several
 * requests: the lockout, the failure counting, the single admin session and
 * the login / check / logout round trip.
 */
module AuthScenarios {
  import opened Wrappers
  import opened Text
  import opened Sanitizer
  import opened AuthLogic

  /** A locked-out address is answered 429 with a 900-second wait, and
      nothing in either store changes, whatever the password. */
  lemma LockedLoginRefused(st: AuthState, ip: string, password: Option<Json>, secret: Option<string>,
                           token: string, isProduction: bool, now: int)
    requires IsRateLimited(st.attempts, ip, now).limited
    ensures Login(st, ip, password, secret, token, isProduction, now)
         == Outcome(st, Response(429, TooManyAttempts(900), NoCookie))
  {
  }

  /** A request with no usable password is answered 400 and counts as one
      more failure for the address; sessions are untouched. */
  lemma MissingPasswordCounted(st: AuthState, ip: string, password: Option<Json>, secret: Option<string>,
                               token: string, isProduction: bool, now: int)
    requires !IsRateLimited(st.attempts, ip, now).limited
    requires !Truthy(password)
    ensures var r := Login(st, ip, password, secret, token, isProduction, now);
      r.response == Response(400, MissingPassword, NoCookie) &&
      r.state.sessions == st.sessions &&
      ip in r.state.attempts &&
      r.state.attempts[ip] == Attempt(
        (if ip in st.attempts && Recent(st.attempts[ip], now) then st.attempts[ip].count else 0) + 1, now)
  {
  }

  /** A wrong password from an address that is not locked gets 401 and counts
      as one more failure on the live count; sessions are untouched. */
  lemma WrongPasswordCounted(st: AuthState, ip: string, password: Option<Json>, secret: Option<string>,
                             token: string, isProduction: bool, now: int)
    requires !IsRateLimited(st.attempts, ip, now).limited
    requires Truthy(password) && !ValidatePassword(password.value, secret)
    ensures var r := Login(st, ip, password, secret, token, isProduction, now);
      r.response == Response(401, InvalidPassword, NoCookie) &&
      r.state.sessions == st.sessions &&
      ip in r.state.attempts &&
      r.state.attempts[ip] == Attempt(
        (if ip in st.attempts && Recent(st.attempts[ip], now) then st.attempts[ip].count else 0) + 1, now)
  {
  }

  /** A successful login sets the cookie to the new token, leaves exactly
      one admin session (the new one, fresh), keeps every other principal's
      sessions, and forgets the address's failures. */
  lemma SuccessfulLogin(st: AuthState, ip: string, password: Option<Json>, secret: Option<string>,
                        token: string, isProduction: bool, now: int)
    requires Login(st, ip, password, secret, token, isProduction, now).response.status == 200
    ensures var r := Login(st, ip, password, secret, token, isProduction, now);
      r.response == Response(200, Success, SetAuth(token, SessionDuration, isProduction,
                                                    if isProduction then SameSiteNone else Lax)) &&
      (forall t :: t in r.state.sessions && r.state.sessions[t].userId == Admin <==> t == token) &&
      r.state.sessions[token] == Session(Admin, now + SessionDuration, now) &&
      (forall t :: t in st.sessions && t != token && st.sessions[t].userId != Admin ==>
         t in r.state.sessions && r.state.sessions[t] == st.sessions[t]) &&
      ip !in r.state.attempts
  {
  }

  /** One login request from the fixed address. */
  datatype LoginRequest = LoginRequest(password: Option<Json>, now: int)

  datatype Replay = Replay(state: AuthState, responses: seq<Response>)

  /** The login requests from `ip`, one after the other. */
  function LoginRun(st: AuthState, ip: string, reqs: seq<LoginRequest>, secret: Option<string>,
                    token: string, isProduction: bool): (r: Replay)
    ensures |r.responses| == |reqs|
  {
    if reqs == [] then Replay(st, [])
    else
      var prev := LoginRun(st, ip, reqs[..|reqs| - 1], secret, token, isProduction);
      var req := reqs[|reqs| - 1];
      var o := Login(prev.state, ip, req.password, secret, token, isProduction, req.now);
      Replay(o.state, prev.responses + [o.response])
  }

  /** The request carries no password the policy accepts. */
  predicate Failing(req: LoginRequest, secret: Option<string>)
  {
    !Truthy(req.password) || !ValidatePassword(req.password.value, secret)
  }

  /** Up to five failed logins, each within the lockout duration of the one
      before, from an address with no live record: none is locked out, and
      the record counts them all, stamped with the last one's time. */
  lemma {:induction false} FailuresAccumulate(st: AuthState, ip: string, reqs: seq<LoginRequest>,
                                              secret: Option<string>, token: string, isProduction: bool)
    requires 0 < |reqs| <= MaxLoginAttempts
    requires ip !in st.attempts || reqs[0].now - st.attempts[ip].lastAttempt > LockoutDuration
    requires forall i :: 0 <= i < |reqs| ==> Failing(reqs[i], secret)
    requires forall i :: 0 < i < |reqs| ==> reqs[i].now - reqs[i - 1].now <= LockoutDuration
    ensures var r := LoginRun(st, ip, reqs, secret, token, isProduction);
      (forall i :: 0 <= i < |reqs| ==> r.responses[i].status == 400 || r.responses[i].status == 401) &&
      ip in r.state.attempts &&
      r.state.attempts[ip] == Attempt(|reqs|, reqs[|reqs| - 1].now)
  {
    var n := |reqs|;
    if n > 1 {
      var init := reqs[..n - 1];
      FailuresAccumulate(st, ip, init, secret, token, isProduction);
      var prev := LoginRun(st, ip, init, secret, token, isProduction);
      var r := LoginRun(st, ip, reqs, secret, token, isProduction);
      assert forall i :: 0 <= i < n - 1 ==> r.responses[i] == prev.responses[i];
    }
  }

  /** After five failed logins in a row, a sixth from the same address
      within the lockout duration of the fifth is refused with 429, even
      with the right password. */
  lemma FiveFailuresLockOut(st: AuthState, ip: string, reqs: seq<LoginRequest>, next: LoginRequest,
                            secret: Option<string>, token: string, isProduction: bool)
    requires |reqs| == MaxLoginAttempts
    requires ip !in st.attempts || reqs[0].now - st.attempts[ip].lastAttempt > LockoutDuration
    requires forall i :: 0 <= i < |reqs| ==> Failing(reqs[i], secret)
    requires forall i :: 0 < i < |reqs| ==> reqs[i].now - reqs[i - 1].now <= LockoutDuration
    requires next.now - reqs[|reqs| - 1].now <= LockoutDuration
    ensures var r := LoginRun(st, ip, reqs + [next], secret, token, isProduction);
      r.responses[|reqs|] == Response(429, TooManyAttempts(LockoutDuration / 1000), NoCookie)
  {
    FailuresAccumulate(st, ip, reqs, secret, token, isProduction);
    assert (reqs + [next])[..|reqs|] == reqs;
  }

  /** The round trip: a successful login, then a check with the cookie it set
      within the inactivity limit is authorised; after a logout with that
      cookie the same check is refused. */
  lemma LoginCheckLogout(st: AuthState, ip: string, password: string, secret: string,
                         token: string, isProduction: bool, t0: int, t1: int, t2: int)
    requires !IsRateLimited(st.attempts, ip, t0).limited
    requires password == secret && |secret| >= 8 && LowerAscii(secret) != "password"
    requires token != []
    requires t0 <= t1 <= t0 + SessionInactivityLimit
    ensures var a := Login(st, ip, Some(JStr(password)), Some(secret), token, isProduction, t0);
      var b := Check(a.state, Some(token), isProduction, t1);
      var c := Logout(b.state, Some(token), isProduction);
      var d := Check(c.state, Some(token), isProduction, t2);
      a.response.status == 200 && b.response == Response(200, Authorized, NoCookie) &&
      d.response == Response(401, Unauthorized, ClearAuth(isProduction))
  {
    ValidatePasswordReference(password, secret);
  }
}
