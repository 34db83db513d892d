/**
 * The authentication controller as the object it is: two maps updated in
 * place by every request. Each method is proved to leave exactly the state
 * (and give exactly the response) the matching function of AuthLogic
 * computes from the state before the call.
 */
module Auth {
  import opened Wrappers
  import opened Sanitizer
  import opened AuthLogic

  class AuthController {
    var sessions: Sessions
    var loginAttempts: Attempts

    constructor ()
      ensures sessions == map[] && loginAttempts == map[]
    {
      sessions := map[];
      loginAttempts := map[];
    }

    /** `isRateLimited(ip)`, which drops a stale record as it looks. */
    method IsRateLimited(ip: string, now: int) returns (limited: bool)
      modifies this
      ensures Checked(limited, loginAttempts) == AuthLogic.IsRateLimited(old(loginAttempts), ip, now)
      ensures sessions == old(sessions)
    {
      if ip !in loginAttempts {
        return false;
      }
      var attempts := loginAttempts[ip];
      if now - attempts.lastAttempt > LockoutDuration {
        loginAttempts := loginAttempts - {ip};
        return false;
      }
      limited := attempts.count >= MaxLoginAttempts;
    }

    /** `recordLoginAttempt(ip, success)`. */
    method RecordLoginAttempt(ip: string, success: bool, now: int)
      modifies this
      ensures loginAttempts == AuthLogic.RecordLoginAttempt(old(loginAttempts), ip, success, now)
      ensures sessions == old(sessions)
    {
      var attempts := if ip in loginAttempts then loginAttempts[ip] else Attempt(0, now);
      if success {
        loginAttempts := loginAttempts - {ip};
      } else {
        attempts := attempts.(count := attempts.count + 1, lastAttempt := now);
        loginAttempts := loginAttempts[ip := attempts];
      }
    }

    /** `createSession(userId)`, with the generated token passed in. */
    method CreateSession(userId: string, token: string, now: int)
      modifies this
      ensures sessions == AuthLogic.CreateSession(old(sessions), userId, token, now)
      ensures loginAttempts == old(loginAttempts)
    {
      sessions := sessions[token := Session(userId, now + SessionDuration, now)];
    }

    /** `validateSession(token)`. */
    method ValidateSession(token: string, now: int) returns (valid: bool)
      modifies this
      ensures Validated(valid, sessions) == AuthLogic.ValidateSession(old(sessions), token, now)
      ensures loginAttempts == old(loginAttempts)
    {
      if token !in sessions {
        return false;
      }
      var session := sessions[token];
      if now > session.expiresAt {
        sessions := sessions - {token};
        return false;
      }
      if now - session.lastActivity > SessionInactivityLimit {
        sessions := sessions - {token};
        return false;
      }
      session := session.(lastActivity := now);
      sessions := sessions[token := session];
      return true;
    }

    /** The loop in `login` that deletes every session of `userId` while
        walking the session store. */
    method ClearSessionsOf(userId: string)
      modifies this
      ensures sessions == DropSessionsOf(old(sessions), userId)
      ensures loginAttempts == old(loginAttempts)
    {
      var pending := sessions.Keys;
      while pending != {}
        invariant pending <= old(sessions).Keys
        invariant forall t :: t in sessions <==> t in old(sessions) && (t in pending || old(sessions)[t].userId != userId)
        invariant forall t :: t in sessions ==> sessions[t] == old(sessions)[t]
        invariant loginAttempts == old(loginAttempts)
        decreases pending
      {
        var t :| t in pending;
        if sessions[t].userId == userId {
          sessions := sessions - {t};
        }
        pending := pending - {t};
      }
    }

    /** `login`, for a request from `ip` whose body carries `password`. */
    method Login(ip: string, password: Option<Json>, secret: Option<string>,
                 token: string, isProduction: bool, now: int) returns (response: Response)
      modifies this
      ensures Outcome(AuthState(sessions, loginAttempts), response)
           == AuthLogic.Login(AuthState(old(sessions), old(loginAttempts)), ip, password, secret, token, isProduction, now)
    {
      var limited := IsRateLimited(ip, now);
      if limited {
        return Response(429, TooManyAttempts(LockoutDuration / 1000), NoCookie);
      }
      if !Truthy(password) {
        RecordLoginAttempt(ip, false, now);
        return Response(400, MissingPassword, NoCookie);
      }
      if ValidatePassword(password.value, secret) {
        ClearSessionsOf(Admin);
        CreateSession(Admin, token, now);
        var cookie := SetAuth(token, SessionDuration, isProduction, if isProduction then SameSiteNone else Lax);
        RecordLoginAttempt(ip, true, now);
        response := Response(200, Success, cookie);
      } else {
        RecordLoginAttempt(ip, false, now);
        response := Response(401, InvalidPassword, NoCookie);
      }
    }

    /** `check`, for a request carrying the `auth` cookie value `cookie`. */
    method Check(cookie: Option<string>, isProduction: bool, now: int) returns (response: Response)
      modifies this
      ensures Outcome(AuthState(sessions, loginAttempts), response)
           == AuthLogic.Check(AuthState(old(sessions), old(loginAttempts)), cookie, isProduction, now)
    {
      if !HasToken(cookie) {
        return Response(401, Unauthorized, ClearAuth(isProduction));
      }
      var valid := ValidateSession(cookie.value, now);
      if !valid {
        return Response(401, Unauthorized, ClearAuth(isProduction));
      }
      response := Response(200, Authorized, NoCookie);
    }

    /** `logout`. */
    method Logout(cookie: Option<string>, isProduction: bool) returns (response: Response)
      modifies this
      ensures Outcome(AuthState(sessions, loginAttempts), response)
           == AuthLogic.Logout(AuthState(old(sessions), old(loginAttempts)), cookie, isProduction)
    {
      if HasToken(cookie) {
        sessions := sessions - {cookie.value};
      }
      response := Response(200, Success, ClearAuth(isProduction));
    }

    /** `cleanupSessions`: delete, while walking the store, every session
        that has expired or been idle too long. */
    method CleanupSessions(now: int)
      modifies this
      ensures sessions == AuthLogic.CleanupSessions(old(sessions), now)
      ensures loginAttempts == old(loginAttempts)
    {
      var pending := sessions.Keys;
      while pending != {}
        invariant pending <= old(sessions).Keys
        invariant forall t :: t in sessions <==> t in old(sessions) && (t in pending || Live(old(sessions)[t], now))
        invariant forall t :: t in sessions ==> sessions[t] == old(sessions)[t]
        invariant loginAttempts == old(loginAttempts)
        decreases pending
      {
        var t :| t in pending;
        var session := sessions[t];
        if now > session.expiresAt || now - session.lastActivity > SessionInactivityLimit {
          sessions := sessions - {t};
        }
        pending := pending - {t};
      }
    }
  }
}
