# Admin authentication and request-hardening core, in Dafny

This project models the security core of a Strapi back end that protects a
single administrator account. It has two parts.

- **The authentication controller** (`src/api/auth/controllers/auth.ts`). It
  keeps two in-memory maps: failed login attempts per client address and live
  sessions per token.
  - `login` runs a lockout check, checks that a password is present, then
    applies the password policy. On success it replaces every admin session
    with one new session.
  - `check` validates the session named by the `auth` cookie and touches it.
  - `logout` deletes that session.
  - `cleanupSessions` sweeps out sessions that have expired or sat idle too
    long.
- **The request middleware** (`src/middlewares/security.ts`).
  - A fixed-window rate limiter: 100 requests per client per 15 minutes,
    plus a periodic sweep of ended windows.
  - A sanitiser that rewrites every string and object key of the request
    body and query: it deletes `<` and `>`, then `javascript:`, then inline
    `on…=` handler assignments, and finally trims whitespace.

Files:

- `wrappers.dfy`: `Option`.
- `text.dfy` (module `Text`): the ECMAScript string built-ins the core uses.
  These are ASCII case folding, `\w`, `\s` and `trim`.
- `sanitizer.dfy` (module `Sanitizer`): `sanitizeString` and
  `sanitizeObject`, with their properties.
- `sanitizer_examples.dfy` (module `SanitizerExamples`): the sanitiser's
  effect on the attack shapes it targets. It also shows that a single pass
  leaves `javascript:` behind when it is nested.
- `rate_limit.dfy` (module `RateLimit`): the admission rule and the sweep.
  - They are written as functions.
  - The class `RateLimiter` updates its store in place, and its methods are
    proved equal to those functions.
- `auth_logic.dfy` (module `AuthLogic`): everything the controller decides,
  as functions of the two maps.
- `auth.dfy` (module `Auth`): the class `AuthController`. Its fields are
  `sessions` and `loginAttempts`. Each of its methods is proved to leave
  exactly the state, and give exactly the response, that the matching
  `AuthLogic` function computes. This includes the two loops that delete
  entries while walking a map.
- `auth_scenarios.dfy` (module `AuthScenarios`): multi-request behaviour.
  - The lockout after five failures.
  - The single admin session.
  - The login/check/logout round trip.

What the environment supplies becomes a parameter of the operation. That is
the clock `now` in milliseconds, the generated session token, the configured
secret (`None` when unset), whether the server runs in production, the client
address, the request's `password` field and the `auth` cookie.

Two behaviours of the code worth noting:

- **`retryAfter` can be 0.** The request limiter's `retryAfter` is
  `ceil((resetTime − now)/1000)`. When a request arrives exactly at
  `resetTime`, that is 0. See
  `RateLimit.RetryAfterZeroOnlyAtWindowEnd`.
- **Stale records are deleted eagerly.** `isRateLimited` deletes a stale
  login-attempt record as soon as it looks at it, before any new failure
  is recorded.

## Model

| member | source | states |
|---|---|---|
| Text.Trim | src/middlewares/security.ts:113 | the result is no longer than the input, has no whitespace at either end, and holds no character the input lacks |
| Text.TrimIsTrimmedFrom | src/middlewares/security.ts:113 | `Trim`'s result is the input with a whitespace run cut from each end, and is itself trimmed |
| Text.TrimmedFromIsTrim | src/middlewares/security.ts:113 | any way of cutting a whitespace run from each end that leaves a trimmed string gives exactly `Trim`'s result |
| Text.TrimKeepsTrimmed | src/middlewares/security.ts:113 | trimming an already trimmed string changes nothing |
| Sanitizer.StripAngles | src/middlewares/security.ts:110 | the global `[<>]` deletion leaves no angle bracket and never lengthens the string |
| Sanitizer.StripJavascript | src/middlewares/security.ts:111 | the case-insensitive `javascript:` deletion never lengthens the string and never introduces a bracket |
| Sanitizer.HandlerMatch | src/middlewares/security.ts:112 | a match of `on\w+\s*=` at the front is at least 4 characters long and fits in the string |
| Sanitizer.HandlerMatchIsTheMatch | src/middlewares/security.ts:112 | every way the handler pattern can match at the front has the length the greedy scan reports, so the match is unique |
| Sanitizer.HandlerMatchIsAMatch | src/middlewares/security.ts:112 | what the greedy scan reports is a match of the pattern |
| Sanitizer.StripHandlers | src/middlewares/security.ts:112 | the handler deletion never lengthens the string and never introduces a bracket |
| Sanitizer.SanitizeString | src/middlewares/security.ts:103-114 | a sanitised string has no `<` or `>`, no whitespace at either end, and is no longer than the input |
| Sanitizer.StripAnglesKeepsClean | src/middlewares/security.ts:110 | a string without brackets passes the first deletion unchanged |
| Sanitizer.StripAnglesAppend | src/middlewares/security.ts:110 | the bracket deletion distributes over concatenation |
| Sanitizer.StripJavascriptKeepsClean | src/middlewares/security.ts:111 | a string where no `javascript:` starts passes the second deletion unchanged |
| Sanitizer.NoJavascriptWithoutJ | src/middlewares/security.ts:111 | a string without `j`/`J` passes the second deletion unchanged |
| Sanitizer.StripHandlersKeepsClean | src/middlewares/security.ts:112 | a string where no handler match starts passes the third deletion unchanged |
| Sanitizer.NoHandlerWithoutO | src/middlewares/security.ts:112 | a string without `o`/`O` passes the third deletion unchanged |
| Sanitizer.PutLookup | src/middlewares/security.ts:97 | after assigning a property, that key holds the new value and every other key holds what it held |
| Sanitizer.PutKeepsUnique | src/middlewares/security.ts:97 | assigning a property never creates a duplicate key |
| Sanitizer.PutMembers | src/middlewares/security.ts:97 | assigning a property adds no entry other than the assigned one |
| Sanitizer.SanitizeValue | src/middlewares/security.ts:86-101 | `sanitizeObject` on every JSON shape; its contract is stated by `Sanitizer.SanitizeValueShape` and `Sanitizer.SanitizedIsAngleFree` |
| Sanitizer.Assign | src/middlewares/security.ts:97 | one property assignment on the output object; its effect on own properties is stated by `Sanitizer.AssignLookup` |
| Sanitizer.AssignAll | src/middlewares/security.ts:95-100 | the entry loop of `sanitizeObject`; its result is stated by `Sanitizer.AssignAllIsLastEntry` and `Sanitizer.AssignAllMembers` |
| Sanitizer.SanitizeEntries | src/middlewares/security.ts:96-97 | the entry loop visits one sanitised entry per input entry, in order, each with the sanitised key of its input entry |
| Sanitizer.AssignLookup | src/middlewares/security.ts:97 | in the model, assigning under `__proto__` leaves every key as it was (see `Sanitizer.Assign` under Left out); assigning under any other key gives that key the new value and leaves the rest |
| Sanitizer.AssignAllIsLastEntry | src/middlewares/security.ts:95-100 | the object the entry loop builds has unique keys, and each key holds the value of the last entry written under it; the model drops every `__proto__` entry (see `Sanitizer.Assign` under Left out) |
| Sanitizer.AssignAllMembers | src/middlewares/security.ts:95-100 | the entry loop stores only entries it was given |
| Sanitizer.LastEntryIsLast | src/middlewares/security.ts:95-100 | a key gets a value iff it is not `__proto__` and some entry carries it, and that value belongs to an entry with the key that no later entry shares |
| Sanitizer.ObjectShape | src/middlewares/security.ts:95-100 | a sanitised object has unique keys, each holding the value of the last sanitised entry under it, and every key is the sanitised form of an input key |
| Sanitizer.ObjectKeySources | src/middlewares/security.ts:96-97 | every key of a sanitised object is the sanitised form of some input key |
| Sanitizer.EntryHasSource | src/middlewares/security.ts:96-97 | each sanitised entry's key is the sanitised form of an input key |
| Sanitizer.SanitizeValueShape | src/middlewares/security.ts:86-101 | strings are sanitised and other scalars returned unchanged; arrays keep their length and each element is sanitised; objects have unique keys, each output key comes from an input key, and colliding sanitised keys keep the later value |
| Sanitizer.SanitizedIsAngleFree | src/middlewares/security.ts:86-114 | after sanitising, no string and no key at any depth contains `<` or `>` |
| SanitizerExamples.SanitizeStages | src/middlewares/security.ts:109-113 | the sanitiser is the composition of its four stages in source order |
| SanitizerExamples.BenignUnchanged | src/middlewares/security.ts:109-113 | text with no bracket, no `j`/`o` and no edge whitespace passes every stage unchanged |
| SanitizerExamples.JavascriptSchemeRemoved | src/middlewares/security.ts:111 | `javascript:` followed by benign text sanitises to that text |
| SanitizerExamples.ScriptTagDefused | src/middlewares/security.ts:110 | `<a>b</a>` sanitises to `ab/a` |
| SanitizerExamples.TagBracketsRemoved | src/middlewares/security.ts:110 | the bracket stage maps `<a>b</a>` to `ab/a` |
| SanitizerExamples.HandlerAssignmentRemoved | src/middlewares/security.ts:112 | `on<word chars><spaces>=` followed by benign text sanitises to that text |
| SanitizerExamples.HandlerPrefixFacts | src/middlewares/security.ts:110-112 | `on<word chars><spaces>=` before benign text has no bracket and no `j`/`J`, and the handler pattern matches exactly up to the `=` |
| SanitizerExamples.StripHandlersCut | src/middlewares/security.ts:112 | when the handler pattern matches at the front, the deletion drops that match and carries on from the character after it |
| SanitizerExamples.JavascriptSurvivesOnePass | src/middlewares/security.ts:111 | `jajavascript:vascript:` plus benign text sanitises to `javascript:` plus that text, and sanitising again changes it, so the sanitiser is not idempotent |
| SanitizerExamples.NestedInputFacts | src/middlewares/security.ts:110-113 | the nested input has no bracket, and `javascript:` plus benign text has no `o`/`O` and no edge whitespace, so the other stages keep it |
| SanitizerExamples.NestedSchemeJoined | src/middlewares/security.ts:111 | the single `javascript:` deletion joins the two halves around the nested occurrence |
| SanitizerExamples.NoSchemeAtJa | src/middlewares/security.ts:111 | no `javascript:` match starts at the leading `ja` of the nested input |
| SanitizerExamples.JaIsNoScheme | src/middlewares/security.ts:111 | neither `ja` nor `a` followed by `javascript` starts a case-insensitive `javascript:` |
| SanitizerExamples.KeepsTwo | src/middlewares/security.ts:111 | two characters at neither of which `javascript:` starts are kept, and the deletion goes on after them |
| SanitizerExamples.SchemeMismatch | src/middlewares/security.ts:111 | a string whose character at some position of `javascript:` differs from it, ignoring case, does not start with it |
| SanitizerExamples.SchemeAtFront | src/middlewares/security.ts:111 | a leading `javascript:` is cut and the rest kept |
| RateLimit.CeilDiv1000 | src/middlewares/security.ts:62 | the result is the least whole number of seconds covering the given milliseconds |
| RateLimit.Admit | src/middlewares/security.ts:44-66 | an admission adds the client's key to the store and leaves every other client's window as it was |
| RateLimit.Unexpired | src/middlewares/security.ts:118-125 | the sweep keeps exactly the windows with `now <= resetTime`, unmodified |
| RateLimit.RateLimiter.constructor | src/middlewares/security.ts:30-33 | the store starts empty |
| RateLimit.RateLimiter.RateLimit | src/middlewares/security.ts:44-66 | the method's new store and decision are those of `Admit` on the old store |
| RateLimit.RateLimiter.Sweep | src/middlewares/security.ts:118-125 | the loop deleting ended windows while walking the store leaves exactly `Unexpired` of the old store |
| RateLimit.FreshWindowAdmits | src/middlewares/security.ts:47-52 | a missing or ended window is replaced by `{count: 1, resetTime: now + 15 min}` and the request is allowed |
| RateLimit.OpenWindowCounts | src/middlewares/security.ts:53-64 | in a live window the count rises by one and the reset time stays, even when denying; the request is denied iff the new count exceeds 100, with `retryAfter` the seconds left in the window rounded up |
| RateLimit.AdmitKeepsWindowsWithin | src/middlewares/security.ts:47-56 | with a clock that does not go back, no window ever ends more than 15 minutes ahead |
| RateLimit.RetryAfterBounded | src/middlewares/security.ts:58-64 | a denial's `retryAfter` lies between 0 and 900 seconds |
| RateLimit.RetryAfterZeroOnlyAtWindowEnd | src/middlewares/security.ts:58-64 | `retryAfter` is 0 exactly when the request arrives at `resetTime` |
| RateLimit.FirstHundredAdmitted | src/middlewares/security.ts:44-66 | from a fresh window, the requests within it are counted; the first 100 are allowed, and each later one is denied with the time left, rounded up; no other client's entry changes |
| RateLimit.BoundaryBurst | src/middlewares/security.ts:34-66 | 100 requests at the very end of a window and 100 one millisecond later are all admitted (the fixed-window boundary burst) |
| RateLimit.UnexpiredIdempotent | src/middlewares/security.ts:118-125 | sweeping twice at the same instant removes nothing more |
| RateLimit.SweepInvisibleToAdmission | src/middlewares/security.ts:47-56 | a sweep at or before a request never changes that request's decision or the client's new window |
| AuthLogic.IsRateLimited | src/api/auth/controllers/auth.ts:23-34 | locked iff a record exists, its last failure is within 15 minutes and it counts at least 5; a stale record is deleted, nothing else changes |
| AuthLogic.RecordLoginAttempt | src/api/auth/controllers/auth.ts:36-50 | success removes the address; failure sets count to old count (0 if none) + 1 and lastAttempt to now; other addresses untouched |
| AuthLogic.LockLiftsAfterLockout | src/api/auth/controllers/auth.ts:23-50 | more than 15 minutes after the last failure, the address is not locked and the next failure counts from 1 |
| AuthLogic.ValidatePassword | src/api/auth/controllers/auth.ts:52-67 | accepted iff the value is a string of length at least 8, whose lower-case form is not a weak password, equal to the configured secret |
| AuthLogic.WeakListReducesToPassword | src/api/auth/controllers/auth.ts:54-64 | for candidates of length at least 8, only "password" of the weak list can match |
| AuthLogic.ValidatePasswordReference | src/api/auth/controllers/auth.ts:52-67 | a string is accepted iff it equals the secret, the secret has at least 8 characters and does not lower-case to "password" |
| AuthLogic.CreateSession | src/api/auth/controllers/auth.ts:69-80 | the token now names a session of the user, last active now and expiring 24 hours later; every other session is unchanged |
| AuthLogic.ValidateSession | src/api/auth/controllers/auth.ts:82-105 | valid iff the token names a session not past expiry and idle at most 2 hours; a valid one gets lastActivity = now with nothing else changed; otherwise the token is removed (a no-op when absent) |
| AuthLogic.CleanupSessions | src/api/auth/controllers/auth.ts:213-223 | keeps exactly the sessions with `now <= expiresAt` and `now − lastActivity <= 2 h`, unmodified |
| AuthLogic.DropSessionsOf | src/api/auth/controllers/auth.ts:134-139 | keeps exactly the sessions of other principals, unmodified |
| AuthLogic.CleanupIdempotent | src/api/auth/controllers/auth.ts:213-223 | cleaning up twice at the same instant removes nothing more |
| AuthLogic.CleanupInvisibleToValidation | src/api/auth/controllers/auth.ts:82-105 | a cleanup at or before a validation never changes its outcome or what it leaves for the token |
| AuthLogic.ActiveSessionStaysValid | src/api/auth/controllers/auth.ts:69-105 | a session used at least every 2 hours validates every time until 24 hours after creation, keeping its principal and expiry |
| AuthLogic.NoSessionOutlivesItsDuration | src/api/auth/controllers/auth.ts:69-105 | however it is used, a session never validates more than 24 hours after creation |
| AuthLogic.Login | src/api/auth/controllers/auth.ts:108-166 | status is one of 200/400/401/429; 429 iff the address is locked; 400 iff not locked and the password is missing or falsy; 200 iff not locked, a password is present and the policy accepts it. Sessions change only on 200, where every admin session is replaced by one new session under the token. Attempts: on 429 only a stale record is dropped; otherwise the failure or success is recorded on the live count. Every other address's record is untouched |
| AuthLogic.Check | src/api/auth/controllers/auth.ts:168-190 | 200 iff the cookie names a live session, answered as authorised with no cookie change; otherwise 401 with the cookie cleared. A named session is touched if live and dropped if not; without a cookie the sessions are untouched; attempts are never touched |
| AuthLogic.Logout | src/api/auth/controllers/auth.ts:192-210 | always 200 with the cookie cleared; the named session is gone and every other session is unchanged |
| AuthLogic.LogoutIdempotent | src/api/auth/controllers/auth.ts:192-210 | logging out twice is the same as once |
| AuthLogic.LoginKeepsOneAdminSession | src/api/auth/controllers/auth.ts:133-141 | login keeps the admin to at most one session, and after a success the admin's only session is the new token |
| AuthLogic.CheckKeepsOneAdminSession | src/api/auth/controllers/auth.ts:168-190 | check keeps the admin to at most one session |
| AuthLogic.LogoutKeepsOneAdminSession | src/api/auth/controllers/auth.ts:192-210 | logout keeps the admin to at most one session |
| AuthLogic.CleanupKeepsOneAdminSession | src/api/auth/controllers/auth.ts:213-223 | cleanup keeps the admin to at most one session |
| Auth.AuthController.constructor | src/api/auth/controllers/auth.ts:4-15 | both stores start empty |
| Auth.AuthController.IsRateLimited | src/api/auth/controllers/auth.ts:23-34 | the method's result and new attempt map are those of `AuthLogic.IsRateLimited`; sessions untouched |
| Auth.AuthController.RecordLoginAttempt | src/api/auth/controllers/auth.ts:36-50 | the new attempt map is `AuthLogic.RecordLoginAttempt` of the old one; sessions untouched |
| Auth.AuthController.CreateSession | src/api/auth/controllers/auth.ts:69-80 | the new session map is `AuthLogic.CreateSession` of the old one |
| Auth.AuthController.ValidateSession | src/api/auth/controllers/auth.ts:82-105 | the method's result and new session map are those of `AuthLogic.ValidateSession` |
| Auth.AuthController.ClearSessionsOf | src/api/auth/controllers/auth.ts:134-139 | the loop deleting a principal's sessions while walking the map leaves exactly `DropSessionsOf` of the old map |
| Auth.AuthController.Login | src/api/auth/controllers/auth.ts:108-166 | response and both new maps are those of `AuthLogic.Login` on the old maps |
| Auth.AuthController.Check | src/api/auth/controllers/auth.ts:168-190 | response and both new maps are those of `AuthLogic.Check` |
| Auth.AuthController.Logout | src/api/auth/controllers/auth.ts:192-210 | response and both new maps are those of `AuthLogic.Logout` |
| Auth.AuthController.CleanupSessions | src/api/auth/controllers/auth.ts:213-223 | the loop deleting dead sessions while walking the map leaves exactly `AuthLogic.CleanupSessions` of the old map |
| AuthScenarios.LockedLoginRefused | src/api/auth/controllers/auth.ts:116-124 | a locked address gets 429 with `retryAfter` 900 and neither store changes, whatever the password |
| AuthScenarios.MissingPasswordCounted | src/api/auth/controllers/auth.ts:126-131 | a missing or falsy password gets 400 and counts as one more failure; sessions untouched |
| AuthScenarios.WrongPasswordCounted | src/api/auth/controllers/auth.ts:155-158 | from any state, a wrong password from an unlocked address gets 401 and counts as one more failure on the live count; sessions untouched |
| AuthScenarios.SuccessfulLogin | src/api/auth/controllers/auth.ts:133-154 | a success sets the cookie (secure and SameSite=None only in production, max age 24 h), leaves exactly one admin session under the new token, keeps other principals' sessions and forgets the address's failures |
| AuthScenarios.FailuresAccumulate | src/api/auth/controllers/auth.ts:117-158 | up to five failed logins in a row, each within 15 minutes of the last, are answered 400/401 and counted one by one |
| AuthScenarios.FiveFailuresLockOut | src/api/auth/controllers/auth.ts:116-158 | after five failures in a row, a sixth login within 15 minutes gets 429 even with the right password |
| AuthScenarios.LoginCheckLogout | src/api/auth/controllers/auth.ts:108-210 | a successful login followed within 2 hours by a check with its cookie is authorised; after logout the same check gets 401 |

## Left out

- `config/middlewares.ts` is a static table of options with no logic. It is not part of this model.
- `src/utils/session-cleanup.ts` wraps `cleanupSessions` in a try/catch and logging. It is not part of this model. `cleanupSessions` itself is modelled.
- `securityHeaders` (`src/middlewares/security.ts:4-27`) only sets HTTP response headers.
- `inputValidation` (`src/middlewares/security.ts:72-84`) only decides whether the body and query are present before calling `sanitizeObject`. That is Koa plumbing.
- Session tokens come from `crypto.randomBytes`, and the model takes the token as a parameter. It does not assume the token is fresh. If a token collides with an existing one, the old session is overwritten, as the code would do.
- `Date.now()` is a parameter. There is one clock value per request, although `login` reads the clock in several helpers.
- `process.env.SECRET_PASSWORD` and `NODE_ENV` are parameters.
- Koa `ctx` handling is not modelled: reading the body and cookies, the `httpOnly` and `path` cookie options, and the error message texts. Each body is a constructor of `Body`.
- Client-address extraction with the `"unknown"` fallback is not modelled. The address is a parameter.
- The `rate_limit_` key prefix is dropped. Prefixing is injective, so the model keys the store by the address directly.
- The try/catch paths that answer 500 are left out. Nothing in the modelled logic throws.
- The `setInterval` timer and any interleaving of requests with sweeps or with each other are left out. Each operation is atomic, and the sweep body is an ordinary method.
- `Text.LowerAscii` lower-cases ASCII letters only; full Unicode `toLowerCase` is not modelled. For the weak-password check the result is the same, because only "password" is long enough to matter and no other character lower-cases to an ASCII letter in it (the Kelvin sign K only lowers to `k`). The `/i` flag without `/u` also folds only these letters for `javascript:` and `on`.
- String lengths count Unicode code points, not UTF-16 code units. An 8-unit password containing a character outside the Basic Multilingual Plane is counted shorter.
- Numbers in request bodies are integers. NaN and fractions are not modelled, so their falsiness in the missing-password check is not captured.
- The output object lists properties in the order they were assigned. JavaScript's ordering of integer-like keys first is not modelled.
- Sanitizer.Assign: an entry whose sanitised key is `__proto__` goes through the inherited setter of `Object.prototype` while the output's prototype chain still reaches it. When its value is an object, an array or null, that value becomes the prototype of the output, and its properties stay readable through inheritance. Once an earlier entry has made the chain end in null without that setter (for example `{"__proto__": null, " __proto__": "x"}`, whose second key trims to `__proto__`), a later `__proto__` key becomes an own property of the output. The model keeps own properties only and drops every `__proto__` entry, so it captures neither the prototype nor that late own property.
- Sparse arrays and values that are not JSON (functions, dates, prototypes of inputs) are not modelled.
