/**
 * The fixed-window request limiter of the security middleware: a store from
 * client key to {count, resetTime}, the admission rule each request runs
 * against it, and the periodic sweep of stale windows. Times are integer
 * milliseconds.
 */
module RateLimit {

  const RateLimitWindow: int := 15 * 60 * 1000
  const RateLimitMaxRequests: int := 100

  /** One client's window: requests seen and the instant the window ends. */
  datatype Window = Window(count: int, resetTime: int)

  /** A request is let through, or refused with the seconds to wait. */
  datatype Decision = Allow | Deny(retryAfter: int)

  /** `Math.ceil(x / 1000)` for a non-negative integer `x`. */
  function CeilDiv1000(x: nat): (r: nat)
    ensures r * 1000 >= x
    ensures r == 0 || (r - 1) * 1000 < x
  {
    (x + 999) / 1000
  }

  datatype Admission = Admission(store: map<string, Window>, decision: Decision)

  /** The rule `rateLimit` applies to one request from `key` at time `now`:
      the new store and the decision. Only `key`'s entry is ever written. */
  function Admit(store: map<string, Window>, key: string, now: int): (a: Admission)
    ensures a.store.Keys == store.Keys + {key}
    ensures forall k :: k in store && k != key ==> a.store[k] == store[k]
  {
    if key !in store || now > store[key].resetTime then
      Admission(store[key := Window(1, now + RateLimitWindow)], Allow)
    else
      var current := store[key].(count := store[key].count + 1);
      Admission(store[key := current],
                if current.count > RateLimitMaxRequests
                then Deny(CeilDiv1000(current.resetTime - now))
                else Allow)
  }

  /** What the periodic sweep leaves: the windows that have not ended. */
  function Unexpired(store: map<string, Window>, now: int): (r: map<string, Window>)
    ensures forall k :: k in r <==> k in store && now <= store[k].resetTime
    ensures forall k :: k in r ==> r[k] == store[k]
  {
    map k | k in store && now <= store[k].resetTime :: store[k]
  }

  /** The limiter's store, updated in place by each request and by the sweep. */
  class RateLimiter {
    var store: map<string, Window>

    constructor ()
      ensures store == map[]
    {
      store := map[];
    }

    /** `rateLimit` for a request from `key` at `now`. */
    method RateLimit(key: string, now: int) returns (d: Decision)
      modifies this
      ensures Admission(store, d) == Admit(old(store), key, now)
    {
      if key !in store || now > store[key].resetTime {
        store := store[key := Window(1, now + RateLimitWindow)];
        d := Allow;
      } else {
        var current := store[key];
        current := current.(count := current.count + 1);
        store := store[key := current];
        if current.count > RateLimitMaxRequests {
          d := Deny(CeilDiv1000(current.resetTime - now));
        } else {
          d := Allow;
        }
      }
    }

    /** The body of the timer callback: delete every ended window. */
    method Sweep(now: int)
      modifies this
      ensures store == Unexpired(old(store), now)
    {
      var pending := store.Keys;
      while pending != {}
        invariant pending <= old(store).Keys
        invariant forall k :: k in store <==> k in old(store) && (k in pending || now <= old(store)[k].resetTime)
        invariant forall k :: k in store ==> store[k] == old(store)[k]
        decreases pending
      {
        var k :| k in pending;
        if now > store[k].resetTime {
          store := store - {k};
        }
        pending := pending - {k};
      }
    }
  }

  // ---------------------------------------------------------------------
  // Properties of the admission rule

  /** A missing or ended window is replaced by a fresh one holding this
      request, and the request is let through. */
  lemma FreshWindowAdmits(store: map<string, Window>, key: string, now: int)
    requires key !in store || now > store[key].resetTime
    ensures Admit(store, key, now).store[key] == Window(1, now + RateLimitWindow)
    ensures Admit(store, key, now).decision == Allow
  {
  }

  /** Inside a live window the count goes up by exactly one and the reset
      time stays, whether the request is let through or not; the request is
      refused exactly when the new count exceeds the cap, with the seconds
      left in the window, rounded up. */
  lemma OpenWindowCounts(store: map<string, Window>, key: string, now: int)
    requires key in store && now <= store[key].resetTime
    ensures Admit(store, key, now).store[key] == Window(store[key].count + 1, store[key].resetTime)
    ensures Admit(store, key, now).decision.Deny? <==> store[key].count + 1 > RateLimitMaxRequests
    ensures Admit(store, key, now).decision.Deny? ==>
      Admit(store, key, now).decision.retryAfter * 1000 >= store[key].resetTime - now
    ensures store[key].count + 1 > RateLimitMaxRequests ==>
      Admit(store, key, now).decision == Deny(CeilDiv1000(store[key].resetTime - now))
  {
  }

  /** No window reaches further than one window length past `now`: true of
      every store the limiter builds while its clock does not go back. */
  ghost predicate WindowsWithin(store: map<string, Window>, now: int)
  {
    forall k :: k in store ==> store[k].resetTime <= now + RateLimitWindow
  }

  lemma AdmitKeepsWindowsWithin(store: map<string, Window>, key: string, now: int, later: int)
    requires WindowsWithin(store, now) && now <= later
    ensures WindowsWithin(Admit(store, key, later).store, later)
  {
  }

  /** A refusal never asks the client to wait longer than the window,
      900 seconds, nor a negative time. */
  lemma RetryAfterBounded(store: map<string, Window>, key: string, now: int)
    requires WindowsWithin(store, now)
    requires Admit(store, key, now).decision.Deny?
    ensures 0 <= Admit(store, key, now).decision.retryAfter <= RateLimitWindow / 1000
  {
    var x := store[key].resetTime - now;
    assert 0 <= x <= RateLimitWindow;
    assert CeilDiv1000(x) <= 900 by {
      assert (x + 999) / 1000 <= (RateLimitWindow + 999) / 1000;
    }
  }

  /** The wait reported is zero exactly when the request arrives at the very
      millisecond its window ends, and positive before that. */
  lemma RetryAfterZeroOnlyAtWindowEnd(store: map<string, Window>, key: string, now: int)
    requires Admit(store, key, now).decision.Deny?
    ensures Admit(store, key, now).decision.retryAfter == 0 <==> now == store[key].resetTime
  {
  }

  // ---------------------------------------------------------------------
  // A run of requests from one client

  datatype Run = Run(store: map<string, Window>, decisions: seq<Decision>)

  /** The requests from `key` at the given times, one after the other. */
  function RunRequests(store: map<string, Window>, key: string, times: seq<int>): (r: Run)
    ensures |r.decisions| == |times|
  {
    if times == [] then Run(store, [])
    else
      var prev := RunRequests(store, key, times[..|times| - 1]);
      var a := Admit(prev.store, key, times[|times| - 1]);
      Run(a.store, prev.decisions + [a.decision])
  }

  /** Starting a fresh window at `times[0]`, every request up to the end of
      that window is counted in it: the first 100 are let through and every
      later one is refused with the time left until the window ends. No other
      client's entry changes. */
  lemma {:induction false} FirstHundredAdmitted(store: map<string, Window>, key: string, times: seq<int>)
    requires |times| > 0
    requires key !in store || times[0] > store[key].resetTime
    requires forall i :: 0 < i < |times| ==> times[i] <= times[0] + RateLimitWindow
    ensures RunRequests(store, key, times).store[key] == Window(|times|, times[0] + RateLimitWindow)
    ensures forall i :: 0 <= i < |times| ==>
      RunRequests(store, key, times).decisions[i]
        == if i < RateLimitMaxRequests then Allow
           else Deny(CeilDiv1000(times[0] + RateLimitWindow - times[i]))
    ensures forall k :: k != key ==>
      (k in RunRequests(store, key, times).store <==> k in store) &&
      (k in store ==> RunRequests(store, key, times).store[k] == store[k])
  {
    var n := |times|;
    if n > 1 {
      var init := times[..n - 1];
      assert init[0] == times[0];
      FirstHundredAdmitted(store, key, init);
      var prev := RunRequests(store, key, init);
      OpenWindowCounts(prev.store, key, times[n - 1]);
      var r := RunRequests(store, key, times);
      assert r.decisions == prev.decisions + [Admit(prev.store, key, times[n - 1]).decision];
      forall i | 0 <= i < n
        ensures r.decisions[i] == if i < RateLimitMaxRequests then Allow
                                  else Deny(CeilDiv1000(times[0] + RateLimitWindow - times[i]))
      {
        if i < n - 1 {
          assert r.decisions[i] == prev.decisions[i] && times[i] == init[i];
        }
      }
    }
  }

  /** Fixed windows let a burst of up to twice the cap through across a
      window boundary: 100 requests at the very end of one window and 100 at
      the very start of the next, one millisecond apart, are all admitted. */
  lemma BoundaryBurst(store: map<string, Window>, key: string, t0: int)
    requires key !in store || t0 > store[key].resetTime
    ensures var end := t0 + RateLimitWindow;
      var first := RunRequests(store, key, [t0] + seq(99, _ => end));
      var second := RunRequests(first.store, key, seq(100, _ => end + 1));
      (forall i :: 0 <= i < 100 ==> first.decisions[i] == Allow && second.decisions[i] == Allow)
  {
    var end := t0 + RateLimitWindow;
    var ts1 := [t0] + seq(99, _ => end);
    FirstHundredAdmitted(store, key, ts1);
    var first := RunRequests(store, key, ts1);
    var ts2 := seq(100, _ => end + 1);
    FirstHundredAdmitted(first.store, key, ts2);
  }

  // ---------------------------------------------------------------------
  // The sweep

  /** Sweeping twice at the same instant removes nothing more. */
  lemma UnexpiredIdempotent(store: map<string, Window>, now: int)
    ensures Unexpired(Unexpired(store, now), now) == Unexpired(store, now)
  {
  }

  /** The sweep never changes what a later request sees: the decision and the
      client's new window are the same whether or not the sweep ran first. */
  lemma SweepInvisibleToAdmission(store: map<string, Window>, key: string, swept: int, now: int)
    requires swept <= now
    ensures Admit(Unexpired(store, swept), key, now).decision == Admit(store, key, now).decision
    ensures Admit(Unexpired(store, swept), key, now).store[key] == Admit(store, key, now).store[key]
  {
  }
}
