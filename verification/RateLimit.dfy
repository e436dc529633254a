/** The fixed-window rate limiter over a Redis counter that expires. */
module RateLimit {
  import opened Options

  /** The key while it lives: its count and the time it expires at, in milliseconds. */
  type Key = Option<(int, int)>

  /** A key is gone from the moment of its expiry. */
  function Live(key: Key, now: int): Key {
    if key.Some? && now < key.value.1 then key else None
  }

  /** INCR, then EXPIRE if the counter has just been created; `window` is in seconds. */
  function Touch(key: Key, now: int, window: int): (int, int) {
    match Live(key, now)
    case None => (1, now + 1000 * window)
    case Some((count, expiry)) => (count + 1, if count + 1 == 1 then now + 1000 * window else expiry)
  }

  /** A key that is missing or whose time has come starts again at one, for a window from now; any other counts one
      up and keeps its time. */
  lemma TouchExact(key: Key, now: int, window: int)
    requires key.Some? ==> key.value.0 >= 1
    ensures key == None || now >= key.value.1 ==> Touch(key, now, window) == (1, now + 1000 * window)
    ensures key != None && now < key.value.1 ==> Touch(key, now, window) == (key.value.0 + 1, key.value.1)
  {
  }

  class RateLimiter {
    var key: Key

    constructor ()
      ensures key == None
    {
      key := None;
    }

    method CheckRateLimit(now: int, limit: int, window: int) returns (allowed: bool, remaining: int)
      modifies this
      ensures key == Some(Touch(old(key), now, window))
      ensures key.Some? && (allowed <==> key.value.0 <= limit)
      ensures remaining == if key.value.0 < limit then limit - key.value.0 else 0
    {
      key := Live(key, now);
      var current := if key.None? then 1 else key.value.0 + 1;
      var expiry := if key.None? || current == 1 then now + 1000 * window else key.value.1;
      key := Some((current, expiry));
      allowed := current <= limit;
      remaining := Max(0, limit - current);
    }
  }

  // ---- Timed runs on one key -------------------------------------------------------

  predicate Sorted(times: seq<int>) {
    forall i, j :: 0 <= i < j < |times| ==> times[i] <= times[j]
  }

  /** How many of the calls made at these times from this key on are allowed and fall in [lo, hi). */
  function AllowedIn(key: Key, times: seq<int>, limit: int, window: int, lo: int, hi: int): nat
    decreases |times|
  {
    if times == [] then 0 else
    var touched := Touch(key, times[0], window);
    (if lo <= times[0] < hi && touched.0 <= limit then 1 else 0)
    + AllowedIn(Some(touched), times[1..], limit, window, lo, hi)
  }

  /** The key after the calls. */
  function After(key: Key, times: seq<int>, window: int): Key
    decreases |times|
  {
    if times == [] then key else After(Some(Touch(key, times[0], window)), times[1..], window)
  }

  lemma {:induction false} CountsUp(key: Key, times: seq<int>, window: int)
    requires key.Some? && key.value.0 >= 1
    requires forall i :: 0 <= i < |times| ==> times[i] < key.value.1
    ensures After(key, times, window) == Some((key.value.0 + |times|, key.value.1))
    decreases |times|
  {
    if times != [] {
      CountsUp(Some(Touch(key, times[0], window)), times[1..], window);
    }
  }

  /** Of the calls in one lifetime of the key, the next one is allowed exactly while fewer than
      `limit` came before it. */
  lemma LifetimeAllowsFirst(key: Key, times: seq<int>, now: int, limit: int, window: int)
    requires times != [] && Live(key, times[0]) == None
    requires forall i :: 0 <= i < |times| ==> times[i] < times[0] + 1000 * window
    requires now < times[0] + 1000 * window
    ensures Touch(After(key, times, window), now, window).0 <= limit <==> |times| < limit
  {
    CountsUp(Some(Touch(key, times[0], window)), times[1..], window);
  }

  lemma {:induction false} NoneLater(key: Key, times: seq<int>, limit: int, window: int, lo: int, hi: int)
    requires forall i :: 0 <= i < |times| ==> times[i] >= hi || times[i] < lo
    ensures AllowedIn(key, times, limit, window, lo, hi) == 0
    decreases |times|
  {
    if times != [] {
      NoneLater(Some(Touch(key, times[0], window)), times[1..], limit, window, lo, hi);
    }
  }

  /** A lifetime that lasts to the end of the interval allows what is left of its limit. */
  lemma {:induction false} LastLifetime(key: Key, times: seq<int>, limit: int, window: int, lo: int, hi: int)
    requires key.Some? && key.value.0 >= 1 && key.value.1 >= hi && Sorted(times)
    ensures AllowedIn(key, times, limit, window, lo, hi) <= Max(0, limit - key.value.0)
    decreases |times|
  {
    if times != [] {
      if times[0] < hi {
        LastLifetime(Some(Touch(key, times[0], window)), times[1..], limit, window, lo, hi);
      } else {
        NoneLater(key, times, limit, window, lo, hi);
      }
    }
  }

  /** From the interval's beginning: what is left of the lifetime then running, and one more. */
  lemma {:induction false} TwoLifetimes(key: Key, times: seq<int>, limit: int, window: int, lo: int)
    requires key.Some? && key.value.0 >= 1 && Sorted(times)
    requires forall i :: 0 <= i < |times| ==> times[i] >= lo
    ensures AllowedIn(key, times, limit, window, lo, lo + 1000 * window) <= Max(0, limit - key.value.0) + Max(0, limit)
    decreases |times|
  {
    if times != [] {
      var touched := Some(Touch(key, times[0], window));
      if times[0] < key.value.1 {
        TwoLifetimes(touched, times[1..], limit, window, lo);
      } else {
        LastLifetime(touched, times[1..], limit, window, lo, lo + 1000 * window);
      }
    }
  }

  /** Any half-open interval as long as the window contains at most 2 * limit - 1 allowed calls. */
  lemma {:induction false} IntervalBound(key: Key, times: seq<int>, limit: int, window: int, lo: int)
    requires Sorted(times) && (key.Some? ==> key.value.0 >= 1)
    ensures AllowedIn(key, times, limit, window, lo, lo + 1000 * window) <= Max(0, 2 * limit - 1)
    decreases |times|
  {
    if times != [] {
      var touched := Some(Touch(key, times[0], window));
      if times[0] < lo {
        IntervalBound(touched, times[1..], limit, window, lo);
      } else if key.Some? {
        TwoLifetimes(key, times, limit, window, lo);
      } else {
        LastLifetime(touched, times[1..], limit, window, lo, lo + 1000 * window);
      }
    }
  }

  // ---- The bound is attained -------------------------------------------------------

  function Repeat(t: int, n: nat): seq<int> {
    if n == 0 then [] else [t] + Repeat(t, n - 1)
  }

  lemma {:induction false} Burst(key: Key, t: int, n: nat, rest: seq<int>, limit: int, window: int, lo: int, hi: int)
    requires key.Some? && key.value.0 >= 1 && t < key.value.1 && lo <= t < hi && key.value.0 + n <= limit
    ensures AllowedIn(key, Repeat(t, n) + rest, limit, window, lo, hi)
         == n + AllowedIn(Some((key.value.0 + n, key.value.1)), rest, limit, window, lo, hi)
    decreases n
  {
    if n == 0 {
      assert Repeat(t, n) + rest == rest;
    } else {
      assert (Repeat(t, n) + rest)[1..] == Repeat(t, n - 1) + rest;
      Burst(Some((key.value.0 + 1, key.value.1)), t, n - 1, rest, limit, window, lo, hi);
    }
  }

  lemma {:induction false} RepeatIs(t: int, n: nat)
    ensures |Repeat(t, n)| == n && forall i :: 0 <= i < n ==> Repeat(t, n)[i] == t
  {
    if n > 0 {
      RepeatIs(t, n - 1);
    }
  }

  /** One call at 0, limit - 1 in the last millisecond of its window and limit in the next millisecond. */
  function LateBurst(limit: nat, window: nat): seq<int>
    requires limit >= 1
  {
    [0] + (Repeat(1000 * window - 1, limit - 1) + Repeat(1000 * window, limit))
  }

  lemma LateBurstSorted(limit: nat, window: nat)
    requires limit >= 1 && window >= 1
    ensures Sorted(LateBurst(limit, window))
  {
    RepeatIs(1000 * window - 1, limit - 1);
    RepeatIs(1000 * window, limit);
  }

  /** The calls of the next millisecond open a new lifetime and are all allowed. */
  lemma SecondBurst(limit: nat, w: int, window: nat)
    requires limit >= 1 && w == 1000 * window && w >= 1
    ensures AllowedIn(Some((limit, w)), Repeat(w, limit), limit, window, 1, 1 + w) == limit
  {
    var late := Repeat(w, limit);
    assert late[1..] == Repeat(w, limit - 1);
    assert Touch(Some((limit, w)), w, window) == (1, w + w);
    Burst(Some((1, w + w)), w, limit - 1, [], limit, window, 1, 1 + w);
    assert Repeat(w, limit - 1) + [] == Repeat(w, limit - 1);
  }

  /** For every limit and window some sorted run reaches the bound. */
  lemma BoundAttained(limit: nat, window: nat)
    requires limit >= 1 && window >= 1
    ensures Sorted(LateBurst(limit, window))
    ensures AllowedIn(None, LateBurst(limit, window), limit, window, 1, 1 + 1000 * window) == 2 * limit - 1
  {
    var w := 1000 * window;
    LateBurstSorted(limit, window);
    assert LateBurst(limit, window)[1..] == Repeat(w - 1, limit - 1) + Repeat(w, limit);
    Burst(Some((1, w)), w - 1, limit - 1, Repeat(w, limit), limit, window, 1, 1 + w);
    SecondBurst(limit, w, window);
  }
}
