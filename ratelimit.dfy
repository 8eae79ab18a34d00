/**
 * The sliding-window rate limiter of the chat server (server.py,
 * `check_rate_limit`): a table from client address to the times of its
 * recent requests, purged on every call.
 */
module RateLimit {

  /**
   * The list comprehension that purges a client's history: the timestamps `t`
   * with `now - t < window`, in their original order.
   */
  function Recent(ts: seq<int>, now: int, window: int): (r: seq<int>)
    ensures |r| <= |ts|
    ensures forall t :: t in r <==> t in ts && now - t < window
    ensures forall t :: multiset(r)[t] == if now - t < window then multiset(ts)[t] else 0
    decreases |ts|
  {
    if ts == [] then []
    else
      assert ts == ts[..|ts| - 1] + [ts[|ts| - 1]];
      Recent(ts[..|ts| - 1], now, window) + (if now - ts[|ts| - 1] < window then [ts[|ts| - 1]] else [])
  }

  /** Purging a concatenated history purges each part. */
  lemma {:induction false} RecentConcat(a: seq<int>, b: seq<int>, now: int, window: int)
    ensures Recent(a + b, now, window) == Recent(a, now, window) + Recent(b, now, window)
    decreases |b|
  {
    if b == [] {
      assert a + b == a;
    } else {
      var init, last := b[..|b| - 1], b[|b| - 1];
      assert a + b == (a + init) + [last];
      assert b == init + [last];
      RecentConcat(a, init, now, window);
      RecentAppend(a + init, last, now, window);
      RecentAppend(init, last, now, window);
    }
  }

  /** Purging twice at the same moment removes nothing more. */
  lemma {:induction false} RecentIdempotent(ts: seq<int>, now: int, window: int)
    ensures Recent(Recent(ts, now, window), now, window) == Recent(ts, now, window)
    decreases |ts|
  {
    if ts != [] {
      var init, last := ts[..|ts| - 1], ts[|ts| - 1];
      var p := Recent(init, now, window);
      RecentIdempotent(init, now, window);
      if now - last < window {
        RecentAppend(p, last, now, window);
      } else {
        assert Recent(ts, now, window) == p;
      }
    }
  }

  /** Purging an extended history purges the old part and keeps a recent newcomer. */
  lemma RecentAppend(ts: seq<int>, t: int, now: int, window: int)
    ensures Recent(ts + [t], now, window) == Recent(ts, now, window) + (if now - t < window then [t] else [])
  {
    assert (ts + [t])[..|ts|] == ts;
  }

  /**
   * Purging at an earlier moment and again at a later one is the same as
   * purging once at the later one: a timestamp that has left the window never
   * comes back.
   */
  lemma {:induction false} RecentLater(ts: seq<int>, earlier: int, later: int, window: int)
    requires earlier <= later
    ensures Recent(Recent(ts, earlier, window), later, window) == Recent(ts, later, window)
    decreases |ts|
  {
    if ts != [] {
      var init, last := ts[..|ts| - 1], ts[|ts| - 1];
      assert ts == init + [last];
      RecentLater(init, earlier, later, window);
      RecentAppend(init, last, earlier, window);
      RecentAppend(init, last, later, window);
      if earlier - last < window {
        RecentAppend(Recent(init, earlier, window), last, later, window);
      } else {
        assert Recent(ts, earlier, window) == Recent(init, earlier, window);
        assert Recent(ts, later, window) == Recent(init, later, window);
      }
    }
  }

  /** Every client's history has at most `maxRequests` entries. */
  ghost predicate Bounded(times: map<string, seq<int>>, maxRequests: int) {
    forall ip :: ip in times ==> |times[ip]| <= maxRequests
  }

  /** The process-wide `request_times` table, a `defaultdict(list)`. */
  class RateLimiter {
    var requestTimes: map<string, seq<int>>

    /** The history of `ip`; a missing entry reads as the empty list, as in a `defaultdict`. */
    function TimesOf(ip: string): seq<int>
      reads this
    {
      if ip in requestTimes then requestTimes[ip] else []
    }

    constructor ()
      ensures requestTimes == map[]
    {
      requestTimes := map[];
    }

    /**
     * `check_rate_limit(ip, max_requests, window_seconds)` at time `now`: the
     * client's history is purged first; the request is refused, with nothing
     * recorded, when at least `maxRequests` recent requests remain, and is
     * otherwise admitted and recorded. Other clients' entries are untouched.
     */
    method CheckRateLimit(ip: string, now: int, maxRequests: int, window: int) returns (allowed: bool)
      modifies this
      ensures allowed == (|Recent(old(TimesOf(ip)), now, window)| < maxRequests)
      ensures requestTimes == old(requestTimes)[ip := Recent(old(TimesOf(ip)), now, window) + (if allowed then [now] else [])]
      ensures allowed ==> |TimesOf(ip)| <= maxRequests
      ensures forall t :: t in TimesOf(ip) ==> t == now || (t in old(TimesOf(ip)) && now - t < window)
      ensures 0 <= maxRequests && old(Bounded(requestTimes, maxRequests)) ==> Bounded(requestTimes, maxRequests)
    {
      var kept := Recent(TimesOf(ip), now, window);
      requestTimes := requestTimes[ip := kept];
      if |kept| >= maxRequests {
        assert ip in old(requestTimes) ==> |kept| <= |old(requestTimes)[ip]|;
        assert kept + [] == kept;
        return false;
      }
      requestTimes := requestTimes[ip := kept + [now]];
      return true;
    }
  }
}
