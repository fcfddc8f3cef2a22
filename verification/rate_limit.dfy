/** The API rate limit (integrated_final/cowrie_dashboard.py): the parser of
    `API_RATE_LIMIT` and the per-address sliding window of
    `APIRateLimiter.is_allowed`. Time is an integer number of milliseconds
    passed in by the caller in place of `time.time()`; the window stays in
    seconds, as parsed. */
module RateLimits {
  import opened Wrappers
  import opened Bounds
  import opened Text

  /** `_parse_rate_limit(rate_str)`: the count before the first '/', and a
      window of an hour when the unit after it starts with "hour" in any case,
      else a minute; (30, 60) when the count is not an integer. */
  function ParseRateLimit(rateStr: string): (r: (int, int))
    ensures r.1 == 60 || r.1 == 3600
  {
    var parts := Split(rateStr, '/');
    match ParseInt(parts[0])
    case None => (30, 60)
    case Some(count) =>
      var unit := if |parts| > 1 then Lower(parts[1]) else "minute";
      (count, if StartsWith(unit, "hour") then 3600 else 60)
  }

  /** How `API_RATE_LIMIT` is written: a count, '/', and a unit. */
  function RateLimitText(count: int, unit: string): string {
    IntString(count) + "/" + unit
  }

  lemma IntStringHasNoSlash(n: int)
    ensures '/' !in IntString(n)
  {
    DecimalStringDigits(if n < 0 then -n else n);
    var d := DecimalString(if n < 0 then -n else n);
    assert IntString(n) == if n < 0 then "-" + d else d;
  }

  /** Any count written out with a unit parses back to that count, with an
      hour window exactly when the unit, lower-cased, starts with "hour";
      whatever follows a second '/' is ignored. */
  lemma ParseRateLimitText(count: int, unit: string)
    ensures ParseRateLimit(RateLimitText(count, unit)).0 == count
    ensures var pieces := Split(unit, '/');
      ParseRateLimit(RateLimitText(count, unit)).1 ==
        if StartsWith(Lower(pieces[0]), "hour") then 3600 else 60
  {
    IntStringHasNoSlash(count);
    SplitAfterPiece(IntString(count), unit, '/');
    assert RateLimitText(count, unit) == IntString(count) + ['/'] + unit;
    ParseIntString(count);
  }

  /** "minute" gives a one-minute window. */
  lemma ParseRateLimitMinute(count: int)
    ensures ParseRateLimit(RateLimitText(count, "minute")) == (count, 60)
  {
    assert "minute"[..4][0] != "hour"[0];
    UnitExample(count, "minute", "minute", 60);
  }

  /** "Hours" gives a one-hour window: case and ending do not matter. */
  lemma ParseRateLimitHours(count: int)
    ensures ParseRateLimit(RateLimitText(count, "Hours")) == (count, 3600)
  {
    assert "hours"[..4] == "hour";
    assert Lower("Hours") == "hours";
    UnitExample(count, "Hours", "hours", 3600);
  }

  lemma UnitExample(count: int, unit: string, lower: string, window: int)
    requires '/' !in unit && Lower(unit) == lower
    requires window == if StartsWith(lower, "hour") then 3600 else 60
    ensures ParseRateLimit(RateLimitText(count, unit)) == (count, window)
  {
    ParseRateLimitText(count, unit);
    SplitWhole(unit, '/');
  }

  /** A count with no unit gets a one-minute window. */
  lemma ParseRateLimitNoUnit(count: int)
    ensures ParseRateLimit(IntString(count)) == (count, 60)
  {
    IntStringHasNoSlash(count);
    SplitWhole(IntString(count), '/');
    ParseIntString(count);
    assert "minute"[..4][0] != "hour"[0];
  }

  /** Text before the first '/' that is not an integer gives the default
      (30, 60), whatever the unit. */
  lemma ParseRateLimitInvalid(head: string, unit: string)
    requires '/' !in head && ParseInt(head).None?
    ensures ParseRateLimit(head + "/" + unit) == (30, 60)
  {
    SplitAfterPiece(head, unit, '/');
    assert head + "/" + unit == head + ['/'] + unit;
  }

  /** The window in milliseconds. */
  function WindowMs(window: int): int {
    window * 1000
  }

  /** `_last_cleanup` is refreshed when more than five minutes have passed. */
  const CleanupIntervalMs := 300_000

  /** `[t for t in ts if now - t < window]` */
  function Recent(ts: seq<int>, now: int, window: int): (r: seq<int>)
    ensures |r| <= |ts|
    decreases |ts|
  {
    if ts == [] then []
    else
      var r := Recent(ts[..|ts| - 1], now, window);
      var t := ts[|ts| - 1];
      assert ts == ts[..|ts| - 1] + [t];
      if now - t < WindowMs(window) then r + [t] else r
  }

  /** The filter keeps, in order, exactly the times less than the window
      before `now`. */
  lemma {:induction false} RecentMembers(ts: seq<int>, now: int, window: int)
    ensures var r := Recent(ts, now, window);
      && (forall i :: 0 <= i < |r| ==> r[i] in ts && now - r[i] < WindowMs(window))
      && (forall t :: t in ts && now - t < WindowMs(window) ==> t in r)
    decreases |ts|
  {
    if ts != [] {
      var p := ts[..|ts| - 1];
      var t := ts[|ts| - 1];
      RecentMembers(p, now, window);
      assert ts == p + [t];
      assert Recent(ts, now, window) ==
        if now - t < WindowMs(window) then Recent(p, now, window) + [t] else Recent(p, now, window);
    }
  }

  /** `not v or now - v[-1] > window`: a list the cleanup deletes. */
  predicate IsStale(ts: seq<int>, now: int, window: int) {
    ts == [] || now - ts[|ts| - 1] > WindowMs(window)
  }

  /** The limiter's state: `_requests` and `_last_cleanup`. */
  datatype Limiter = Limiter(requests: map<string, seq<int>>, lastCleanup: int)

  /** The cleanup: every stale list is deleted, every other one kept as is. */
  function Purge(m: map<string, seq<int>>, now: int, window: int): (r: map<string, seq<int>>)
    ensures forall k :: k in r <==> k in m && !IsStale(m[k], now, window)
    ensures forall k :: k in r ==> r[k] == m[k]
  {
    map k | k in m && !IsStale(m[k], now, window) :: m[k]
  }

  /** The state after the periodic cleanup that opens `is_allowed`. */
  function CleanedUp(s: Limiter, now: int, window: int): Limiter {
    if now - s.lastCleanup > CleanupIntervalMs then Limiter(Purge(s.requests, now, window), now)
    else s
  }

  /** `requests.get(ip, [])` */
  function ListOf(m: map<string, seq<int>>, ip: string): seq<int> {
    if ip in m then m[ip] else []
  }

  /** `is_allowed(ip)` at time `now`, on the value: clean up if due, keep the
      address's recent timestamps, and refuse when `max_requests` of them
      remain; otherwise record `now` and allow. The address's list is
      written back either way. */
  function Allow(s: Limiter, maxRequests: int, window: int, ip: string, now: int): (r: (Limiter, bool))
  {
    var c := CleanedUp(s, now, window);
    var kept := Recent(ListOf(c.requests, ip), now, window);
    if |kept| >= maxRequests then (Limiter(c.requests[ip := kept], c.lastCleanup), false)
    else (Limiter(c.requests[ip := kept + [now]], c.lastCleanup), true)
  }

  /** No list holds more than `max_requests` timestamps (none at all when
      the maximum is not positive). */
  ghost predicate Bounded(s: Limiter, maxRequests: int) {
    forall k :: k in s.requests ==> |s.requests[k]| <= Capacity(maxRequests)
  }

  /** What one call promises, at any time: the answer is whether fewer than
      `max_requests` of the address's timestamps younger than the window
      survive the cleanup; the address's list becomes exactly those (plus
      `now` when allowed); another address's list is unchanged unless the
      cleanup deleted it as stale; and no list grows past the maximum. */
  lemma AllowSpec(s: Limiter, maxRequests: int, window: int, ip: string, now: int)
    requires Bounded(s, maxRequests)
    ensures var (r, allowed) := Allow(s, maxRequests, window, ip, now);
      var kept := Recent(ListOf(CleanedUp(s, now, window).requests, ip), now, window);
      && (allowed <==> |kept| < maxRequests)
      && ip in r.requests
      && r.requests[ip] == (if allowed then kept + [now] else kept)
      && (forall k :: k in r.requests && k != ip ==> k in s.requests && r.requests[k] == s.requests[k])
      && (forall k :: k in s.requests && k !in r.requests ==> IsStale(s.requests[k], now, window))
      && Bounded(r, maxRequests)
  {
    var c := CleanedUp(s, now, window);
    var kept := Recent(ListOf(c.requests, ip), now, window);
    assert |kept| <= |ListOf(c.requests, ip)|;
    if ip in c.requests {
      assert ip in s.requests && c.requests[ip] == s.requests[ip];
    }
  }

  /** `APIRateLimiter`, updated in place by each call. The clock is the
      `now` argument, in milliseconds. */
  class ApiRateLimiter {
    /** `_requests` */
    var requests: map<string, seq<int>>
    /** `_last_cleanup` */
    var lastCleanup: int
    /** `_max` */
    const maxRequests: int
    /** `_window`, in seconds */
    const window: int

    function State(): Limiter
      reads this
    {
      Limiter(requests, lastCleanup)
    }

    ghost predicate Valid()
      reads this
    {
      Bounded(State(), maxRequests)
    }

    /** `APIRateLimiter(max_requests, window_seconds)` built at time `now`. */
    constructor (maxRequests: int, windowSeconds: int, now: int)
      ensures Valid() && this.maxRequests == maxRequests && window == windowSeconds
      ensures State() == Limiter(map[], now)
    {
      this.maxRequests := maxRequests;
      window := windowSeconds;
      requests := map[];
      lastCleanup := now;
    }

    /** `is_allowed(ip)` at time `now`. */
    method IsAllowed(ip: string, now: int) returns (allowed: bool)
      requires Valid()
      modifies this
      ensures Valid()
      ensures (State(), allowed) == Allow(old(State()), maxRequests, window, ip, now)
    {
      if now - lastCleanup > CleanupIntervalMs {
        DropStale(now);
        lastCleanup := now;
      }
      ghost var c := CleanedUp(old(State()), now, window);
      assert State() == c;
      ghost var kept := Recent(ListOf(c.requests, ip), now, window);
      if ip !in requests {
        requests := requests[ip := []];
      }
      requests := requests[ip := Recent(requests[ip], now, window)];
      assert requests == c.requests[ip := kept];
      if |requests[ip]| >= maxRequests {
        allowed := false;
        assert requests == c.requests[ip := kept];
      } else {
        requests := requests[ip := requests[ip] + [now]];
        allowed := true;
        assert requests == c.requests[ip := kept + [now]];
      }
      assert State() == Allow(old(State()), maxRequests, window, ip, now).0;
      AllowSpec(old(State()), maxRequests, window, ip, now);
    }

    /** The cleanup's `del self._requests[k]` for every stale `k`. */
    method DropStale(now: int)
      modifies this
      ensures requests == Purge(old(requests), now, window)
      ensures lastCleanup == old(lastCleanup)
    {
      var stale := set k | k in requests && IsStale(requests[k], now, window);
      ghost var all := stale;
      while stale != {}
        invariant stale <= all && lastCleanup == old(lastCleanup)
        invariant forall k :: k in requests <==> k in old(requests) && (k !in all || k in stale)
        invariant forall k :: k in requests ==> requests[k] == old(requests)[k]
        decreases |stale|
      {
        var k :| k in stale;
        requests := requests - {k};
        stale := stale - {k};
      }
      assert requests == Purge(old(requests), now, window);
    }
  }
}

module SlidingWindows {
  import opened RateLimits

  /** `is_allowed` called for each `(ip, now)` in turn on a limiter built at
      time `start`; the state reached and the answers given. */
  function Run(maxRequests: int, window: int, start: int, calls: seq<(string, int)>): (r: (Limiter, seq<bool>))
    ensures |r.1| == |calls|
    decreases |calls|
  {
    if calls == [] then (Limiter(map[], start), [])
    else
      var n := |calls| - 1;
      var (s, answers) := Run(maxRequests, window, start, calls[..n]);
      var (s', a) := Allow(s, maxRequests, window, calls[n].0, calls[n].1);
      (s', answers + [a])
  }

  /** The times at which calls from `ip` were allowed, in order. */
  function AllowedTimes(calls: seq<(string, int)>, answers: seq<bool>, ip: string): seq<int>
    requires |answers| == |calls|
    decreases |calls|
  {
    if calls == [] then []
    else
      var n := |calls| - 1;
      AllowedTimes(calls[..n], answers[..n], ip) + (if calls[n].0 == ip && answers[n] then [calls[n].1] else [])
  }

  ghost predicate Sorted(ts: seq<int>) {
    forall i, j :: 0 <= i < j < |ts| ==> ts[i] <= ts[j]
  }

  ghost predicate AllExpired(ts: seq<int>, now: int, window: int) {
    forall i :: 0 <= i < |ts| ==> now - ts[i] >= WindowMs(window)
  }

  /** The list kept for an address is the tail of its allowed times, and
      every allowed time before that tail has left the window by `now`. */
  ghost predicate TailOf(list: seq<int>, allowed: seq<int>, now: int, window: int) {
    && |list| <= |allowed|
    && list == allowed[|allowed| - |list|..]
    && AllExpired(allowed[..|allowed| - |list|], now, window)
  }

  lemma {:induction false} RecentAppend(a: seq<int>, b: seq<int>, now: int, window: int)
    ensures Recent(a + b, now, window) == Recent(a, now, window) + Recent(b, now, window)
    decreases |b|
  {
    if b != [] {
      var n := |b| - 1;
      RecentAppend(a, b[..n], now, window);
      assert (a + b)[..|a + b| - 1] == a + b[..n];
    } else {
      assert a + b == a;
    }
  }

  lemma {:induction false} RecentOfExpired(ts: seq<int>, now: int, window: int)
    requires AllExpired(ts, now, window)
    ensures Recent(ts, now, window) == []
    decreases |ts|
  {
    if ts != [] {
      RecentOfExpired(ts[..|ts| - 1], now, window);
    }
  }

  /** Keeping one more time at the end of both lists keeps a tail. */
  lemma TailExtend(list: seq<int>, allowed: seq<int>, t: int, now: int, window: int)
    requires TailOf(list, allowed, now, window)
    ensures TailOf(list + [t], allowed + [t], now, window)
  {
    var d := |allowed| - |list|;
    assert (allowed + [t])[..d] == allowed[..d];
    assert (allowed + [t])[d..] == allowed[d..] + [t];
  }

  /** On a sorted list the filter keeps a tail: once one time has left the
      window, so have all before it. */
  lemma {:induction false} RecentOfSortedIsTail(ts: seq<int>, now: int, window: int)
    requires Sorted(ts)
    ensures TailOf(Recent(ts, now, window), ts, now, window)
    decreases |ts|
  {
    if ts != [] {
      var n := |ts| - 1;
      var p := ts[..n];
      assert ts == p + [ts[n]];
      if now - ts[n] < WindowMs(window) {
        RecentOfSortedIsTail(p, now, window);
        TailExtend(Recent(p, now, window), p, ts[n], now, window);
      } else {
        assert AllExpired(ts, now, window) by {
          forall i | 0 <= i < |ts| ensures now - ts[i] >= WindowMs(window) {
            assert ts[i] <= ts[n];
          }
        }
        RecentOfExpired(ts, now, window);
        assert ts[..|ts|] == ts;
      }
    }
  }

  /** Filtering the kept tail at a later time gives what filtering all the
      allowed times would. */
  lemma RecentOfTail(list: seq<int>, allowed: seq<int>, earlier: int, now: int, window: int)
    requires TailOf(list, allowed, earlier, window) && earlier <= now
    ensures Recent(allowed, now, window) == Recent(list, now, window)
  {
    var d := |allowed| - |list|;
    assert allowed == allowed[..d] + list;
    RecentAppend(allowed[..d], list, now, window);
    assert AllExpired(allowed[..d], now, window);
    RecentOfExpired(allowed[..d], now, window);
  }

  /** A tail stays a tail as time goes on. */
  lemma TailLater(list: seq<int>, allowed: seq<int>, earlier: int, now: int, window: int)
    requires TailOf(list, allowed, earlier, window) && earlier <= now
    ensures TailOf(list, allowed, now, window)
  {
    var d := |allowed| - |list|;
    forall i | 0 <= i < d ensures now - allowed[..d][i] >= WindowMs(window) {
      assert earlier - allowed[..d][i] >= WindowMs(window);
    }
  }

  /** A tail of a tail is a tail. */
  lemma TailOfTail(inner: seq<int>, list: seq<int>, allowed: seq<int>, now: int, window: int)
    requires TailOf(inner, list, now, window) && TailOf(list, allowed, now, window)
    ensures TailOf(inner, allowed, now, window)
  {
    var d := |allowed| - |list|;
    var e := |list| - |inner|;
    var dropped := allowed[..d + e];
    assert dropped == allowed[..d] + list[..e];
    assert allowed[d + e..] == list[e..];
    forall i | 0 <= i < |dropped| ensures now - dropped[i] >= WindowMs(window) {
      if i < d {
        assert dropped[i] == allowed[..d][i];
      } else {
        assert dropped[i] == list[..e][i - d];
      }
    }
  }

  /** The allowed times of an address are sorted and none is later than
      `now`, and the list kept for it is a tail of them as `TailOf` says. */
  ghost predicate Tracked(list: seq<int>, allowed: seq<int>, now: int, window: int) {
    && Sorted(allowed)
    && (forall i :: 0 <= i < |allowed| ==> allowed[i] <= now)
    && TailOf(list, allowed, now, window)
  }

  /** A list the cleanup deletes as stale has left the window entirely. */
  lemma StaleTail(list: seq<int>, allowed: seq<int>, earlier: int, now: int, window: int)
    requires Tracked(list, allowed, earlier, window) && earlier <= now
    requires IsStale(list, now, window)
    ensures TailOf([], allowed, now, window)
  {
    TailLater(list, allowed, earlier, now, window);
    var d := |allowed| - |list|;
    assert allowed[..|allowed|] == allowed;
    forall i | 0 <= i < |allowed| ensures now - allowed[i] >= WindowMs(window) {
      if i < d {
        assert allowed[i] == allowed[..d][i];
      } else {
        assert allowed[i] <= allowed[|allowed| - 1] == list[|list| - 1];
      }
    }
  }

  /** The cleanup keeps every address tracked. */
  lemma CleanupTracked(s: Limiter, window: int, k: string, allowed: seq<int>, earlier: int, now: int)
    requires Tracked(ListOf(s.requests, k), allowed, earlier, window) && earlier <= now
    ensures Tracked(ListOf(CleanedUp(s, now, window).requests, k), allowed, now, window)
  {
    var c := CleanedUp(s, now, window);
    TailLater(ListOf(s.requests, k), allowed, earlier, now, window);
    if ListOf(c.requests, k) != ListOf(s.requests, k) {
      assert k in s.requests && k !in c.requests;
      StaleTail(ListOf(s.requests, k), allowed, earlier, now, window);
    }
  }

  /** The tail kept for an address is itself sorted. */
  lemma TailSorted(list: seq<int>, allowed: seq<int>, now: int, window: int)
    requires Tracked(list, allowed, now, window)
    ensures Sorted(list)
  {
    var d := |allowed| - |list|;
    forall i, j | 0 <= i < j < |list| ensures list[i] <= list[j] {
      assert list[i] == allowed[d + i] && list[j] == allowed[d + j];
    }
  }

  /** Allowing a call at `now` keeps the allowed times sorted. */
  lemma AppendNowSorted(allowed: seq<int>, now: int)
    requires Sorted(allowed) && forall i :: 0 <= i < |allowed| ==> allowed[i] <= now
    ensures Sorted(allowed + [now])
    ensures forall i :: 0 <= i < |allowed + [now]| ==> (allowed + [now])[i] <= now
  {
  }

  /** Filtering the list kept for the caller: the result is what filtering
      all its allowed times would give, and stays tracked with or without
      `now` added. */
  lemma FilterTracked(list: seq<int>, allowed: seq<int>, now: int, window: int)
    requires Tracked(list, allowed, now, window)
    ensures Recent(allowed, now, window) == Recent(list, now, window)
    ensures Tracked(Recent(list, now, window), allowed, now, window)
    ensures Tracked(Recent(list, now, window) + [now], allowed + [now], now, window)
  {
    var kept := Recent(list, now, window);
    TailSorted(list, allowed, now, window);
    RecentOfSortedIsTail(list, now, window);
    TailOfTail(kept, list, allowed, now, window);
    RecentOfTail(list, allowed, now, now, window);
    TailExtend(kept, allowed, now, now, window);
    AppendNowSorted(allowed, now);
  }

  /** One call: it is allowed exactly when fewer than `max_requests` of the
      address's allowed times lie in the window, and every address stays
      tracked, the caller's allowed times gaining `now` when allowed. */
  lemma StepTracked(s: Limiter, maxRequests: int, window: int, ip: string, now: int,
                    k: string, allowed: seq<int>, earlier: int)
    requires Tracked(ListOf(s.requests, k), allowed, earlier, window) && earlier <= now
    ensures var (r, ok) := Allow(s, maxRequests, window, ip, now);
      && (k == ip ==> (ok <==> |Recent(allowed, now, window)| < maxRequests))
      && Tracked(ListOf(r.requests, k), if k == ip && ok then allowed + [now] else allowed, now, window)
  {
    var c := CleanedUp(s, now, window);
    CleanupTracked(s, window, k, allowed, earlier, now);
    var kept := Recent(ListOf(c.requests, ip), now, window);
    var (r, ok) := Allow(s, maxRequests, window, ip, now);
    assert ok <==> |kept| < maxRequests;
    assert r.requests == c.requests[ip := if ok then kept + [now] else kept];
    if k == ip {
      FilterTracked(ListOf(c.requests, k), allowed, now, window);
    } else {
      assert ListOf(r.requests, k) == ListOf(c.requests, k);
    }
  }

  /** Every address is tracked after a run. */
  ghost predicate Tracks(s: Limiter, calls: seq<(string, int)>, answers: seq<bool>, now: int, window: int)
    requires |answers| == |calls|
  {
    forall k :: Tracked(ListOf(s.requests, k), AllowedTimes(calls, answers, k), now, window)
  }

  /** The calls come no earlier than the limiter was built, in time order. */
  ghost predicate InTimeOrder(start: int, calls: seq<(string, int)>) {
    && (forall i :: 0 <= i < |calls| ==> start <= calls[i].1)
    && (forall i, j :: 0 <= i < j < |calls| ==> calls[i].1 <= calls[j].1)
  }

  /** The time of the last call, or `start` before any. */
  function LastTime(start: int, calls: seq<(string, int)>): int {
    if calls == [] then start else calls[|calls| - 1].1
  }

  lemma {:induction false} RunTracks(maxRequests: int, window: int, start: int, calls: seq<(string, int)>)
    requires InTimeOrder(start, calls)
    ensures var (s, answers) := Run(maxRequests, window, start, calls);
      Tracks(s, calls, answers, LastTime(start, calls), window)
    decreases |calls|
  {
    var (s, answers) := Run(maxRequests, window, start, calls);
    if calls == [] {
      forall k ensures Tracked(ListOf(s.requests, k), AllowedTimes(calls, answers, k), start, window) {
        assert AllowedTimes(calls, answers, k) == [];
      }
    } else {
      var n := |calls| - 1;
      var p := calls[..n];
      assert InTimeOrder(start, p);
      RunTracks(maxRequests, window, start, p);
      forall k ensures Tracked(ListOf(s.requests, k), AllowedTimes(calls, answers, k), calls[n].1, window) {
        RunStepKey(maxRequests, window, start, calls, k);
      }
    }
  }

  /** The last call of a run, seen from one address. */
  lemma RunStepKey(maxRequests: int, window: int, start: int, calls: seq<(string, int)>, k: string)
    requires calls != [] && InTimeOrder(start, calls)
    requires var p := calls[..|calls| - 1];
      var (t, before) := Run(maxRequests, window, start, p);
      Tracked(ListOf(t.requests, k), AllowedTimes(p, before, k), LastTime(start, p), window)
    ensures var (s, answers) := Run(maxRequests, window, start, calls);
      Tracked(ListOf(s.requests, k), AllowedTimes(calls, answers, k), LastTime(start, calls), window)
  {
    var n := |calls| - 1;
    var p := calls[..n];
    var (t, before) := Run(maxRequests, window, start, p);
    var (r, ok) := Allow(t, maxRequests, window, calls[n].0, calls[n].1);
    assert Run(maxRequests, window, start, calls) == (r, before + [ok]);
    var a := AllowedTimes(p, before, k);
    var a' := if calls[n].0 == k && ok then a + [calls[n].1] else a;
    assert (before + [ok])[..n] == before;
    assert AllowedTimes(calls, before + [ok], k) == a';
    assert LastTime(start, p) <= calls[n].1 == LastTime(start, calls);
    StepTracked(t, maxRequests, window, calls[n].0, calls[n].1, k, a, LastTime(start, p));
    assert Tracked(ListOf(r.requests, k), a', calls[n].1, window);
  }

  /** The answer to call `j` is the window's: allowed exactly when fewer
      than `max_requests` of the earlier allowed calls from the same address
      were made less than the window before it. */
  predicate WindowAnswer(maxRequests: int, window: int, calls: seq<(string, int)>, answers: seq<bool>, j: int) {
    && 0 <= j < |calls| && j < |answers|
    && (answers[j] <==>
         |Recent(AllowedTimes(calls[..j], answers[..j], calls[j].0), calls[j].1, window)| < maxRequests)
  }

  /** The sliding window: with calls in time order, every call is answered
      by the window. */
  lemma {:induction false} SlidingWindow(maxRequests: int, window: int, start: int, calls: seq<(string, int)>)
    requires InTimeOrder(start, calls)
    ensures var answers := Run(maxRequests, window, start, calls).1;
      forall j :: 0 <= j < |calls| ==> WindowAnswer(maxRequests, window, calls, answers, j)
    decreases |calls|
  {
    if calls != [] {
      var p := calls[..|calls| - 1];
      assert InTimeOrder(start, p);
      SlidingWindow(maxRequests, window, start, p);
      EarlierAnswers(maxRequests, window, start, calls);
      LastAnswer(maxRequests, window, start, calls);
    }
  }

  /** The answers a run gave before its last call stay as they were. */
  lemma EarlierAnswers(maxRequests: int, window: int, start: int, calls: seq<(string, int)>)
    requires calls != []
    requires var p := calls[..|calls| - 1];
      var before := Run(maxRequests, window, start, p).1;
      forall j :: 0 <= j < |p| ==> WindowAnswer(maxRequests, window, p, before, j)
    ensures var answers := Run(maxRequests, window, start, calls).1;
      forall j :: 0 <= j < |calls| - 1 ==> WindowAnswer(maxRequests, window, calls, answers, j)
  {
    var p := calls[..|calls| - 1];
    RunPrefix(maxRequests, window, start, calls);
    PrefixAnswers(maxRequests, window, calls, Run(maxRequests, window, start, calls).1,
                  p, Run(maxRequests, window, start, p).1);
  }

  /** A run over all but the last call answers as the longer run did. */
  lemma RunPrefix(maxRequests: int, window: int, start: int, calls: seq<(string, int)>)
    requires calls != []
    ensures Run(maxRequests, window, start, calls).1[..|calls| - 1]
         == Run(maxRequests, window, start, calls[..|calls| - 1]).1
  {
  }

  /** What holds of the answers to the calls before the last holds of
      them as a prefix of all the answers. */
  lemma PrefixAnswers(maxRequests: int, window: int, calls: seq<(string, int)>, answers: seq<bool>,
                      p: seq<(string, int)>, before: seq<bool>)
    requires |answers| == |calls| > 0
    requires p == calls[..|calls| - 1] && before == answers[..|calls| - 1]
    requires forall j :: 0 <= j < |p| ==> WindowAnswer(maxRequests, window, p, before, j)
    ensures forall j :: 0 <= j < |calls| - 1 ==> WindowAnswer(maxRequests, window, calls, answers, j)
  {
    forall j | 0 <= j < |p|
      ensures WindowAnswer(maxRequests, window, calls, answers, j)
    {
      assert WindowAnswer(maxRequests, window, p, before, j);
      assert p[..j] == calls[..j];
      assert before[..j] == answers[..j];
      assert before[j] == answers[j] && p[j] == calls[j];
    }
  }

  /** The last call of a run in time order is answered by the window. */
  lemma LastAnswer(maxRequests: int, window: int, start: int, calls: seq<(string, int)>)
    requires calls != [] && InTimeOrder(start, calls)
    ensures var answers := Run(maxRequests, window, start, calls).1;
      WindowAnswer(maxRequests, window, calls, answers, |calls| - 1)
  {
    var n := |calls| - 1;
    var p := calls[..n];
    assert InTimeOrder(start, p);
    RunTracks(maxRequests, window, start, p);
    var (t, before) := Run(maxRequests, window, start, p);
    var answers := Run(maxRequests, window, start, calls).1;
    assert answers == before + [Allow(t, maxRequests, window, calls[n].0, calls[n].1).1];
    assert answers[..n] == before;
    assert LastTime(start, p) <= calls[n].1;
    StepTracked(t, maxRequests, window, calls[n].0, calls[n].1, calls[n].0, AllowedTimes(p, before, calls[n].0), LastTime(start, p));
  }
}
