/**
 The sliding-window limiter of src/lib/rateLimit.js: pruned lists of admission
 times per key, compared with the complete log of admissions.
 */
module RateLimit {
  import opened Wrappers

  /**
   An admission has no `retryAfter`. A denial by an empty window, which takes a
   limit below one, has NaN for both times; None stands for it.
   */
  datatype Decision = Decision(
    allowed: bool, limit: int, remaining: int, resetAt: Option<int>, retryAfter: Option<int>)

  /** The admissions later than `start`. */
  function Window(ts: seq<int>, start: int): seq<int> {
    if ts == [] then []
    else if ts[0] > start then [ts[0]] + Window(ts[1..], start)
    else Window(ts[1..], start)
  }

  /** `Math.ceil(ms / 1000)`. */
  function CeilSeconds(ms: int): int {
    (ms + 999) / 1000
  }

  /** The limiter on one stored list: the answer and the list to keep. */
  function Check(stored: seq<int>, limit: int, windowMs: int, now: int): (Decision, seq<int>) {
    var valid := Window(stored, now - windowMs);
    if |valid| >= limit then (Denial(valid, limit, windowMs, now), stored)
    else (Decision(true, limit, limit - (|valid| + 1), Some(now + windowMs), None), valid + [now])
  }

  function Denial(valid: seq<int>, limit: int, windowMs: int, now: int): Decision {
    if valid == [] then Decision(false, limit, 0, None, None)
    else
      var resetAt := valid[0] + windowMs;
      Decision(false, limit, 0, Some(resetAt), Some(CeilSeconds(resetAt - now)))
  }

  // ---------------------------------------------------------------------
  // Windows of sorted logs
  // ---------------------------------------------------------------------

  predicate Nondecreasing(ts: seq<int>) {
    forall i, j :: 0 <= i < j < |ts| ==> ts[i] <= ts[j]
  }

  predicate AllAtMost(ts: seq<int>, now: int) {
    forall i :: 0 <= i < |ts| ==> ts[i] <= now
  }

  lemma {:induction false} WindowAppend(ts: seq<int>, t: int, start: int)
    ensures Window(ts + [t], start) == Window(ts, start) + if t > start then [t] else []
  {
    if ts != [] {
      WindowAppend(ts[1..], t, start);
      assert (ts + [t])[1..] == ts[1..] + [t];
    }
  }

  /** Pruning early and again later is pruning later. */
  lemma {:induction false} WindowTwice(ts: seq<int>, a: int, b: int)
    requires a <= b
    ensures Window(Window(ts, a), b) == Window(ts, b)
  {
    if ts != [] {
      WindowTwice(ts[1..], a, b);
      if ts[0] > a { assert Window(ts, a)[1..] == Window(ts[1..], a); }
    }
  }

  lemma {:induction false} WindowKeepsAll(ts: seq<int>, start: int)
    requires forall i :: 0 <= i < |ts| ==> ts[i] > start
    ensures Window(ts, start) == ts
  {
    if ts != [] { WindowKeepsAll(ts[1..], start); }
  }

  lemma {:induction false} WindowShrinks(ts: seq<int>, start: int)
    ensures |Window(ts, start)| <= |ts|
  {
    if ts != [] { WindowShrinks(ts[1..], start); }
  }

  lemma {:induction false} WindowMembers(ts: seq<int>, start: int)
    ensures forall t :: t in Window(ts, start) ==> t in ts && t > start
  {
    if ts != [] { WindowMembers(ts[1..], start); }
  }

  lemma {:induction false} WindowSorted(ts: seq<int>, start: int)
    requires Nondecreasing(ts)
    ensures Nondecreasing(Window(ts, start))
    ensures forall i :: 0 <= i < |Window(ts, start)| ==> Window(ts, start)[i] > start
  {
    WindowMembers(ts, start);
    if ts != [] {
      WindowSorted(ts[1..], start);
      WindowMembers(ts[1..], start);
      var w := Window(ts[1..], start);
      forall i | 0 <= i < |w| ensures ts[0] <= w[i] {
        assert w[i] in w;
        HeadIsLeast(ts, w[i]);
      }
    }
  }

  lemma HeadIsLeast(ts: seq<int>, t: int)
    requires ts != [] && Nondecreasing(ts) && t in ts[1..]
    ensures ts[0] <= t
  {
    var j :| 0 <= j < |ts[1..]| && ts[1..][j] == t;
    assert ts[0] <= ts[j + 1];
  }

  // ---------------------------------------------------------------------
  // Runs on one key
  // ---------------------------------------------------------------------

  /** The stored list, next to every admission ever made. */
  datatype Track = Track(stored: seq<int>, log: seq<int>)

  function Step(tr: Track, limit: int, windowMs: int, now: int): Track
  {
    var r := Check(tr.stored, limit, windowMs, now);
    Track(r.1, if r.0.allowed then tr.log + [now] else tr.log)
  }

  function RunFrom(tr: Track, limit: int, windowMs: int, times: seq<int>): Track
    decreases |times|
  {
    if times == [] then tr
    else Step(RunFrom(tr, limit, windowMs, times[..|times| - 1]), limit, windowMs, times[|times| - 1])
  }

  function Run(limit: int, windowMs: int, times: seq<int>): Track
  {
    RunFrom(Track([], []), limit, windowMs, times)
  }

  /** The stored list is the log since one window before the last admission. */
  ghost predicate Inv(tr: Track, limit: int, windowMs: int, now: int) {
    && Nondecreasing(tr.log) && AllAtMost(tr.log, now)
    && |tr.stored| <= limit
    && tr.stored == if tr.log == [] then [] else Window(tr.log, tr.log[|tr.log| - 1] - windowMs)
  }

  /** Pruning loses nothing: from here on the stored list shows the same window as the log. */
  lemma SameWindow(tr: Track, limit: int, windowMs: int, now: int)
    requires Inv(tr, limit, windowMs, now)
    ensures Window(tr.stored, now - windowMs) == Window(tr.log, now - windowMs)
  {
    if tr.log != [] {
      WindowTwice(tr.log, tr.log[|tr.log| - 1] - windowMs, now - windowMs);
    }
  }

  lemma StepKeepsInv(tr: Track, limit: int, windowMs: int, now: int)
    requires limit >= 1 && windowMs >= 1 && Inv(tr, limit, windowMs, now)
    ensures Inv(Step(tr, limit, windowMs, now), limit, windowMs, now)
  {
    SameWindow(tr, limit, windowMs, now);
    if Check(tr.stored, limit, windowMs, now).0.allowed { Admitted(tr, limit, windowMs, now); }
  }

  lemma Admitted(tr: Track, limit: int, windowMs: int, now: int)
    requires windowMs >= 1 && Nondecreasing(tr.log) && AllAtMost(tr.log, now)
    requires |Window(tr.log, now - windowMs)| < limit
    ensures Inv(Track(Window(tr.log, now - windowMs) + [now], tr.log + [now]), limit, windowMs, now)
  {
    WindowAppend(tr.log, now, now - windowMs);
  }

  lemma FrontIsClocked(times: seq<int>, n: nat)
    requires n < |times| && Nondecreasing(times)
    ensures Nondecreasing(times[..n]) && AllAtMost(times[..n], times[n])
  {
  }

  lemma {:induction false} RunKeepsInv(limit: int, windowMs: int, times: seq<int>, now: int)
    requires limit >= 1 && windowMs >= 1 && Nondecreasing(times) && AllAtMost(times, now)
    ensures Inv(Run(limit, windowMs, times), limit, windowMs, now)
    decreases |times|
  {
    if times != [] {
      var n := |times| - 1;
      FrontIsClocked(times, n);
      RunKeepsInv(limit, windowMs, times[..n], times[n]);
      StepKeepsInv(Run(limit, windowMs, times[..n]), limit, windowMs, times[n]);
      InvLater(Run(limit, windowMs, times), limit, windowMs, times[n], now);
    }
  }

  lemma InvLater(tr: Track, limit: int, windowMs: int, now: int, later: int)
    requires Inv(tr, limit, windowMs, now) && now <= later
    ensures Inv(tr, limit, windowMs, later)
  {
  }

  /** At every call the pruned list decides as the complete log would. */
  lemma PrunedDecidesLikeLog(limit: int, windowMs: int, times: seq<int>, now: int)
    requires limit >= 1 && windowMs >= 1 && Nondecreasing(times) && AllAtMost(times, now)
    ensures var tr := Run(limit, windowMs, times);
            Check(tr.stored, limit, windowMs, now).0 == Check(tr.log, limit, windowMs, now).0
    ensures var tr := Run(limit, windowMs, times);
            Check(tr.stored, limit, windowMs, now).0.allowed <==> |Window(tr.log, now - windowMs)| < limit
    ensures var tr := Run(limit, windowMs, times);
            Check(tr.stored, limit, windowMs, now).0.remaining
            == limit - |Window(Step(tr, limit, windowMs, now).log, now - windowMs)|
  {
    var tr := Run(limit, windowMs, times);
    RunKeepsInv(limit, windowMs, times, now);
    SameWindow(tr, limit, windowMs, now);
    WindowAppend(tr.log, now, now - windowMs);
    WindowFull(limit, windowMs, times, now);
  }

  /** The window of the log never holds more than `limit`. */
  lemma WindowFull(limit: int, windowMs: int, times: seq<int>, now: int)
    requires limit >= 1 && windowMs >= 1 && Nondecreasing(times) && AllAtMost(times, now)
    ensures |Window(Run(limit, windowMs, times).log, now - windowMs)| <= limit
  {
    var tr := Run(limit, windowMs, times);
    RunKeepsInv(limit, windowMs, times, now);
    SameWindow(tr, limit, windowMs, now);
    WindowShrinks(tr.stored, now - windowMs);
  }

  // ---------------------------------------------------------------------
  // At most `limit` admissions in any window
  // ---------------------------------------------------------------------

  /** Admissions in the half-open interval from `a` up to `b`. */
  function Count(ts: seq<int>, a: int, b: int): nat {
    if ts == [] then 0 else (if a <= ts[0] < b then 1 else 0) + Count(ts[1..], a, b)
  }

  lemma {:induction false} CountAppend(ts: seq<int>, t: int, a: int, b: int)
    ensures Count(ts + [t], a, b) == Count(ts, a, b) + if a <= t < b then 1 else 0
  {
    if ts != [] {
      CountAppend(ts[1..], t, a, b);
      assert (ts + [t])[1..] == ts[1..] + [t];
    }
  }

  lemma {:induction false} CountInWindow(ts: seq<int>, a: int, b: int, start: int)
    requires start < a
    ensures Count(ts, a, b) <= |Window(ts, start)|
  {
    if ts != [] { CountInWindow(ts[1..], a, b, start); }
  }

  /** A limit below one admits nothing, and a denial leaves no trace. */
  lemma {:induction false} NothingAdmitted(limit: int, windowMs: int, times: seq<int>)
    requires limit < 1
    ensures Run(limit, windowMs, times) == Track([], [])
    decreases |times|
  {
    if times != [] { NothingAdmitted(limit, windowMs, times[..|times| - 1]); }
  }

  lemma CountStep(tr: Track, limit: int, windowMs: int, now: int, a: int)
    requires limit >= 1 && windowMs >= 1 && Inv(tr, limit, windowMs, now)
    requires Count(tr.log, a, a + windowMs) <= limit
    ensures Count(Step(tr, limit, windowMs, now).log, a, a + windowMs) <= limit
  {
    SameWindow(tr, limit, windowMs, now);
    CountAppend(tr.log, now, a, a + windowMs);
    if a <= now < a + windowMs { CountInWindow(tr.log, a, a + windowMs, now - windowMs); }
  }

  /** Every half-open interval of one window's length holds at most `limit` admissions of the whole run. */
  lemma {:induction false} AtMostLimitPerWindow(limit: int, windowMs: int, times: seq<int>, a: int)
    requires windowMs >= 1 && Nondecreasing(times)
    ensures Count(Run(limit, windowMs, times).log, a, a + windowMs) <= if limit < 1 then 0 else limit
    decreases |times|
  {
    if limit < 1 {
      NothingAdmitted(limit, windowMs, times);
    } else if times != [] {
      var n := |times| - 1;
      FrontIsClocked(times, n);
      AtMostLimitPerWindow(limit, windowMs, times[..n], a);
      RunKeepsInv(limit, windowMs, times[..n], times[n]);
      CountStep(Run(limit, windowMs, times[..n]), limit, windowMs, times[n], a);
    }
  }

  // ---------------------------------------------------------------------
  // After a denial
  // ---------------------------------------------------------------------

  /** A list whose first element expired holds fewer than it did. */
  lemma ExpiredHead(ts: seq<int>, start: int)
    requires ts != [] && ts[0] <= start
    ensures |Window(ts, start)| < |ts|
  {
    WindowShrinks(ts[1..], start);
  }

  /** A denying window is full and sorted, and is all that later windows can draw on. */
  lemma DenyingWindow(tr: Track, limit: int, windowMs: int, now: int)
    requires limit >= 1 && Inv(tr, limit, windowMs, now) && !Check(tr.stored, limit, windowMs, now).0.allowed
    ensures var valid := Window(tr.stored, now - windowMs);
            |valid| == limit && Nondecreasing(valid) && forall i :: 0 <= i < |valid| ==> valid[i] > now - windowMs
  {
    if tr.log != [] { WindowSorted(tr.log, tr.log[|tr.log| - 1] - windowMs); }
    WindowSorted(tr.stored, now - windowMs);
    WindowShrinks(tr.stored, now - windowMs);
  }

  /** A full sorted window admits again exactly when its first entry expires. */
  lemma FullWindowReopens(valid: seq<int>, limit: int, start: int)
    requires limit >= 1 && |valid| == limit && Nondecreasing(valid)
    ensures |Window(valid, start)| < limit <==> valid[0] <= start
    ensures valid[0] > start ==> Window(valid, start) == valid
  {
    if valid[0] > start {
      WindowKeepsAll(valid, start);
    } else {
      ExpiredHead(valid, start);
    }
  }

  /** With nothing admitted since, a denied client is denied before `resetAt` and admitted from it on. */
  lemma DeniedUntilReset(tr: Track, limit: int, windowMs: int, now: int, later: int)
    requires limit >= 1 && Inv(tr, limit, windowMs, now) && now <= later
    requires !Check(tr.stored, limit, windowMs, now).0.allowed
    ensures Check(tr.stored, limit, windowMs, now).0.resetAt.Some?
    ensures var resetAt := Check(tr.stored, limit, windowMs, now).0.resetAt.value;
            && Check(tr.stored, limit, windowMs, later).0.allowed == (later >= resetAt)
            && (later < resetAt ==> Check(tr.stored, limit, windowMs, later).0.resetAt == Some(resetAt))
  {
    DenyingWindow(tr, limit, windowMs, now);
    WindowTwice(tr.stored, now - windowMs, later - windowMs);
    FullWindowReopens(Window(tr.stored, now - windowMs), limit, later - windowMs);
  }

  /** A whole series of requests before `resetAt` is denied and leaves no trace; one at or after it gets in. */
  lemma {:induction false} SeriesUntilReset(tr: Track, limit: int, windowMs: int, now: int, series: seq<int>, last: int)
    requires limit >= 1 && windowMs >= 1 && Inv(tr, limit, windowMs, now)
    requires !Check(tr.stored, limit, windowMs, now).0.allowed
    requires forall i :: 0 <= i < |series| ==>
      now <= series[i] < Check(tr.stored, limit, windowMs, now).0.resetAt.value
    requires Check(tr.stored, limit, windowMs, now).0.resetAt.value <= last
    ensures RunFrom(tr, limit, windowMs, series) == tr
    ensures Check(RunFrom(tr, limit, windowMs, series).stored, limit, windowMs, last).0.allowed
    decreases |series|
  {
    var reset := Check(tr.stored, limit, windowMs, now).0.resetAt.value;
    ResetIsLater(tr, limit, windowMs, now);
    DeniedUntilReset(tr, limit, windowMs, now, last);
    if series != [] {
      var n := |series| - 1;
      SeriesUntilReset(tr, limit, windowMs, now, series[..n], last);
      DeniedUntilReset(tr, limit, windowMs, now, series[n]);
    }
  }

  lemma ResetIsLater(tr: Track, limit: int, windowMs: int, now: int)
    requires limit >= 1 && Inv(tr, limit, windowMs, now) && !Check(tr.stored, limit, windowMs, now).0.allowed
    ensures now < Check(tr.stored, limit, windowMs, now).0.resetAt.value
  {
    DenyingWindow(tr, limit, windowMs, now);
  }

  /**
   Waiting `retryAfter` seconds reaches `resetAt` with less than a second to
   spare; a denial names the two times unless its window is empty.
   */
  lemma RetryAfterReachesReset(stored: seq<int>, limit: int, windowMs: int, now: int)
    requires !Check(stored, limit, windowMs, now).0.allowed
    ensures var d := Check(stored, limit, windowMs, now).0;
            && (d.retryAfter.Some? <==> d.resetAt.Some?)
            && (d.resetAt.Some? <==> Window(stored, now - windowMs) != [])
            && (limit >= 1 ==> d.resetAt.Some?)
            && (d.resetAt.Some? ==> 0 <= now + 1000 * d.retryAfter.value - d.resetAt.value < 1000)
  {
  }

  /** The window holds what is later than its start. */
  lemma {:induction false} WindowIff(ts: seq<int>, start: int, t: int)
    ensures t in Window(ts, start) <==> t in ts && t > start
    ensures multiset(Window(ts, start))[t] == if t > start then multiset(ts)[t] else 0
  {
    if ts != [] {
      WindowIff(ts[1..], start, t);
      assert ts == [ts[0]] + ts[1..];
    }
  }

  /**
   What a decision says: the limit; on admission the end of a window that starts
   now, on denial nothing remaining and the end of the window's first entry.
   */
  lemma DecisionSays(stored: seq<int>, limit: int, windowMs: int, now: int)
    ensures var (d, kept) := Check(stored, limit, windowMs, now);
            && d.limit == limit
            && (d.allowed ==> d.resetAt == Some(now + windowMs) && d.retryAfter == None
                              && kept == Window(stored, now - windowMs) + [now])
            && (!d.allowed ==> d.remaining == 0 && kept == stored)
            && (!d.allowed && Window(stored, now - windowMs) != [] ==>
                  d.resetAt == Some(Window(stored, now - windowMs)[0] + windowMs))
  {
  }

  // ---------------------------------------------------------------------
  // The limiter as it runs
  // ---------------------------------------------------------------------

  type Windows = map<string, seq<int>>

  function StoredFor(ws: Windows, key: string): seq<int> {
    if key in ws then ws[key] else []
  }

  /** What one call does to the map: the list is stored back on admission only. */
  function Limited(ws: Windows, key: string, limit: int, windowMs: int, now: int): (Decision, Windows)
  {
    var r := Check(StoredFor(ws, key), limit, windowMs, now);
    (r.0, if r.0.allowed then ws[key := r.1] else ws)
  }

  class Limiter {
    var windows: Windows

    constructor ()
      ensures windows == map[]
    {
      windows := map[];
    }

    method SlidingWindowRateLimit(key: string, limit: int, windowMs: int, now: int) returns (d: Decision)
      modifies this
      ensures (d, windows) == Limited(old(windows), key, limit, windowMs, now)
    {
      var windowStart := now - windowMs;
      var timestamps := StoredFor(windows, key);
      var valid: seq<int> := [];
      for i := 0 to |timestamps|
        invariant valid == Window(timestamps[..i], windowStart) && windows == old(windows)
      {
        WindowAppend(timestamps[..i], timestamps[i], windowStart);
        assert timestamps[..i + 1] == timestamps[..i] + [timestamps[i]];
        if timestamps[i] > windowStart { valid := valid + [timestamps[i]]; }
      }
      assert timestamps[..|timestamps|] == timestamps;
      assert valid == Window(timestamps, windowStart);
      if |valid| >= limit {
        return Denial(valid, limit, windowMs, now);
      }
      valid := valid + [now];
      windows := windows[key := valid];
      return Decision(true, limit, limit - |valid|, Some(now + windowMs), None);
    }

    method ResetSlidingWindows()
      modifies this
      ensures windows == map[]
    {
      windows := map[];
    }
  }
}
