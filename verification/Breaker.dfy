/**
 Health probing of one dependency (`runDependencyCheck` in
 src/lib/degradationMatrix.js): consecutive counters, thresholds with
 hysteresis, and the state after any sequence of probes in closed form.
 */
module Breaker {
  import opened Wrappers
  import opened Fallback

  datatype Thresholds = Thresholds(failure: nat, recovery: nat)

  datatype Circuit = Circuit(failures: nat, successes: nat, probes: nat, lastFailureMode: Option<string>)

  /** How a check goes: no probe given, the probe's verdict, or an exception in it. */
  datatype Probe = NoProbe | Returned(healthy: bool, failureMode: string) | Threw

  datatype Monitor = Monitor(service: Service, circuit: Circuit)

  const FRESH := Circuit(0, 0, 0, None)

  /** Without a probe the check repeats the current state. */
  predicate Outcome(m: Monitor, probe: Probe) {
    match probe
    case NoProbe => m.service.state.Healthy?
    case Returned(healthy, _) => healthy
    case Threw => false
  }

  function FailureMode(probe: Probe): string {
    match probe
    case NoProbe => ""
    case Returned(_, mode) => if mode != "" then mode else "CHECK_RETURNED_UNHEALTHY"
    case Threw => "EXCEPTION_DURING_PROBE"
  }

  function ReasonOr(mode: string, otherwise: string): string {
    if mode != "" then mode else otherwise
  }

  function Check(th: Thresholds, m: Monitor, probe: Probe, at: int): Monitor {
    var c := m.circuit;
    if Outcome(m, probe) then
      var c' := Circuit(0, c.successes + 1, c.probes + 1, None);
      Monitor(if c'.successes >= th.recovery then Report(m.service, Healthy, at, "automated_check_recovered")
              else m.service, c')
    else
      var mode := FailureMode(probe);
      var c' := Circuit(c.failures + 1, 0, c.probes + 1, if mode != "" then Some(mode) else None);
      Monitor(
        if c'.failures >= 2 * th.failure then
          Report(m.service, Down, at, ReasonOr(mode, "probe_threshold_exceeded"))
        else if c'.failures >= th.failure then
          Report(m.service, Degraded, at, ReasonOr(mode, "probe_threshold_degraded"))
        else m.service, c')
  }

  // ---------------------------------------------------------------------
  // Probe-only runs
  // ---------------------------------------------------------------------

  datatype Reading = Reading(probe: Probe, at: int)

  function Start(at: int): Monitor {
    Monitor(Registered(at), FRESH)
  }

  function Run(th: Thresholds, at: int, rs: seq<Reading>): Monitor {
    if rs == [] then Start(at)
    else Check(th, Run(th, at, rs[..|rs| - 1]), rs[|rs| - 1].probe, rs[|rs| - 1].at)
  }

  /** What each check of the run found. */
  function Outcomes(th: Thresholds, at: int, rs: seq<Reading>): (os: seq<bool>)
    ensures |os| == |rs|
  {
    if rs == [] then []
    else
      var front := rs[..|rs| - 1];
      Outcomes(th, at, front) + [Outcome(Run(th, at, front), rs[|rs| - 1].probe)]
  }

  /** Length of the trailing run of `b`. */
  function Trailing(os: seq<bool>, b: bool): (n: nat)
    ensures n <= |os|
  {
    if os != [] && os[|os| - 1] == b then 1 + Trailing(os[..|os| - 1], b) else 0
  }

  /**
   The state told by the outcomes alone: the trailing run decides if it is long
   enough, otherwise the state before that run stands.
   */
  function StateOf(th: Thresholds, os: seq<bool>): State
    decreases |os|
  {
    if os == [] then Healthy
    else if os[|os| - 1] then
      var n := Trailing(os, true);
      if n >= th.recovery then Healthy else StateOf(th, os[..|os| - n])
    else
      var n := Trailing(os, false);
      if n >= 2 * th.failure then Down
      else if n >= th.failure then Degraded
      else StateOf(th, os[..|os| - n])
  }

  predicate Sensible(th: Thresholds) {
    th.failure >= 1 && th.recovery >= 1
  }

  /** Below its threshold, the last outcome changes nothing. */
  lemma ShortRunStands(th: Thresholds, os: seq<bool>)
    requires Sensible(th) && os != []
    requires if os[|os| - 1] then Trailing(os, true) < th.recovery else Trailing(os, false) < th.failure
    ensures StateOf(th, os) == StateOf(th, os[..|os| - 1])
  {
    var b := os[|os| - 1];
    var front := os[..|os| - 1];
    var n := Trailing(os, b);
    if n > 1 {
      assert front[|front| - 1] == b;
      assert front[..|front| - (n - 1)] == os[..|os| - n];
    }
  }

  /** Counters and state are those the outcomes tell. */
  predicate Matches(th: Thresholds, m: Monitor, os: seq<bool>) {
    && m.service.state == StateOf(th, os)
    && m.circuit.failures == Trailing(os, false)
    && m.circuit.successes == Trailing(os, true)
    && m.circuit.probes == |os|
  }

  lemma TrailingAppend(os: seq<bool>, b: bool)
    ensures Trailing(os + [b], b) == Trailing(os, b) + 1 && Trailing(os + [b], !b) == 0
  {
    assert (os + [b])[..|os|] == os;
  }

  lemma CheckMatches(th: Thresholds, m: Monitor, os: seq<bool>, probe: Probe, at: int)
    requires Sensible(th) && Matches(th, m, os)
    ensures Matches(th, Check(th, m, probe, at), os + [Outcome(m, probe)])
  {
    var b := Outcome(m, probe);
    var all := os + [b];
    TrailingAppend(os, b);
    assert all[|all| - 1] == b && all[..|all| - 1] == os;
    if if b then Trailing(all, true) < th.recovery else Trailing(all, false) < th.failure {
      ShortRunStands(th, all);
    }
  }

  lemma RunAppend(th: Thresholds, at: int, rs: seq<Reading>, r: Reading)
    ensures var m := Run(th, at, rs);
            && Run(th, at, rs + [r]) == Check(th, m, r.probe, r.at)
            && Outcomes(th, at, rs + [r]) == Outcomes(th, at, rs) + [Outcome(m, r.probe)]
  {
    assert (rs + [r])[..|rs|] == rs;
  }

  /** Counters and state after a probe-only run, in closed form. */
  lemma {:induction false} RunClosedForm(th: Thresholds, at: int, rs: seq<Reading>)
    requires Sensible(th)
    ensures Matches(th, Run(th, at, rs), Outcomes(th, at, rs))
    decreases |rs|
  {
    if rs != [] {
      var front, r := rs[..|rs| - 1], rs[|rs| - 1];
      assert rs == front + [r];
      RunClosedForm(th, at, front);
      RunAppend(th, at, front, r);
      CheckMatches(th, Run(th, at, front), Outcomes(th, at, front), r.probe, r.at);
    }
  }

  // ---------------------------------------------------------------------
  // Outcomes read off the readings
  // ---------------------------------------------------------------------

  predicate ProbeSucceeds(probe: Probe) {
    probe.Returned? && probe.healthy
  }

  predicate ProbeFails(probe: Probe) {
    probe.Threw? || (probe.Returned? && !probe.healthy)
  }

  /** A check with a probe finds what the probe says; one without repeats whether the service was healthy. */
  lemma {:induction false} OutcomeAt(th: Thresholds, at: int, rs: seq<Reading>, i: nat)
    requires i < |rs|
    ensures Outcomes(th, at, rs)[i] ==
            if rs[i].probe.NoProbe? then Run(th, at, rs[..i]).service.state.Healthy? else ProbeSucceeds(rs[i].probe)
    decreases |rs|
  {
    var front := rs[..|rs| - 1];
    if i < |front| {
      OutcomeAt(th, at, front, i);
      assert front[..i] == rs[..i];
    }
  }

  /** When every check has a probe, the outcomes are the probes' verdicts, and they decide state and counters. */
  lemma ProbedRunClosedForm(th: Thresholds, at: int, rs: seq<Reading>, os: seq<bool>)
    requires Sensible(th) && |os| == |rs|
    requires forall i :: 0 <= i < |rs| ==> if os[i] then ProbeSucceeds(rs[i].probe) else ProbeFails(rs[i].probe)
    ensures Outcomes(th, at, rs) == os && Matches(th, Run(th, at, rs), os)
  {
    forall i | 0 <= i < |rs| ensures Outcomes(th, at, rs)[i] == os[i] { OutcomeAt(th, at, rs, i); }
    RunClosedForm(th, at, rs);
  }

  lemma {:induction false} TrailingAtLeast(os: seq<bool>, b: bool, n: nat)
    requires n <= |os| && forall i :: |os| - n <= i < |os| ==> os[i] == b
    ensures Trailing(os, b) >= n
  {
    if n > 0 { TrailingAtLeast(os[..|os| - 1], b, n - 1); }
  }

  /** 2F failing probes in a row make a service unavailable and F take it from healthy, whatever came before. */
  lemma FailingProbesBringDown(th: Thresholds, at: int, rs: seq<Reading>, n: nat)
    requires Sensible(th) && n <= |rs| && forall i :: |rs| - n <= i < |rs| ==> ProbeFails(rs[i].probe)
    ensures Trailing(Outcomes(th, at, rs), false) >= n
    ensures n >= 2 * th.failure ==> Run(th, at, rs).service.state == Down
    ensures n >= th.failure ==> Run(th, at, rs).service.state != Healthy
  {
    var os := Outcomes(th, at, rs);
    forall i | |os| - n <= i < |os| ensures os[i] == false { OutcomeAt(th, at, rs, i); }
    TrailingAtLeast(os, false, n);
    RunClosedForm(th, at, rs);
  }

  /** R succeeding probes in a row make it healthy, whatever came before. */
  lemma SucceedingProbesRestore(th: Thresholds, at: int, rs: seq<Reading>, n: nat)
    requires Sensible(th) && th.recovery <= n <= |rs|
    requires forall i :: |rs| - n <= i < |rs| ==> ProbeSucceeds(rs[i].probe)
    ensures Run(th, at, rs).service.state == Healthy
  {
    var os := Outcomes(th, at, rs);
    forall i | |os| - n <= i < |os| ensures os[i] == true { OutcomeAt(th, at, rs, i); }
    TrailingAtLeast(os, true, n);
    RunClosedForm(th, at, rs);
  }

  /** The reason recorded with a transition, and the failure mode the circuit keeps. */
  lemma ReasonsRecorded(th: Thresholds, m: Monitor, probe: Probe, at: int)
    ensures var r := Check(th, m, probe, at);
            var mode := if probe.Threw? then "EXCEPTION_DURING_PROBE"
                        else if probe.Returned? && !probe.healthy then
                          (if probe.failureMode != "" then probe.failureMode else "CHECK_RETURNED_UNHEALTHY")
                        else "";
            && (r.circuit.lastFailureMode == if mode != "" then Some(mode) else None)
            && (r.service.state != m.service.state ==>
                  && r.service.history != []
                  && r.service.history[|r.service.history| - 1] ==
                     Transition(r.service.state, at,
                                if r.service.state == Healthy then "automated_check_recovered"
                                else if mode != "" then mode
                                else if r.service.state == Down then "probe_threshold_exceeded"
                                else "probe_threshold_degraded"))
  {
  }

  // ---------------------------------------------------------------------
  // The recorded history
  // ---------------------------------------------------------------------

  /** No recorded step goes from healthy straight to unavailable. */
  predicate Gradual(h: seq<Transition>) {
    forall i :: 0 <= i < |h| - 1 ==> !(h[i].state.Healthy? && h[i + 1].state.Down?)
  }

  ghost predicate HistoryOk(m: Monitor) {
    && 1 <= |m.service.history| <= MAX_HISTORY
    && m.service.history[|m.service.history| - 1].state == m.service.state
    && Gradual(m.service.history)
  }

  lemma PushGradual(h: seq<Transition>, t: Transition)
    requires 1 <= |h| <= MAX_HISTORY && Gradual(h)
    requires !(h[|h| - 1].state.Healthy? && t.state.Down?)
    ensures Gradual(Push(h, t, MAX_HISTORY)) && 1 <= |Push(h, t, MAX_HISTORY)| <= MAX_HISTORY
    ensures Push(h, t, MAX_HISTORY)[|Push(h, t, MAX_HISTORY)| - 1] == t
  {
    var all := h + [t];
    assert Gradual(all);
    var r := Push(h, t, MAX_HISTORY);
    assert r == all || (r == all[1..] && forall i :: 0 <= i < |r| ==> r[i] == all[i + 1]);
  }

  lemma ReportOk(m: Monitor, to: State, at: int, reason: string)
    requires HistoryOk(m) && !(m.service.state.Healthy? && to.Down?)
    ensures HistoryOk(m.(service := Report(m.service, to, at, reason)))
  {
    if m.service.state != to {
      PushGradual(m.service.history, Transition(to, at, Reason(reason)));
    }
  }

  /** With enough consecutive failures the service is no longer healthy. */
  ghost predicate FailuresShow(th: Thresholds, m: Monitor) {
    m.circuit.failures >= th.failure ==> !m.service.state.Healthy?
  }

  lemma CheckKeepsHistory(th: Thresholds, m: Monitor, probe: Probe, at: int)
    requires Sensible(th) && HistoryOk(m) && FailuresShow(th, m)
    ensures HistoryOk(Check(th, m, probe, at)) && FailuresShow(th, Check(th, m, probe, at))
  {
    var c, mode := m.circuit, FailureMode(probe);
    if Outcome(m, probe) {
      ReportOk(m, Healthy, at, "automated_check_recovered");
    } else if c.failures + 1 >= 2 * th.failure {
      ReportOk(m, Down, at, ReasonOr(mode, "probe_threshold_exceeded"));
    } else {
      ReportOk(m, Degraded, at, ReasonOr(mode, "probe_threshold_degraded"));
    }
  }

  /** A probe-only run is always recorded as healthy, degraded, unavailable; never with the middle left out. */
  lemma {:induction false} HistoryIsGradual(th: Thresholds, at: int, rs: seq<Reading>)
    requires Sensible(th)
    ensures HistoryOk(Run(th, at, rs)) && FailuresShow(th, Run(th, at, rs))
    decreases |rs|
  {
    if rs != [] {
      HistoryIsGradual(th, at, rs[..|rs| - 1]);
      CheckKeepsHistory(th, Run(th, at, rs[..|rs| - 1]), rs[|rs| - 1].probe, rs[|rs| - 1].at);
    }
  }

  /** Every transition of a run, without the bound. */
  function FullHistory(th: Thresholds, at: int, rs: seq<Reading>): seq<Transition> {
    if rs == [] then Registered(at).history
    else
      var front := rs[..|rs| - 1];
      var now, then_ := Run(th, at, front).service, Run(th, at, rs).service;
      FullHistory(th, at, front)
      + if now.state == then_.state then [] else [then_.history[|then_.history| - 1]]
  }

  /** A check records its transition, if it makes one, and nothing else. */
  lemma CheckRecords(th: Thresholds, m: Monitor, probe: Probe, at: int)
    ensures var a, b := m.service, Check(th, m, probe, at).service;
            if a.state == b.state then b == a
            else b.history != [] && b.history == Push(a.history, b.history[|b.history| - 1], MAX_HISTORY)
  {
  }

  /** The bounded history is the end of the full one. */
  lemma {:induction false} HistoryIsLast(th: Thresholds, at: int, rs: seq<Reading>)
    requires Sensible(th)
    ensures Run(th, at, rs).service.history == Last(FullHistory(th, at, rs), MAX_HISTORY)
    decreases |rs|
  {
    if rs != [] {
      var front := rs[..|rs| - 1];
      HistoryIsLast(th, at, front);
      CheckRecords(th, Run(th, at, front), rs[|rs| - 1].probe, rs[|rs| - 1].at);
      RecordedStep(th, at, rs);
    }
  }

  lemma RecordedStep(th: Thresholds, at: int, rs: seq<Reading>)
    requires rs != []
    requires var a, b := Run(th, at, rs[..|rs| - 1]).service, Run(th, at, rs).service;
             && a.history == Last(FullHistory(th, at, rs[..|rs| - 1]), MAX_HISTORY)
             && (if a.state == b.state then b == a
                 else b.history != [] && b.history == Push(a.history, b.history[|b.history| - 1], MAX_HISTORY))
    ensures Run(th, at, rs).service.history == Last(FullHistory(th, at, rs), MAX_HISTORY)
  {
    var b := Run(th, at, rs).service;
    var full := FullHistory(th, at, rs[..|rs| - 1]);
    if Run(th, at, rs[..|rs| - 1]).service.state == b.state {
      assert full + [] == full;
    } else {
      PushIsLast(full, b.history[|b.history| - 1], MAX_HISTORY);
    }
  }

  lemma FailingCheckStaysUnhealthy(th: Thresholds, m: Monitor, at: int)
    requires !m.service.state.Healthy?
    ensures !Outcome(m, NoProbe) && !Check(th, m, NoProbe, at).service.state.Healthy?
  {
  }

  lemma LongFailureIsDown(th: Thresholds, os: seq<bool>)
    requires Sensible(th) && Trailing(os, false) >= 2 * th.failure
    ensures StateOf(th, os) == Down
  {
  }

  lemma UnprobedStep(th: Thresholds, at: int, all: seq<Reading>)
    requires all != [] && all[|all| - 1].probe.NoProbe?
    requires !Run(th, at, all[..|all| - 1]).service.state.Healthy?
    ensures !Run(th, at, all).service.state.Healthy?
    ensures Trailing(Outcomes(th, at, all), false) == Trailing(Outcomes(th, at, all[..|all| - 1]), false) + 1
  {
    var front, r := all[..|all| - 1], all[|all| - 1];
    assert all == front + [r];
    RunAppend(th, at, front, r);
    FailingCheckStaysUnhealthy(th, Run(th, at, front), r.at);
    TrailingAppend(Outcomes(th, at, front), false);
  }

  lemma {:induction false} UnprobedFails(th: Thresholds, at: int, all: seq<Reading>, n: nat)
    requires n <= |all| && !Run(th, at, all[..n]).service.state.Healthy?
    requires forall i :: n <= i < |all| ==> all[i].probe.NoProbe?
    ensures !Run(th, at, all).service.state.Healthy?
    ensures Trailing(Outcomes(th, at, all), false) >= |all| - n
    decreases |all|
  {
    if n == |all| {
      assert all[..n] == all;
    } else {
      assert all[..|all| - 1][..n] == all[..n];
      UnprobedFails(th, at, all[..|all| - 1], n);
      UnprobedStep(th, at, all);
    }
  }

  /** Checks without a probe never bring a service back: once it is not healthy it only gets worse. */
  lemma UnprobedNeverRecovers(th: Thresholds, at: int, rs: seq<Reading>, more: seq<Reading>)
    requires Sensible(th) && !Run(th, at, rs).service.state.Healthy?
    requires forall i :: 0 <= i < |more| ==> more[i].probe.NoProbe?
    ensures !Run(th, at, rs + more).service.state.Healthy?
    ensures |more| >= 2 * th.failure ==> Run(th, at, rs + more).service.state.Down?
  {
    var all := rs + more;
    assert all[..|rs|] == rs;
    forall i | |rs| <= i < |all| ensures all[i].probe.NoProbe? {
      assert all[i] == more[i - |rs|];
    }
    UnprobedFails(th, at, all, |rs|);
    RunClosedForm(th, at, all);
    if |more| >= 2 * th.failure { LongFailureIsDown(th, Outcomes(th, at, all)); }
  }
}
