/**
 The degradation matrix from the caller's side: how many failed probes stop which
 operations, how many good ones bring them back, and what each answer says, with
 the dependencies, operations and numbers by name.
 */
module DegradationCases {
  import opened Wrappers
  import opened Fallback
  import opened Breaker
  import opened Degradation

  /** Failed probes in a row that make a dependency unavailable. */
  const FAILURES: map<string, nat> :=
    map["stellar" := 4, "mongodb" := 4, "pinata" := 6, "email" := 4, "webhooks" := 6]

  /** Good probes in a row that make it healthy again. */
  const SUCCESSES: map<string, nat> :=
    map["stellar" := 2, "mongodb" := 1, "pinata" := 2, "email" := 1, "webhooks" := 1]

  /** The operations that must not run while their dependency is unavailable. */
  const CRITICAL: set<(string, string)> :=
    {("stellar", "purchase"), ("stellar", "payout"), ("stellar", "refund"),
     ("mongodb", "write_intent"), ("mongodb", "write_purchase"), ("mongodb", "settle_refund"),
     ("pinata", "upload_material")}

  lemma ThresholdsByName(name: string)
    requires name in FAILURES
    ensures Known(name) && name in SUCCESSES && Sensible(ThresholdsOf(name))
    ensures 2 * ThresholdsOf(name).failure == FAILURES[name] && ThresholdsOf(name).recovery == SUCCESSES[name]
  {
  }

  lemma CriticalByName(name: string, op: string)
    ensures Critical(name, op) <==> (name, op) in CRITICAL
  {
  }

  lemma KnownByName(name: string)
    ensures Known(name) <==> name in FAILURES
  {
  }

  // ---------------------------------------------------------------------
  // Probes and operations
  // ---------------------------------------------------------------------

  /** The last `n` checks of the dependency had a probe that failed. */
  predicate LastFailed<T>(run: seq<Step<T>>, name: string, n: nat) {
    var rs := ReadingsOf(run, name);
    n <= |rs| && forall i :: |rs| - n <= i < |rs| ==> ProbeFails(rs[i].probe)
  }

  predicate LastSucceeded<T>(run: seq<Step<T>>, name: string, n: nat) {
    var rs := ReadingsOf(run, name);
    n <= |rs| && forall i :: |rs| - n <= i < |rs| ==> ProbeSucceeds(rs[i].probe)
  }

  /** After that many failed probes in a row no handler of a critical operation runs, and the answer is `ok: false`. */
  lemma FailedProbesStopOperations<T>(at: int, run: seq<Step<T>>, name: string, op: string, handler: HandlerResult<T>)
    requires (name, op) in CRITICAL && name in FAILURES && LastFailed(run, name, FAILURES[name])
    ensures !Answered(AnswerAfter(at, run, name, op, handler)) && !HandlerRan(AnswerAfter(at, run, name, op, handler))
  {
    ThresholdsByName(name);
    CriticalByName(name, op);
    FailingProbesBringDown(ThresholdsOf(name), at, ReadingsOf(run, name), FAILURES[name]);
    CriticalOperationsStop(at, run, name, op, handler);
  }

  /** After enough good ones every handler runs, and its value is the answer, not marked degraded. */
  lemma GoodProbesRestoreOperations<T>(at: int, run: seq<Step<T>>, name: string, op: string, v: T)
    requires name in SUCCESSES && LastSucceeded(run, name, SUCCESSES[name])
    ensures AnswerAfter(at, run, name, op, Value(v)) == Handled(v, false, RetryWithBackoff)
  {
    ThresholdsByName(name);
    MonitorsAreIndependent(at, run, name);
    SucceedingProbesRestore(ThresholdsOf(name), at, ReadingsOf(run, name), SUCCESSES[name]);
  }

  lemma {:induction false} ShortRunsAreNotDown(th: Thresholds, os: seq<bool>)
    requires Sensible(th) && |os| < 2 * th.failure
    ensures StateOf(th, os) != Down
    ensures |os| < th.failure ==> StateOf(th, os) == Healthy
    decreases |os|
  {
    if os != [] {
      var b := os[|os| - 1];
      var n := Trailing(os, b);
      assert n >= 1;
      ShortRunsAreNotDown(th, os[..|os| - n]);
    }
  }

  /** Fewer checks than that leave every dependency available, and fewer than half of them healthy. */
  lemma FewerFailuresDoNotStop<T>(at: int, run: seq<Step<T>>, name: string, op: string, handler: HandlerResult<T>)
    requires name in FAILURES && |ReadingsOf(run, name)| < FAILURES[name]
    ensures Answered(AnswerAfter(at, run, name, op, handler))
    ensures 2 * |ReadingsOf(run, name)| < FAILURES[name] ==> HandlerRan(AnswerAfter(at, run, name, op, handler))
  {
    ThresholdsByName(name);
    StateIsClosedForm(at, run, name);
    ShortRunsAreNotDown(ThresholdsOf(name), OutcomesOf(at, run, name));
    GateIff(name, op, After(at, run)[name].service.state, handler);
  }

  /** Where two are needed, one good probe after a failed one changes nothing. */
  lemma OneGoodProbeIsNotEnough(name: string, m: Monitor, bad: Reading, good: Reading)
    requires name in {"stellar", "pinata"} && ProbeFails(bad.probe) && ProbeSucceeds(good.probe)
    ensures var after := Check(ThresholdsOf(name), m, bad.probe, bad.at);
            Check(ThresholdsOf(name), after, good.probe, good.at).service == after.service
  {
  }

  // ---------------------------------------------------------------------
  // What is done with an operation
  // ---------------------------------------------------------------------

  /** Queued while the dependency is degraded. */
  const QUEUED: set<(string, string)> :=
    {("stellar", "payout"), ("stellar", "refund"), ("pinata", "upload_material"), ("webhooks", "dispatch"),
     ("email", "send_receipt"), ("email", "send_notification")}

  /** Run in reduced form while it is degraded, and while it is unavailable. */
  const REDUCED: set<(string, string)> :=
    {("mongodb", "read_catalog"), ("pinata", "download_content"), ("pinata", "preview")}

  /** Run as usual while it is degraded. */
  const USUAL: set<(string, string)> :=
    {("stellar", "purchase"), ("stellar", "balance_read"), ("mongodb", "write_purchase"), ("mongodb", "write_intent")}

  lemma ActionByName(name: string, op: string)
    requires name in FAILURES
    ensures PolicyFor(name, op, Healthy) == Some(Policy(Allow, 200, RetryWithBackoff, 0))
    ensures PolicyFor(name, op, Degraded).Some? && PolicyFor(name, op, Down).Some?
    ensures PolicyFor(name, op, Degraded).value.action ==
            if (name, op) in QUEUED then Queue
            else if (name, op) in USUAL || (name, op) in CRITICAL then Allow else Degrade
    ensures PolicyFor(name, op, Down).value.action ==
            if (name, op) in CRITICAL then Block
            else if (name, op) in REDUCED || (name, op) == ("stellar", "balance_read") then Degrade else Queue
  {
  }

  /** 503 for what is blocked, 202 for what is queued except by email, 200 otherwise. */
  lemma StatusByName(name: string, op: string, state: State)
    requires name in FAILURES
    ensures PolicyFor(name, op, state).Some?
    ensures var p := PolicyFor(name, op, state).value;
            p.httpStatus == match p.action
                            case Block => 503
                            case Queue =>
                              if name == "email" && op in {"send_receipt", "send_notification"} then 200 else 202
                            case _ => 200
  {
  }

  /** Seconds to wait, by operation: while degraded, while unavailable. */
  const DELAYS: map<(string, string), (int, int)> := map[
    ("mongodb", "write_intent") := (3, 20), ("mongodb", "write_purchase") := (5, 15),
    ("mongodb", "read_catalog") := (30, 60),
    ("stellar", "purchase") := (5, 30), ("stellar", "balance_read") := (15, 60),
    ("stellar", "refund") := (60, 60), ("stellar", "payout") := (60, 120),
    ("pinata", "download_content") := (10, 30), ("pinata", "preview") := (15, 45),
    ("pinata", "upload_material") := (30, 60),
    ("email", "send_receipt") := (30, 120), ("email", "send_notification") := (60, 180),
    ("webhooks", "dispatch") := (30, 300)]

  lemma DelayByName(name: string, op: string)
    requires name in FAILURES
    ensures PolicyFor(name, op, Degraded).Some? && PolicyFor(name, op, Down).Some?
    ensures PolicyFor(name, op, Degraded).value.retryAfterSeconds ==
            if (name, op) in DELAYS then DELAYS[(name, op)].0 else 10
    ensures PolicyFor(name, op, Down).value.retryAfterSeconds ==
            if (name, op) in DELAYS then DELAYS[(name, op)].1 else 30
    ensures PolicyFor(name, op, Degraded).value.retryAfterSeconds <= PolicyFor(name, op, Down).value.retryAfterSeconds
  {
  }

  /** What the client is told to do: wait for what is queued, drop the button for what is blocked. */
  lemma AdviceByName(name: string, op: string, state: State)
    requires name in FAILURES
    ensures PolicyFor(name, op, state).Some?
    ensures var p := PolicyFor(name, op, state).value;
            p.clientAction == match p.action
                              case Block => DisableButton
                              case Queue => AwaitAsyncCompletion
                              case Allow =>
                                if (name, op, state) == ("stellar", "balance_read", Degraded) then UseCachedContent
                                else RetryWithBackoff
                              case Degrade =>
                                if (name, op) == ("pinata", "download_content") then FallbackReplica
                                else if (name, op, state) == ("pinata", "preview", Down) then ShowDegradationBanner
                                else if (name, op) in REDUCED || (name, op) == ("stellar", "balance_read") then
                                  UseCachedContent
                                else RetryWithBackoff
  {
  }

  /** What a blocked call is told. */
  lemma BlockedAnswer<T>(name: string, op: string, handler: HandlerResult<T>)
    requires (name, op) in CRITICAL
    ensures Execute(name, op, Down, handler) ==
            Refused(Body(false, ServiceUnavailable, DisableButton,
                         if (name, op) in DELAYS then DELAYS[(name, op)].1 else 30, true, false))
  {
    CriticalByName(name, op);
    DelayByName(name, op);
    AdviceByName(name, op, Down);
    BlockedIff(name, op, Down);
  }

  /** The body built for a degraded dependency, whatever state led to it. */
  function DegradedBody(name: string, op: string): Body {
    Body(true,
         if (name, op) in QUEUED then RequestQueued else ServiceDegraded,
         if (name, op) in QUEUED then AwaitAsyncCompletion
         else if (name, op) == ("pinata", "download_content") then FallbackReplica
         else if (name, op) in REDUCED || (name, op) == ("stellar", "balance_read") then UseCachedContent
         else RetryWithBackoff,
         if (name, op) in DELAYS then DELAYS[(name, op)].0 else 10,
         true, (name, op) in QUEUED)
  }

  lemma DegradedBodyByName(name: string, op: string)
    requires name in FAILURES
    ensures DegradedResponse(name, op, Degraded).0 == DegradedBody(name, op)
  {
    ActionByName(name, op);
    DelayByName(name, op);
    AdviceByName(name, op, Degraded);
  }

  /** What a queued call and a call whose handler throws are told: both the same, as if the dependency were degraded. */
  lemma QueuedAndFailedAnswers<T>(name: string, op: string, state: State, handler: HandlerResult<T>)
    requires name in FAILURES && PolicyFor(name, op, state).Some? && handler.Throws?
    ensures PolicyFor(name, op, state).value.action == Queue ==>
              Execute(name, op, state, handler) == Enqueued(DegradedBody(name, op))
    ensures PolicyFor(name, op, state).value.action in {Allow, Degrade} ==>
              Execute(name, op, state, handler) == HandlerFailed(DegradedBody(name, op))
  {
    DegradedBodyByName(name, op);
  }

  /** A degraded response has the status of its policy and is marked degraded unless the dependency is healthy. */
  lemma ResponseStatus(name: string, op: string, state: State)
    requires name in FAILURES && PolicyFor(name, op, state).Some?
    ensures DegradedResponse(name, op, state).1 == PolicyFor(name, op, state).value.httpStatus
    ensures DegradedResponse(name, op, state).0.degraded <==> state != Healthy
  {
  }

  /** A handler that runs and returns gives its value, marked degraded exactly when run in reduced form. */
  lemma HandledAnswer<T>(name: string, op: string, state: State, v: T)
    requires name in FAILURES && PolicyFor(name, op, state).Some?
    requires PolicyFor(name, op, state).value.action in {Allow, Degrade}
    ensures Execute(name, op, state, Value(v)) ==
            Handled(v, PolicyFor(name, op, state).value.action == Degrade, PolicyFor(name, op, state).value.clientAction)
  {
  }

  /** A dependency that is not in the matrix has no policy, and executing under it fails. */
  lemma UnknownHasNoPolicy<T>(name: string, op: string, state: State, handler: HandlerResult<T>)
    requires name !in FAILURES
    ensures PolicyFor(name, op, state) == None && Execute(name, op, state, handler) == NoPolicy
  {
    KnownByName(name);
  }

  /** At most 100 transitions and 1000 events are kept, the latest ones. */
  lemma BuffersAreBounded<T>(log: seq<T>, x: T)
    ensures |Push(Last(log, MAX_HISTORY), x, MAX_HISTORY)| == (if |log| < 100 then |log| + 1 else 100)
    ensures |Push(Last(log, MAX_EVENTS), x, MAX_EVENTS)| == (if |log| < 1000 then |log| + 1 else 1000)
  {
  }
}
