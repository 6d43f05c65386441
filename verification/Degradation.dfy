/**
 The degradation matrix of src/lib/degradationMatrix.js: policies per
 dependency, operation and state, the responses built from them, and the gate
 in front of operation handlers. User messages and text clean-up are not part
 of this model.
 */
module Degradation {
  import opened Wrappers
  import opened Fallback
  import opened Breaker

  datatype Action = Allow | Degrade | Block | Queue

  datatype ClientAction =
    | DisableButton | RetryWithBackoff | ShowDegradationBanner
    | UseCachedContent | AwaitAsyncCompletion | FallbackReplica

  datatype Policy = Policy(action: Action, httpStatus: int, clientAction: ClientAction, retryAfterSeconds: int)

  const SERVICES: seq<string> := ["stellar", "mongodb", "pinata", "email", "webhooks"]

  predicate Known(name: string) {
    name == "stellar" || name == "mongodb" || name == "pinata" || name == "email" || name == "webhooks"
  }

  function ThresholdsOf(name: string): Thresholds {
    match name
    case "stellar" => Thresholds(2, 2)
    case "mongodb" => Thresholds(2, 1)
    case "pinata" => Thresholds(3, 2)
    case "email" => Thresholds(2, 1)
    case _ => Thresholds(3, 1)
  }

  predicate Critical(name: string, op: string) {
    match name
    case "stellar" => op == "purchase" || op == "payout" || op == "refund"
    case "mongodb" => op == "write_intent" || op == "write_purchase" || op == "settle_refund"
    case "pinata" => op == "upload_material"
    case _ => false
  }

  /** The listed policies of an operation: when degraded, when unavailable. */
  function Listed(name: string, op: string): Option<(Policy, Policy)> {
    match name
    case "stellar" =>
      (match op
       case "purchase" =>
         Some((Policy(Allow, 200, RetryWithBackoff, 5), Policy(Block, 503, DisableButton, 30)))
       case "payout" =>
         Some((Policy(Queue, 202, AwaitAsyncCompletion, 60), Policy(Block, 503, DisableButton, 120)))
       case "refund" =>
         Some((Policy(Queue, 202, AwaitAsyncCompletion, 60), Policy(Block, 503, DisableButton, 60)))
       case "balance_read" =>
         Some((Policy(Allow, 200, UseCachedContent, 15), Policy(Degrade, 200, UseCachedContent, 60)))
       case _ => None)
    case "mongodb" =>
      (match op
       case "write_purchase" =>
         Some((Policy(Allow, 200, RetryWithBackoff, 5), Policy(Block, 503, DisableButton, 15)))
       case "write_intent" =>
         Some((Policy(Allow, 200, RetryWithBackoff, 3), Policy(Block, 503, DisableButton, 20)))
       case "read_catalog" =>
         Some((Policy(Degrade, 200, UseCachedContent, 30), Policy(Degrade, 200, UseCachedContent, 60)))
       case _ => None)
    case "pinata" =>
      (match op
       case "upload_material" =>
         Some((Policy(Queue, 202, AwaitAsyncCompletion, 30), Policy(Block, 503, DisableButton, 60)))
       case "download_content" =>
         Some((Policy(Degrade, 200, FallbackReplica, 10), Policy(Degrade, 200, FallbackReplica, 30)))
       case "preview" =>
         Some((Policy(Degrade, 200, UseCachedContent, 15), Policy(Degrade, 200, ShowDegradationBanner, 45)))
       case _ => None)
    case "email" =>
      (match op
       case "send_receipt" =>
         Some((Policy(Queue, 200, AwaitAsyncCompletion, 30), Policy(Queue, 200, AwaitAsyncCompletion, 120)))
       case "send_notification" =>
         Some((Policy(Queue, 200, AwaitAsyncCompletion, 60), Policy(Queue, 200, AwaitAsyncCompletion, 180)))
       case _ => None)
    case "webhooks" =>
      (match op
       case "dispatch" =>
         Some((Policy(Queue, 202, AwaitAsyncCompletion, 30), Policy(Queue, 202, AwaitAsyncCompletion, 300)))
       case _ => None)
    case _ => None
  }

  const NORMAL := Policy(Allow, 200, RetryWithBackoff, 0)

  /** `getDegradationPolicy` with the state resolved; None for an unknown dependency. */
  function PolicyFor(name: string, op: string, state: State): Option<Policy> {
    if !Known(name) then None
    else if state.Healthy? then Some(NORMAL)
    else
      match Listed(name, op)
      case Some((degraded, down)) => Some(if state.Degraded? then degraded else down)
      case None =>
        var critical := Critical(name, op);
        if state.Degraded? then Some(Policy(if critical then Allow else Degrade, 200, RetryWithBackoff, 10))
        else if critical then Some(Policy(Block, 503, DisableButton, 30))
        else Some(Policy(Queue, 202, AwaitAsyncCompletion, 30))
  }

  datatype Code = ServiceUnavailable | RequestQueued | ServiceDegraded

  datatype Body = Body(ok: bool, code: Code, clientAction: ClientAction, retryAfterSeconds: int,
                       degraded: bool, queued: bool)

  /** `createDegradedApiResponse` with the state given; its body and status. */
  function DegradedResponse(name: string, op: string, state: State): (Body, int) {
    var policy := PolicyFor(name, op, state);
    var blocked := policy.Some? && policy.value.action.Block?;
    var queued := policy.Some? && policy.value.action.Queue?;
    var body := Body(
      !blocked,
      if blocked then ServiceUnavailable else if queued then RequestQueued else ServiceDegraded,
      if policy.Some? then policy.value.clientAction else RetryWithBackoff,
      if policy.Some? && policy.value.retryAfterSeconds != 0 then policy.value.retryAfterSeconds else 30,
      !state.Healthy?,
      queued);
    (body, if policy.Some? then policy.value.httpStatus else if blocked then 503 else 200)
  }

  datatype HandlerResult<T> = Value(value: T) | Throws

  /** What the caller of `executeWithDegradation` gets. */
  datatype Response<T> =
    | Refused(body: Body)
    | Enqueued(body: Body)
    | Handled(value: T, degraded: bool, clientAction: ClientAction)
    | HandlerFailed(body: Body)
    | NoPolicy                       // the TypeError on an unknown dependency

  predicate Answered<T>(r: Response<T>) {
    match r
    case Handled(_, _, _) => true
    case NoPolicy => false
    case Refused(body) => body.ok
    case Enqueued(body) => body.ok
    case HandlerFailed(body) => body.ok
  }

  predicate HandlerRan<T>(r: Response<T>) {
    r.Handled? || r.HandlerFailed?
  }

  function Execute<T>(name: string, op: string, state: State, handler: HandlerResult<T>): Response<T> {
    match PolicyFor(name, op, state)
    case None => NoPolicy
    case Some(policy) =>
      if policy.action.Block? then Refused(DegradedResponse(name, op, Down).0)
      else if policy.action.Queue? then Enqueued(DegradedResponse(name, op, Degraded).0)
      else
        match handler
        case Value(v) => Handled(v, policy.action.Degrade?, policy.clientAction)
        case Throws => HandlerFailed(DegradedResponse(name, op, Degraded).0)
  }

  // ---------------------------------------------------------------------
  // What the matrix promises
  // ---------------------------------------------------------------------

  /** Only unavailability blocks, and it blocks exactly the critical operations. */
  lemma BlockedIff(name: string, op: string, state: State)
    requires Known(name)
    ensures PolicyFor(name, op, state).Some?
    ensures PolicyFor(name, op, state).value.action.Block? <==> state.Down? && Critical(name, op)
    ensures PolicyFor(name, op, state).value.action.Block? <==> PolicyFor(name, op, state).value.httpStatus == 503
  {
  }

  /** A call is answered `ok: false` exactly when it is blocked; then, and only then or when queued, no handler runs. */
  lemma GateIff<T>(name: string, op: string, state: State, handler: HandlerResult<T>)
    requires Known(name)
    ensures !Answered(Execute(name, op, state, handler)) <==> state.Down? && Critical(name, op)
    ensures !Answered(Execute(name, op, state, handler)) ==> !HandlerRan(Execute(name, op, state, handler))
    ensures HandlerRan(Execute(name, op, state, handler)) <==>
              !(state.Down? && Critical(name, op)) && !PolicyFor(name, op, state).value.action.Queue?
  {
    BlockedIff(name, op, state);
    BlockedIff(name, op, Degraded);
    BlockedIff(name, op, Down);
  }

  // ---------------------------------------------------------------------
  // What the answers do not say
  // ---------------------------------------------------------------------

  /** The answer carries the retry delay and the advice of the policy it was given under. */
  predicate Repeats(body: Body, policy: Policy) {
    body.retryAfterSeconds == policy.retryAfterSeconds && body.clientAction == policy.clientAction
  }

  /**
   A queued call is answered as one exactly when its operation is listed for the
   dependency, and with the delay of the policy that queued it exactly when the
   dependency is degraded: an unavailable one is answered with the degraded policy.
   */
  lemma QueuedAnswerIff<T>(name: string, op: string, state: State, handler: HandlerResult<T>)
    requires Execute(name, op, state, handler).Enqueued?
    ensures var body := Execute(name, op, state, handler).body;
            && body.ok && body.degraded
            && (body.queued <==> Listed(name, op).Some?)
            && (body.code.RequestQueued? <==> Listed(name, op).Some?)
            && (body.code.ServiceDegraded? <==> Listed(name, op).None?)
            && (Repeats(body, PolicyFor(name, op, state).value) <==> state.Degraded?)
  {
    BlockedIff(name, op, Degraded);
    match name
    case "stellar" =>
    case "mongodb" =>
    case "pinata" =>
    case "email" =>
    case "webhooks" =>
    case _ =>
  }

  /** A search index is no listed operation of the database: queued, and answered as if it were not. */
  lemma UnlistedQueueIsAnsweredAsDegraded<T>(handler: HandlerResult<T>)
    ensures var r := Execute("mongodb", "reindex", Down, handler);
            r.Enqueued? && r.body.ok && !r.body.queued && r.body.code.ServiceDegraded?
  {
  }

  /** A webhook to be retried after 300 seconds is answered with 30. */
  lemma ListedQueueIsAnsweredTooSoon<T>(handler: HandlerResult<T>)
    ensures var r := Execute("webhooks", "dispatch", Down, handler);
            && r.Enqueued? && r.body.queued && r.body.retryAfterSeconds == 30
            && PolicyFor("webhooks", "dispatch", Down).value.retryAfterSeconds == 300
  {
  }

  /** The operation is queued while its dependency is degraded. */
  predicate QueuedWhenDegraded(name: string, op: string) {
    Listed(name, op).Some? && Listed(name, op).value.0.action.Queue?
  }

  /**
   A handler that throws is answered `ok: true`, always and only when it was
   run; and `queued`, though nothing was, exactly when a degraded dependency
   would have queued the call.
   */
  lemma ThrowingAnswerIff<T>(name: string, op: string, state: State, handler: HandlerResult<T>)
    requires Known(name) && handler.Throws?
    ensures var r := Execute(name, op, state, handler);
            && (Answered(r) <==> !(state.Down? && Critical(name, op)))
            && (r.HandlerFailed? <==>
                  !(state.Down? && Critical(name, op)) && !PolicyFor(name, op, state).value.action.Queue?)
            && (r.HandlerFailed? ==> r.body.ok && r.body.degraded && (r.body.queued <==> QueuedWhenDegraded(name, op)))
  {
    GateIff(name, op, state, handler);
    BlockedIff(name, op, Degraded);
  }

  /** A throwing purchase on a healthy chain is answered `ok: true`. */
  lemma ThrowingHandlerIsAnsweredOk<T>(handler: HandlerResult<T>)
    requires handler.Throws?
    ensures var r := Execute("stellar", "purchase", Healthy, handler);
            r.HandlerFailed? && r.body.ok && r.body.code.ServiceDegraded?
  {
  }

  /** A throwing payout on a healthy chain is answered as queued. */
  lemma ThrowingHandlerIsAnsweredQueued<T>(handler: HandlerResult<T>)
    requires handler.Throws?
    ensures var r := Execute("stellar", "payout", Healthy, handler);
            r.HandlerFailed? && r.body.ok && r.body.queued && r.body.code.RequestQueued?
  {
  }

  // ---------------------------------------------------------------------
  // Runs of checks and operations over all dependencies
  // ---------------------------------------------------------------------

  datatype Step<T> =
    | CheckStep(name: string, reading: Reading)
    | ExecuteStep(name: string, op: string, handler: HandlerResult<T>)

  type Monitors = map<string, Monitor>

  /** The registry as the module initializes it. */
  function Initial(at: int): Monitors {
    map name | name in SERVICES :: Start(at)
  }

  function Next<T>(ms: Monitors, s: Step<T>): Monitors {
    match s
    case CheckStep(name, r) =>
      if Known(name) && name in ms then ms[name := Check(ThresholdsOf(name), ms[name], r.probe, r.at)] else ms
    case ExecuteStep(_, _, _) => ms
  }

  function After<T>(at: int, run: seq<Step<T>>): Monitors {
    if run == [] then Initial(at) else Next(After(at, run[..|run| - 1]), run[|run| - 1])
  }

  /** The checks of one dependency. */
  function ReadingsOf<T>(run: seq<Step<T>>, name: string): seq<Reading> {
    if run == [] then []
    else
      ReadingsOf(run[..|run| - 1], name)
      + (var s := run[|run| - 1]; if s.CheckStep? && s.name == name then [s.reading] else [])
  }

  function OutcomesOf<T>(at: int, run: seq<Step<T>>, name: string): seq<bool> {
    Outcomes(ThresholdsOf(name), at, ReadingsOf(run, name))
  }

  /** Dependencies are monitored independently of each other and of the operations executed. */
  lemma {:induction false} MonitorsAreIndependent<T>(at: int, run: seq<Step<T>>, name: string)
    requires Known(name)
    ensures name in After(at, run)
    ensures After(at, run)[name] == Run(ThresholdsOf(name), at, ReadingsOf(run, name))
    decreases |run|
  {
    if run == [] {
      assert name in SERVICES by {
        assert SERVICES[0] == "stellar" && SERVICES[1] == "mongodb" && SERVICES[2] == "pinata"
               && SERVICES[3] == "email" && SERVICES[4] == "webhooks";
      }
    } else {
      var front, s := run[..|run| - 1], run[|run| - 1];
      MonitorsAreIndependent(at, front, name);
      var rs := ReadingsOf(front, name);
      if s.CheckStep? && s.name == name {
        assert (rs + [s.reading])[..|rs|] == rs;
      } else {
        assert rs + [] == rs;
      }
    }
  }

  lemma ThresholdsAreSensible(name: string)
    ensures Sensible(ThresholdsOf(name))
  {
  }

  /** The state an operation meets is the closed form of that dependency's check outcomes. */
  lemma StateIsClosedForm<T>(at: int, run: seq<Step<T>>, name: string)
    requires Known(name)
    ensures name in After(at, run)
    ensures After(at, run)[name].service.state == StateOf(ThresholdsOf(name), OutcomesOf(at, run, name))
  {
    MonitorsAreIndependent(at, run, name);
    ThresholdsAreSensible(name);
    RunClosedForm(ThresholdsOf(name), at, ReadingsOf(run, name));
  }

  /** The answer to an operation after a run. */
  function AnswerAfter<T>(at: int, run: seq<Step<T>>, name: string, op: string, handler: HandlerResult<T>): Response<T>
  {
    if name in After(at, run) then Execute(name, op, After(at, run)[name].service.state, handler) else NoPolicy
  }

  /** In any probe-only run an operation is refused exactly when it is critical and the outcomes say unavailable. */
  lemma RefusedIff<T>(at: int, run: seq<Step<T>>, name: string, op: string, handler: HandlerResult<T>)
    requires Known(name)
    ensures !Answered(AnswerAfter(at, run, name, op, handler)) <==>
              Critical(name, op) && StateOf(ThresholdsOf(name), OutcomesOf(at, run, name)).Down?
    ensures !Answered(AnswerAfter(at, run, name, op, handler)) ==> !HandlerRan(AnswerAfter(at, run, name, op, handler))
  {
    StateIsClosedForm(at, run, name);
    GateIff(name, op, After(at, run)[name].service.state, handler);
  }

  /**
   From the moment a dependency has failed 2F checks in a row until its next
   successful check, no handler of its critical operations runs and every such
   call is answered `ok: false`.
   */
  lemma CriticalOperationsStop<T>(at: int, run: seq<Step<T>>, name: string, op: string, handler: HandlerResult<T>)
    requires Known(name) && Critical(name, op)
    requires Trailing(OutcomesOf(at, run, name), false) >= 2 * ThresholdsOf(name).failure
    ensures !Answered(AnswerAfter(at, run, name, op, handler))
    ensures !HandlerRan(AnswerAfter(at, run, name, op, handler))
  {
    ThresholdsAreSensible(name);
    LongFailureIsDown(ThresholdsOf(name), OutcomesOf(at, run, name));
    RefusedIff(at, run, name, op, handler);
  }

  // ---------------------------------------------------------------------
  // The module as it runs
  // ---------------------------------------------------------------------

  class Matrix {
    const registry: Registry
    var circuits: map<string, Circuit>

    constructor (registry: Registry, at: int)
      requires registry.services == map[]
      modifies registry
      ensures this.registry == registry && Ready()
      ensures forall name :: Known(name) ==> MonitorOf(name) == Start(at)
    {
      this.registry := registry;
      circuits := map[];
      new;
      for i := 0 to |SERVICES|
        modifies this, registry
        invariant forall j :: 0 <= j < i ==> SERVICES[j] in circuits && circuits[SERVICES[j]] == FRESH
        invariant forall j :: 0 <= j < i ==>
          SERVICES[j] in registry.services && registry.services[SERVICES[j]] == Registered(at)
      {
        var _ := registry.RegisterService(SERVICES[i], at);
        circuits := circuits[SERVICES[i] := FRESH];
      }
      assert SERVICES[0] == "stellar" && SERVICES[1] == "mongodb" && SERVICES[2] == "pinata"
             && SERVICES[3] == "email" && SERVICES[4] == "webhooks";
    }

    ghost predicate Ready()
      reads this, registry
    {
      forall name :: Known(name) ==> name in circuits && name in registry.services
    }

    ghost function MonitorOf(name: string): Monitor
      requires Ready() && Known(name)
      reads this, registry
    {
      Monitor(registry.services[name], circuits[name])
    }

    /** False stands for the exception on an unknown dependency. */
    method RunDependencyCheck(name: string, probe: Probe, at: int) returns (known: bool)
      requires Ready()
      modifies this`circuits, registry
      ensures Ready() && known == Known(name)
      ensures known ==> MonitorOf(name) == Check(ThresholdsOf(name), old(MonitorOf(name)), probe, at)
      ensures forall other :: Known(other) && other != name ==> MonitorOf(other) == old(MonitorOf(other))
    {
      if !Known(name) { return false; }
      var th := ThresholdsOf(name);
      var circuit := circuits[name];
      var healthy := Outcome(Monitor(registry.services[name], circuit), probe);
      var mode := FailureMode(probe);
      if healthy {
        circuit := Circuit(0, circuit.successes + 1, circuit.probes + 1, None);
        circuits := circuits[name := circuit];
        if circuit.successes >= th.recovery {
          var _ := registry.ReportServiceState(name, Healthy, at, "automated_check_recovered");
        }
      } else {
        circuit := Circuit(circuit.failures + 1, 0, circuit.probes + 1, if mode != "" then Some(mode) else None);
        circuits := circuits[name := circuit];
        if circuit.failures >= th.failure * 2 {
          var _ := registry.ReportServiceState(name, Down, at, ReasonOr(mode, "probe_threshold_exceeded"));
        } else if circuit.failures >= th.failure {
          var _ := registry.ReportServiceState(name, Degraded, at, ReasonOr(mode, "probe_threshold_degraded"));
        }
      }
      return true;
    }

    method ExecuteWithDegradation<T>(name: string, op: string, handler: HandlerResult<T>) returns (r: Response<T>)
      requires Ready()
      ensures Known(name) ==> r == Execute(name, op, MonitorOf(name).service.state, handler)
      ensures !Known(name) ==> r.NoPolicy?
    {
      if !Known(name) { return NoPolicy; }
      var policy := PolicyFor(name, op, registry.services[name].state).value;
      if policy.action == Block { return Refused(DegradedResponse(name, op, Down).0); }
      if policy.action == Queue { return Enqueued(DegradedResponse(name, op, Degraded).0); }
      match handler
      case Value(v) => return Handled(v, policy.action == Degrade, policy.clientAction);
      case Throws => return HandlerFailed(DegradedResponse(name, op, Degraded).0);
    }
  }
}
