/**
 Single-flight session refresh (src/lib/api/apiClient.js). Calls interleave at
 every await: the refresh request settles, the shared promise is cleared, and
 the calls that joined it resume one by one.
 */
module ApiClient {
  import opened Wrappers

  type CallId = nat
  type RefreshId = nat

  /** Where a call stands; the counters are what it has done so far. */
  datatype Pc =
    | Fetching(fetches: nat, refreshes: nat)
    | WaitingRefresh(refresh: RefreshId, fetches: nat, refreshes: nat)
    | Finished(joined: Option<(RefreshId, bool)>, fetches: nat, refreshes: nat)
    | Retrying(seen: (RefreshId, bool), fetches: nat, refreshes: nat)

  datatype Client = Client(
    inFlight: Option<RefreshId>,          // the module variable refreshInFlight
    issued: nat,                          // refresh requests sent so far; the next id
    outstanding: set<RefreshId>,          // sent and not answered
    outcomes: map<RefreshId, bool>,       // answered: did it succeed
    authRoute: map<CallId, bool>,
    calls: map<CallId, Pc>)

  datatype Status = Unauthorized | OtherStatus | NetworkError

  datatype Step =
    | Start(c: CallId, endpoint: string)
    | Response(c: CallId, status: Status)
    | RefreshSettles(r: RefreshId, ok: bool)
    | RefreshClears(r: RefreshId)
    | Resume(c: CallId)

  const INITIAL := Client(None, 0, {}, map[], map[], map[])

  predicate Enabled(s: Client, st: Step) {
    match st
    case Start(c, _) => c !in s.calls
    case Response(c, _) => c in s.calls && c in s.authRoute && (s.calls[c].Fetching? || s.calls[c].Retrying?)
    case RefreshSettles(r, _) => r in s.outstanding
    case RefreshClears(r) => s.inFlight == Some(r) && r in s.outcomes
    case Resume(c) =>
      && c in s.calls && s.calls[c].WaitingRefresh?
      && s.calls[c].refresh in s.outcomes && s.inFlight != Some(s.calls[c].refresh)
  }

  predicate IsAuthRoute(endpoint: string) {
    "/api/auth/" <= endpoint
  }

  /** `refreshSession`: join the refresh under way, or send one. */
  function Join(s: Client, c: CallId): Client
    requires c in s.calls
  {
    var pc := s.calls[c];
    match s.inFlight
    case Some(r) => s.(calls := s.calls[c := WaitingRefresh(r, pc.fetches, pc.refreshes + 1)])
    case None =>
      s.(inFlight := Some(s.issued), issued := s.issued + 1, outstanding := s.outstanding + {s.issued},
         calls := s.calls[c := WaitingRefresh(s.issued, pc.fetches, pc.refreshes + 1)])
  }

  function Next(s: Client, st: Step): Client
    requires Enabled(s, st)
  {
    match st
    case Start(c, endpoint) =>
      s.(calls := s.calls[c := Fetching(1, 0)], authRoute := s.authRoute[c := IsAuthRoute(endpoint)])
    case Response(c, status) =>
      var pc := s.calls[c];
      if pc.Fetching? && status.Unauthorized? && !s.authRoute[c] then Join(s, c)
      else
        s.(calls := s.calls[c := Finished(if pc.Retrying? then Some(pc.seen) else None, pc.fetches, pc.refreshes)])
    case RefreshSettles(r, ok) => s.(outstanding := s.outstanding - {r}, outcomes := s.outcomes[r := ok])
    case RefreshClears(r) => s.(inFlight := None)
    case Resume(c) =>
      var pc := s.calls[c];
      var ok := s.outcomes[pc.refresh];
      if ok then s.(calls := s.calls[c := Retrying((pc.refresh, ok), pc.fetches + 1, pc.refreshes)])
      else s.(calls := s.calls[c := Finished(Some((pc.refresh, ok)), pc.fetches, pc.refreshes)])
  }

  ghost predicate IsRun(run: seq<Step>)
    decreases |run|, 0
  {
    run != [] ==> IsRun(run[..|run| - 1]) && Enabled(After(run[..|run| - 1]), run[|run| - 1])
  }

  ghost function After(run: seq<Step>): Client
    requires IsRun(run)
    decreases |run|, 1
  {
    if run == [] then INITIAL else Next(After(run[..|run| - 1]), run[|run| - 1])
  }

  // ---------------------------------------------------------------------
  // The invariant of every interleaving
  // ---------------------------------------------------------------------

  /** A refresh is sent only by putting it in flight, and leaves flight only once answered. */
  ghost predicate SingleFlight(s: Client) {
    && (forall r :: r in s.outstanding ==> s.inFlight == Some(r))
    && (s.inFlight.Some? ==> s.inFlight.value < s.issued)
    && (s.inFlight.Some? ==> (s.inFlight.value in s.outstanding <==> s.inFlight.value !in s.outcomes))
    && (forall r :: r in s.outcomes ==> r < s.issued && r !in s.outstanding)
  }

  ghost predicate GoodCall(s: Client, pc: Pc) {
    match pc
    case Fetching(f, n) => f == 1 && n == 0
    case WaitingRefresh(r, f, n) => f == 1 && n == 1 && (s.inFlight == Some(r) || r in s.outcomes)
    case Retrying(seen, f, n) => f == 2 && n == 1 && seen.1 && Agrees(s, seen)
    case Finished(joined, f, n) =>
      && 1 <= f <= 2 && n <= 1 && (joined.Some? <==> n == 1)
      && (if joined.Some? then Agrees(s, joined.value) && (f == 2 <==> joined.value.1) else f == 1)
  }

  /** What a call saw of a refresh is that refresh's one outcome. */
  ghost predicate Agrees(s: Client, seen: (RefreshId, bool)) {
    seen.0 in s.outcomes && s.outcomes[seen.0] == seen.1 && s.inFlight != Some(seen.0)
  }

  ghost predicate Inv(s: Client) {
    && SingleFlight(s)
    && (forall c :: c in s.calls ==> c in s.authRoute && GoodCall(s, s.calls[c]))
  }

  lemma StepKeepsInv(s: Client, st: Step)
    requires Inv(s) && Enabled(s, st)
    ensures Inv(Next(s, st))
  {
    var t := Next(s, st);
    StepKeepsSingleFlight(s, st);
    forall c | c in t.calls ensures c in t.authRoute && GoodCall(t, t.calls[c]) {
      CallStaysGood(s, st, c);
    }
  }

  lemma CallStaysGood(s: Client, st: Step, c: CallId)
    requires Inv(s) && Enabled(s, st) && c in Next(s, st).calls
    ensures c in Next(s, st).authRoute && GoodCall(Next(s, st), Next(s, st).calls[c])
  {
    if c in s.calls { assert GoodCall(s, s.calls[c]); }
  }

  lemma StepKeepsSingleFlight(s: Client, st: Step)
    requires SingleFlight(s) && Enabled(s, st)
    ensures SingleFlight(Next(s, st))
  {
  }

  lemma {:induction false} RunKeepsInv(run: seq<Step>)
    requires IsRun(run)
    ensures Inv(After(run))
    decreases |run|
  {
    if run != [] {
      RunKeepsInv(run[..|run| - 1]);
      StepKeepsInv(After(run[..|run| - 1]), run[|run| - 1]);
    }
  }

  /** What a call has learned from a refresh, once it has. */
  function Learned(pc: Pc): Option<(RefreshId, bool)> {
    match pc
    case Finished(joined, _, _) => joined
    case Retrying(seen, _, _) => Some(seen)
    case _ => None
  }

  /** At most one refresh request is outstanding, whatever the interleaving, and it is the one in flight. */
  lemma OneRefreshOutstanding(run: seq<Step>)
    requires IsRun(run)
    ensures |After(run).outstanding| <= 1
    ensures forall r :: r in After(run).outstanding ==> After(run).inFlight == Some(r)
  {
    RunKeepsInv(run);
    var s := After(run);
    if s.outstanding != {} {
      var r :| r in s.outstanding;
      forall q | q in s.outstanding ensures q == r {
        assert s.inFlight == Some(q);
      }
      assert s.outstanding == {r};
    }
  }

  /** All calls that joined a refresh see the same outcome, and retry exactly when it succeeded. */
  lemma JoinersAgree(run: seq<Step>, c: CallId, d: CallId)
    requires IsRun(run) && c in After(run).calls && d in After(run).calls
    requires Learned(After(run).calls[c]).Some? && Learned(After(run).calls[d]).Some?
    requires Learned(After(run).calls[c]).value.0 == Learned(After(run).calls[d]).value.0
    ensures Learned(After(run).calls[c]) == Learned(After(run).calls[d])
    ensures After(run).calls[c].fetches == 2 <==> Learned(After(run).calls[c]).value.1
    ensures After(run).calls[c].fetches == After(run).calls[d].fetches
  {
    RunKeepsInv(run);
    var s := After(run);
    assert GoodCall(s, s.calls[c]) && GoodCall(s, s.calls[d]);
  }

  /** Each call fetches its endpoint at most twice and waits for at most one refresh; without one it never retries. */
  lemma CallsAreBounded(run: seq<Step>, c: CallId)
    requires IsRun(run) && c in After(run).calls
    ensures 1 <= After(run).calls[c].fetches <= 2 && After(run).calls[c].refreshes <= 1
    ensures After(run).calls[c].fetches == 2 ==> After(run).calls[c].refreshes == 1
  {
    RunKeepsInv(run);
    assert GoodCall(After(run), After(run).calls[c]);
  }

  lemma OutcomeStays(s: Client, st: Step, r: RefreshId)
    requires SingleFlight(s) && Enabled(s, st) && r in s.outcomes
    ensures r in Next(s, st).outcomes && Next(s, st).outcomes[r] == s.outcomes[r]
  {
  }

  /** A refresh, once answered, keeps its answer. */
  lemma {:induction false} OutcomesAreFinal(run: seq<Step>, i: nat, r: RefreshId)
    requires IsRun(run) && i <= |run| && IsRun(run[..i]) && r in After(run[..i]).outcomes
    ensures r in After(run).outcomes && After(run).outcomes[r] == After(run[..i]).outcomes[r]
    decreases |run|
  {
    if i < |run| {
      var front := run[..|run| - 1];
      assert front[..i] == run[..i];
      OutcomesAreFinal(front, i, r);
      RunKeepsInv(front);
      OutcomeStays(After(front), run[|run| - 1], r);
    } else {
      assert run[..i] == run;
    }
  }

  // ---------------------------------------------------------------------
  // When a call refreshes
  // ---------------------------------------------------------------------

  /** The endpoint the call was started with. */
  function EndpointOf(run: seq<Step>, c: CallId): Option<string> {
    if run == [] then None
    else
      var st := run[|run| - 1];
      if st.Start? && st.c == c then Some(st.endpoint) else EndpointOf(run[..|run| - 1], c)
  }

  /** What came back from its first fetch. */
  function FirstStatus(run: seq<Step>, c: CallId): Option<Status> {
    if run == [] then None
    else
      var st, first := run[|run| - 1], FirstStatus(run[..|run| - 1], c);
      if first.Some? then first else if st.Response? && st.c == c then Some(st.status) else None
  }

  /** What came back for a refresh request. */
  function AnswerOf(run: seq<Step>, r: RefreshId): Option<bool> {
    if run == [] then None
    else
      var st, first := run[|run| - 1], AnswerOf(run[..|run| - 1], r);
      if first.Some? then first else if st.RefreshSettles? && st.r == r then Some(st.ok) else None
  }

  /** The call was started with this endpoint, if at all. */
  ghost predicate Started(s: Client, c: CallId, endpoint: Option<string>) {
    && (c in s.calls <==> endpoint.Some?)
    && (c in s.calls ==> c in s.authRoute && (s.authRoute[c] <==> IsAuthRoute(endpoint.value)))
  }

  lemma StartStep(s: Client, st: Step, c: CallId, endpoint: Option<string>)
    requires Enabled(s, st) && Started(s, c, endpoint)
    ensures Started(Next(s, st), c, if st.Start? && st.c == c then Some(st.endpoint) else endpoint)
  {
  }

  lemma {:induction false} CallHasEndpoint(run: seq<Step>, c: CallId)
    requires IsRun(run)
    ensures Started(After(run), c, EndpointOf(run, c))
    decreases |run|
  {
    if run != [] {
      CallHasEndpoint(run[..|run| - 1], c);
      StartStep(After(run[..|run| - 1]), run[|run| - 1], c, EndpointOf(run[..|run| - 1], c));
    }
  }

  lemma {:induction false} FetchingUntilStatus(run: seq<Step>, c: CallId)
    requires IsRun(run)
    ensures FirstStatus(run, c).Some? <==> c in After(run).calls && !After(run).calls[c].Fetching?
    decreases |run|
  {
    if run != [] { FetchingUntilStatus(run[..|run| - 1], c); }
  }

  /** The call has not refreshed but for a 401 on an endpoint that is not one of sign-in. */
  ghost predicate RefreshesFollow(s: Client, c: CallId, first: Option<Status>)
    requires c in s.calls && c in s.authRoute
  {
    s.calls[c].refreshes == if first == Some(Unauthorized) && !s.authRoute[c] then 1 else 0
  }

  lemma RefreshStep(s: Client, st: Step, c: CallId, first: Option<Status>)
    requires Inv(s) && Enabled(s, st) && c in s.calls && RefreshesFollow(s, c, first)
    requires first.Some? <==> !s.calls[c].Fetching?
    ensures c in Next(s, st).calls && c in Next(s, st).authRoute
    ensures RefreshesFollow(Next(s, st), c,
              if first.Some? then first else if st.Response? && st.c == c then Some(st.status) else None)
  {
    assert GoodCall(s, s.calls[c]);
  }

  lemma {:induction false} RefreshesAlong(run: seq<Step>, c: CallId)
    requires IsRun(run) && c in After(run).calls
    ensures c in After(run).authRoute && RefreshesFollow(After(run), c, FirstStatus(run, c))
    decreases |run|
  {
    var front := run[..|run| - 1];
    RunKeepsInv(front);
    FetchingUntilStatus(front, c);
    if c in After(front).calls {
      RefreshesAlong(front, c);
      RefreshStep(After(front), run[|run| - 1], c, FirstStatus(front, c));
    }
  }

  /** A call refreshes exactly when its first fetch came back 401 and its endpoint is not one of sign-in. */
  lemma RefreshesIff(run: seq<Step>, c: CallId)
    requires IsRun(run) && c in After(run).calls
    ensures EndpointOf(run, c).Some?
    ensures After(run).calls[c].refreshes == 1 <==>
              FirstStatus(run, c) == Some(Unauthorized) && !("/api/auth/" <= EndpointOf(run, c).value)
    ensures !After(run).calls[c].Fetching? <==> FirstStatus(run, c).Some?
  {
    CallHasEndpoint(run, c);
    FetchingUntilStatus(run, c);
    RefreshesAlong(run, c);
  }

  /** The refresh was answered in this way, if at all. */
  ghost predicate Answered(s: Client, r: RefreshId, answer: Option<bool>) {
    (r in s.outcomes <==> answer.Some?) && (r in s.outcomes ==> s.outcomes[r] == answer.value)
  }

  lemma AnswerStep(s: Client, st: Step, r: RefreshId, answer: Option<bool>)
    requires SingleFlight(s) && Enabled(s, st) && Answered(s, r, answer)
    ensures Answered(Next(s, st), r,
              if answer.Some? then answer else if st.RefreshSettles? && st.r == r then Some(st.ok) else None)
  {
  }

  /** The outcome of a refresh is what came back for it, whether the request was answered or failed. */
  lemma {:induction false} OutcomeIsTheAnswer(run: seq<Step>, r: RefreshId)
    requires IsRun(run)
    ensures Answered(After(run), r, AnswerOf(run, r))
    decreases |run|
  {
    if run != [] {
      var front := run[..|run| - 1];
      OutcomeIsTheAnswer(front, r);
      RunKeepsInv(front);
      AnswerStep(After(front), run[|run| - 1], r, AnswerOf(front, r));
    }
  }
}
