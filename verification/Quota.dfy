/**
 Actor quotas (src/lib/quotaManager.js): consumers that read the limit, seed the
 counter and increment it conditionally, each an atomic database operation,
 interleaved with each other and with resets and overrides.
 */
module Quota {
  import opened Wrappers
  import opened Text

  datatype Resource = Storage | Compute | Api | Indexing | Unsupported(name: string)

  type Key = (Text, Resource)

  /** The two collections, one record per actor and resource. */
  datatype Store = Store(limits: map<Key, int>, used: map<Key, int>)

  const MAX_SAFE := 9_007_199_254_740_991
  const UNLIMITED := -1

  function DefaultLimit(r: Resource): int {
    match r
    case Storage => 524_288_000
    case Compute => 1000
    case Api => 5000
    case Indexing => 100
    case Unsupported(_) => 0
  }

  predicate ValidActor(actor: Text) {
    Trim(actor) != []
  }

  predicate ValidScope(k: Key) {
    ValidActor(k.0) && !k.1.Unsupported?
  }

  predicate ValidAmount(amount: int) {
    0 < amount <= MAX_SAFE
  }

  predicate ValidOverride(limit: int) {
    -1 <= limit <= MAX_SAFE
  }

  // ---------------------------------------------------------------------
  // Atomic database operations
  // ---------------------------------------------------------------------

  function LimitOf(s: Store, k: Key): int {
    if k in s.limits then s.limits[k] else DefaultLimit(k.1)
  }

  function UsedOf(s: Store, k: Key): int {
    if k in s.used then s.used[k] else 0
  }

  /** `$setOnInsert: { used: 0 }` with upsert. */
  function Seed(s: Store, k: Key): Store {
    if k in s.used then s else s.(used := s.used[k := 0])
  }

  /** The filter of the conditional increment. */
  predicate Matches(s: Store, k: Key, limit: int, amount: int) {
    k in s.used && (limit != UNLIMITED ==> s.used[k] <= limit - amount)
  }

  function Increment(s: Store, k: Key, limit: int, amount: int): Store {
    if Matches(s, k, limit, amount) then s.(used := s.used[k := s.used[k] + amount]) else s
  }

  /** No upsert: a missing record stays missing. */
  function Reset(s: Store, k: Key): Store {
    if k in s.used then s.(used := s.used[k := 0]) else s
  }

  function Override(s: Store, k: Key, limit: int): Store {
    s.(limits := s.limits[k := limit])
  }

  // ---------------------------------------------------------------------
  // Interleaved steps
  // ---------------------------------------------------------------------

  /** Where a consume call stands. */
  datatype Pc = HasLimit(k: Key, amount: int, limit: int) | Seeded(k: Key, amount: int, limit: int)

  type Process = nat

  datatype System = System(store: Store, calls: map<Process, Pc>)

  datatype Step =
    | ReadLimit(p: Process, k: Key, amount: int)
    | SeedCounter(p: Process)
    | ConditionalIncrement(p: Process)
    | ResetUsage(k: Key)
    | SetOverride(k: Key, limit: int)

  /** A step can be taken: scopes and amounts were validated, and the call is at that point. */
  predicate Enabled(sys: System, st: Step) {
    match st
    case ReadLimit(p, k, amount) => p !in sys.calls && ValidScope(k) && ValidAmount(amount)
    case SeedCounter(p) => p in sys.calls && sys.calls[p].HasLimit?
    case ConditionalIncrement(p) => p in sys.calls && sys.calls[p].Seeded?
    case ResetUsage(k) => ValidScope(k)
    case SetOverride(k, limit) => ValidScope(k) && ValidOverride(limit)
  }

  function Next(sys: System, st: Step): System
    requires Enabled(sys, st)
  {
    match st
    case ReadLimit(p, k, amount) => sys.(calls := sys.calls[p := HasLimit(k, amount, LimitOf(sys.store, k))])
    case SeedCounter(p) =>
      var c := sys.calls[p];
      System(Seed(sys.store, c.k), sys.calls[p := Seeded(c.k, c.amount, c.limit)])
    case ConditionalIncrement(p) =>
      var c := sys.calls[p];
      System(Increment(sys.store, c.k, c.limit, c.amount), sys.calls - {p})
    case ResetUsage(k) => sys.(store := Reset(sys.store, k))
    case SetOverride(k, limit) => sys.(store := Override(sys.store, k, limit))
  }

  /** The call finishing with this increment is told its quota is exhausted. */
  predicate Rejects(sys: System, st: Step)
    requires Enabled(sys, st)
  {
    && st.ConditionalIncrement?
    && var c := sys.calls[st.p];
       c.limit != UNLIMITED && !Matches(sys.store, c.k, c.limit, c.amount)
  }

  predicate Succeeds(sys: System, st: Step)
    requires Enabled(sys, st)
  {
    st.ConditionalIncrement? && !Rejects(sys, st)
  }

  // ---------------------------------------------------------------------
  // Runs
  // ---------------------------------------------------------------------

  ghost predicate IsRun(sys: System, run: seq<Step>)
    decreases |run|, 0
  {
    run != [] ==> IsRun(sys, Front(run)) && Enabled(After(sys, Front(run)), run[|run| - 1])
  }

  function Front(run: seq<Step>): seq<Step>
    requires run != []
  {
    run[..|run| - 1]
  }

  ghost function After(sys: System, run: seq<Step>): System
    requires IsRun(sys, run)
    decreases |run|, 1
  {
    if run == [] then sys else Next(After(sys, Front(run)), run[|run| - 1])
  }

  /** The amounts of the successful consumes of `k` since its last reset, on top of `base` before any. */
  ghost function Charged(sys: System, run: seq<Step>, k: Key): int
    requires IsRun(sys, run)
    decreases |run|
  {
    if run == [] then UsedOf(sys.store, k)
    else
      var now, st := After(sys, Front(run)), run[|run| - 1];
      if st == ResetUsage(k) then 0
      else if st.ConditionalIncrement? && now.calls[st.p].k == k && Succeeds(now, st) then
        Charged(sys, Front(run), k) + now.calls[st.p].amount
      else Charged(sys, Front(run), k)
  }

  /** A call past its seed has its record. */
  ghost predicate SeedsHold(sys: System) {
    forall p :: p in sys.calls && sys.calls[p].Seeded? ==> sys.calls[p].k in sys.store.used
  }

  ghost predicate AmountsHold(sys: System) {
    forall p :: p in sys.calls ==> ValidAmount(sys.calls[p].amount)
  }

  lemma StepStaysGood(sys: System, st: Step)
    requires SeedsHold(sys) && AmountsHold(sys) && Enabled(sys, st)
    ensures SeedsHold(Next(sys, st)) && AmountsHold(Next(sys, st))
  {
    var t := Next(sys, st);
    forall p | p in t.calls && t.calls[p].Seeded? ensures t.calls[p].k in t.store.used {
      if p in sys.calls && sys.calls[p].Seeded? { assert sys.calls[p].k in sys.store.used; }
    }
    forall p | p in t.calls ensures ValidAmount(t.calls[p].amount) {
      if p in sys.calls { assert ValidAmount(sys.calls[p].amount); }
    }
  }

  lemma {:induction false} CallsStayGood(sys: System, run: seq<Step>)
    requires IsRun(sys, run) && SeedsHold(sys) && AmountsHold(sys)
    ensures SeedsHold(After(sys, run)) && AmountsHold(After(sys, run))
    decreases |run|
  {
    if run != [] {
      CallsStayGood(sys, Front(run));
      StepStaysGood(After(sys, Front(run)), run[|run| - 1]);
    }
  }

  /** Conservation: the counter is the sum of what was granted since the last reset. */
  lemma {:induction false} UsedIsCharged(sys: System, run: seq<Step>, k: Key)
    requires IsRun(sys, run) && SeedsHold(sys) && AmountsHold(sys)
    ensures UsedOf(After(sys, run).store, k) == Charged(sys, run, k)
    decreases |run|
  {
    if run != [] {
      UsedIsCharged(sys, Front(run), k);
      CallsStayGood(sys, Front(run));
    }
  }

  /** A call is refused exactly when its amount does not fit under the limit it read, at that instant. */
  lemma RejectedIff(sys: System, run: seq<Step>, st: Step)
    requires IsRun(sys, run) && SeedsHold(sys) && AmountsHold(sys)
    requires Enabled(After(sys, run), st) && st.ConditionalIncrement?
    ensures var now := After(sys, run);
            var c := now.calls[st.p];
            && (Rejects(now, st) <==> c.limit != UNLIMITED && UsedOf(now.store, c.k) + c.amount > c.limit)
            && (Rejects(now, st) ==> Next(now, st).store == now.store)
            && (Succeeds(now, st) ==> UsedOf(Next(now, st).store, c.k) == UsedOf(now.store, c.k) + c.amount)
  {
    CallsStayGood(sys, run);
  }

  // ---------------------------------------------------------------------
  // The limit is never exceeded
  // ---------------------------------------------------------------------

  /** Every limit in force for `k`, stored or already read by a call under way, is between 0 and `m`. */
  ghost predicate LimitsWithin(sys: System, k: Key, m: int) {
    && 0 <= LimitOf(sys.store, k) <= m
    && forall p :: p in sys.calls && sys.calls[p].k == k ==> 0 <= sys.calls[p].limit <= m
  }

  ghost predicate OverridesWithin(run: seq<Step>, k: Key, m: int) {
    forall i :: 0 <= i < |run| && run[i].SetOverride? && run[i].k == k ==> 0 <= run[i].limit <= m
  }

  /** With every limit of the run at most `m`, no interleaving drives the counter above `m`. */
  lemma {:induction false} NeverExceeds(sys: System, run: seq<Step>, k: Key, m: int)
    requires IsRun(sys, run) && LimitsWithin(sys, k, m) && OverridesWithin(run, k, m)
    requires UsedOf(sys.store, k) <= m
    ensures LimitsWithin(After(sys, run), k, m) && UsedOf(After(sys, run).store, k) <= m
    decreases |run|
  {
    if run != [] {
      var front, st := Front(run), run[|run| - 1];
      assert OverridesWithin(front, k, m);
      NeverExceeds(sys, front, k, m);
      var now := After(sys, front);
      if st.SetOverride? { assert run[|run| - 1].limit == st.limit; }
      if st.ConditionalIncrement? && now.calls[st.p].k == k {
        assert 0 <= now.calls[st.p].limit <= m;
      }
    }
  }

  /** The fixed-limit case: no override of `k`, nobody under way, and the counter starts within the limit. */
  lemma FixedLimitHolds(sys: System, run: seq<Step>, k: Key)
    requires IsRun(sys, run) && sys.calls == map[]
    requires forall i :: 0 <= i < |run| ==> !(run[i].SetOverride? && run[i].k == k)
    requires 0 <= LimitOf(sys.store, k) && UsedOf(sys.store, k) <= LimitOf(sys.store, k)
    ensures UsedOf(After(sys, run).store, k) <= LimitOf(sys.store, k)
  {
    NeverExceeds(sys, run, k, LimitOf(sys.store, k));
  }

  // ---------------------------------------------------------------------
  // Whole calls
  // ---------------------------------------------------------------------

  datatype Outcome = Done | QuotaExceeded | TypeMismatch

  function AssertOutcome(s: Store, k: Key, amount: int): Outcome {
    if !ValidScope(k) || !ValidAmount(amount) then TypeMismatch
    else if LimitOf(s, k) == UNLIMITED then Done
    else if UsedOf(s, k) + amount > LimitOf(s, k) then QuotaExceeded
    else Done
  }

  /** The three steps of one consume with nothing in between. */
  function ConsumeOutcome(s: Store, k: Key, amount: int): (Store, Outcome) {
    if !ValidScope(k) || !ValidAmount(amount) then (s, TypeMismatch)
    else
      var limit := LimitOf(s, k);
      var seeded := Seed(s, k);
      if Matches(seeded, k, limit, amount) || limit == UNLIMITED then (Increment(seeded, k, limit, amount), Done)
      else (seeded, QuotaExceeded)
  }

  /** The check passes exactly when an immediately following consume does. */
  lemma AssertPredictsConsume(s: Store, k: Key, amount: int)
    ensures ConsumeOutcome(s, k, amount).1 == AssertOutcome(s, k, amount)
    ensures var r := ConsumeOutcome(s, k, amount).0;
            UsedOf(r, k) == UsedOf(s, k) + if AssertOutcome(s, k, amount).Done? then amount else 0
  {
  }

  /** The three steps of one consume, from a state, with nothing in between. */
  lemma ThreeSteps(sys: System, p: Process, k: Key, amount: int)
    requires p !in sys.calls && ValidScope(k) && ValidAmount(amount)
    ensures Enabled(sys, ReadLimit(p, k, amount))
    ensures var one := Next(sys, ReadLimit(p, k, amount));
            Enabled(one, SeedCounter(p)) && Enabled(Next(one, SeedCounter(p)), ConditionalIncrement(p))
    ensures var two := Next(Next(sys, ReadLimit(p, k, amount)), SeedCounter(p));
            && Next(two, ConditionalIncrement(p)) == System(ConsumeOutcome(sys.store, k, amount).0, sys.calls)
            && (Rejects(two, ConditionalIncrement(p)) <==> ConsumeOutcome(sys.store, k, amount).1.QuotaExceeded?)
  {
    var two := Next(Next(sys, ReadLimit(p, k, amount)), SeedCounter(p));
    assert two.calls - {p} == sys.calls;
  }

  /** Run alone, the interleaved protocol does what the whole call does. */
  lemma ConsumeAlone(sys: System, p: Process, k: Key, amount: int, run: seq<Step>)
    requires p !in sys.calls && ValidScope(k) && ValidAmount(amount)
    requires |run| == 3
    requires run[0] == ReadLimit(p, k, amount) && run[1] == SeedCounter(p) && run[2] == ConditionalIncrement(p)
    ensures IsRun(sys, run)
    ensures After(sys, run) == System(ConsumeOutcome(sys.store, k, amount).0, sys.calls)
    ensures IsRun(sys, run[..2]) && Enabled(After(sys, run[..2]), run[2])
    ensures Rejects(After(sys, run[..2]), run[2]) <==> ConsumeOutcome(sys.store, k, amount).1.QuotaExceeded?
  {
    ThreeSteps(sys, p, k, amount);
    OneMore(sys, run[..0], run[0]);
    assert run[..0] + [run[0]] == run[..1];
    OneMore(sys, run[..1], run[1]);
    assert run[..1] + [run[1]] == run[..2];
    OneMore(sys, run[..2], run[2]);
    assert run[..2] + [run[2]] == run;
  }

  lemma OneMore(sys: System, run: seq<Step>, st: Step)
    requires IsRun(sys, run) && Enabled(After(sys, run), st)
    ensures IsRun(sys, run + [st]) && After(sys, run + [st]) == Next(After(sys, run), st)
  {
    assert Front(run + [st]) == run;
  }

  // ---------------------------------------------------------------------
  // Which limit is in force
  // ---------------------------------------------------------------------

  /** The limit of the last override of `k` in the run. */
  function LastOverride(run: seq<Step>, k: Key): Option<int> {
    if run == [] then None
    else
      var st := run[|run| - 1];
      if st.SetOverride? && st.k == k then Some(st.limit) else LastOverride(run[..|run| - 1], k)
  }

  /** 500 MiB of storage, 1000 computations, 5000 calls, 100 indexings. */
  const DEFAULTS: map<Resource, int> :=
    map[Storage := 500 * 1024 * 1024, Compute := 1000, Api := 5000, Indexing := 100]

  /** The last override of the run, else the limit stored at the start, else the default of the resource. */
  function InForce(sys: System, run: seq<Step>, k: Key): int
    requires k.1 in DEFAULTS
  {
    match LastOverride(run, k)
    case Some(limit) => limit
    case None => if k in sys.store.limits then sys.store.limits[k] else DEFAULTS[k.1]
  }

  lemma {:induction false} LimitFollowsOverrides(sys: System, run: seq<Step>, k: Key)
    requires IsRun(sys, run) && k.1 in DEFAULTS
    ensures LimitOf(After(sys, run).store, k) == InForce(sys, run, k)
    decreases |run|
  {
    if run != [] { LimitFollowsOverrides(sys, Front(run), k); }
  }

  /** On every run, a call reads the limit that is in force. */
  lemma LimitReadIs(sys: System, run: seq<Step>, p: Process, k: Key, amount: int)
    requires IsRun(sys, run) && Enabled(After(sys, run), ReadLimit(p, k, amount))
    ensures k.1 in DEFAULTS && p in Next(After(sys, run), ReadLimit(p, k, amount)).calls
    ensures Next(After(sys, run), ReadLimit(p, k, amount)).calls[p] == HasLimit(k, amount, InForce(sys, run, k))
  {
    LimitFollowsOverrides(sys, run, k);
  }

  /** Between its read and its increment a call keeps its key, its amount and its limit. */
  lemma CallKeeps(sys: System, st: Step, p: Process)
    requires Enabled(sys, st) && p in sys.calls && p in Next(sys, st).calls
    ensures var c, d := sys.calls[p], Next(sys, st).calls[p]; d.k == c.k && d.amount == c.amount && d.limit == c.limit
  {
  }

  /** On every run, each call under way works with its own key and amount and the limit in force when it read. */
  lemma {:induction false} CallWorksWith(sys: System, run: seq<Step>, p: Process) returns (i: nat)
    requires IsRun(sys, run) && sys.calls == map[] && p in After(sys, run).calls
    ensures i < |run| && run[i].ReadLimit? && run[i].p == p && run[i].k.1 in DEFAULTS
    ensures var c := After(sys, run).calls[p];
            c.k == run[i].k && c.amount == run[i].amount && c.limit == InForce(sys, run[..i], run[i].k)
    decreases |run|
  {
    var front, st := Front(run), run[|run| - 1];
    if p in After(sys, front).calls {
      i := CallWorksWith(sys, front, p);
      CallKeeps(After(sys, front), st, p);
      assert front[..i] == run[..i];
    } else {
      i := |run| - 1;
      assert run[..i] == front;
      LimitReadIs(sys, front, p, st.k, st.amount);
    }
  }

  /** What is used so far. */
  function Used(s: Store, k: Key): int {
    if k in s.used then s.used[k] else 0
  }

  /** What a check and a consume answer under a limit. */
  predicate AnswersUnder(s: Store, k: Key, amount: int, limit: int) {
    && AssertOutcome(s, k, amount) == ConsumeOutcome(s, k, amount).1
    && (if limit != -1 && Used(s, k) + amount > limit then
          AssertOutcome(s, k, amount) == QuotaExceeded && Used(ConsumeOutcome(s, k, amount).0, k) == Used(s, k)
        else
          && AssertOutcome(s, k, amount) == Done
          && ConsumeOutcome(s, k, amount).0 == s.(used := s.used[k := Used(s, k) + amount]))
  }

  /** A well-formed request: a resource with a default, a name that is not blank, a positive safe integer. */
  predicate WellFormed(k: Key, amount: int) {
    k.1 in DEFAULTS && Trim(k.0) != [] && 1 <= amount <= 9_007_199_254_740_991
  }

  /** After an override to L, check and consume are refused exactly when used plus amount exceeds L; with -1, never. */
  lemma OverrideDecides(s: Store, k: Key, amount: int, limit: int)
    requires WellFormed(k, amount)
    ensures AnswersUnder(Override(s, k, limit), k, amount, limit)
    ensures Override(s, k, limit) == Store(s.limits[k := limit], s.used)
  {
  }

  /** Without an override the default decides. */
  lemma DefaultDecides(s: Store, k: Key, amount: int)
    requires WellFormed(k, amount) && k !in s.limits
    ensures AnswersUnder(s, k, amount, DEFAULTS[k.1])
  {
  }

  /** Malformed requests are type errors and change nothing; overrides range from -1 to the largest safe integer. */
  lemma MalformedIsRefused(s: Store, k: Key, amount: int, limit: int)
    ensures ConsumeOutcome(s, k, amount) == (s, TypeMismatch) <==> !WellFormed(k, amount)
    ensures AssertOutcome(s, k, amount) == TypeMismatch <==> !WellFormed(k, amount)
    ensures ValidScope(k) <==> k.1 in DEFAULTS && Trim(k.0) != []
    ensures ValidOverride(limit) <==> limit == -1 || 0 <= limit <= 9_007_199_254_740_991
  {
  }

  class QuotaManager {
    var limits: map<Key, int>
    var used: map<Key, int>

    function Stored(): Store
      reads this
    {
      Store(limits, used)
    }

    method AssertActorQuota(k: Key, amount: int) returns (r: Outcome)
      ensures r == AssertOutcome(Stored(), k, amount)
    {
      if !ValidScope(k) || !ValidAmount(amount) { return TypeMismatch; }
      var limit := LimitOf(Stored(), k);
      if limit == UNLIMITED { return Done; }
      var currentUsage := UsedOf(Stored(), k);
      if currentUsage + amount > limit { return QuotaExceeded; }
      return Done;
    }

    method ConsumeActorQuota(k: Key, amount: int) returns (r: Outcome)
      modifies this`used
      ensures (Stored(), r) == ConsumeOutcome(old(Stored()), k, amount)
    {
      if !ValidScope(k) || !ValidAmount(amount) { return TypeMismatch; }
      var limit := LimitOf(Stored(), k);
      if k !in used { used := used[k := 0]; }
      var matched := 0;
      if limit == UNLIMITED || used[k] <= limit - amount {
        used := used[k := used[k] + amount];
        matched := 1;
      }
      if matched == 0 && limit != UNLIMITED { return QuotaExceeded; }
      return Done;
    }

    method ResetActorQuota(k: Key) returns (r: Outcome)
      modifies this`used
      ensures r == if ValidScope(k) then Done else TypeMismatch
      ensures Stored() == if ValidScope(k) then Reset(old(Stored()), k) else old(Stored())
    {
      if !ValidScope(k) { return TypeMismatch; }
      if k in used { used := used[k := 0]; }
      return Done;
    }

    method SetActorQuotaOverride(k: Key, limit: int) returns (r: Outcome)
      modifies this`limits
      ensures r == if ValidScope(k) && ValidOverride(limit) then Done else TypeMismatch
      ensures Stored() == if r.Done? then Override(old(Stored()), k, limit) else old(Stored())
    {
      if !ValidScope(k) || !ValidOverride(limit) { return TypeMismatch; }
      limits := limits[k := limit];
      return Done;
    }
  }
}
