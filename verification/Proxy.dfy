/**
 Rate limiting in the route proxy (src/proxy.js): the first matching rule picks
 limit, window and label, and the key joins label and client address.
 */
module Proxy {
  import opened Wrappers
  import opened RateLimit

  datatype Rule = Marketplace | Upload | Auth

  const RULES := [Marketplace, Upload, Auth]

  function LimitOf(r: Rule): int {
    match r
    case Marketplace => 100
    case Upload => 5
    case Auth => 20
  }

  function WindowOf(r: Rule): int {
    match r
    case Marketplace => 60_000
    case Upload => 3_600_000
    case Auth => 60_000
  }

  function LabelOf(r: Rule): string {
    match r
    case Marketplace => "marketplace"
    case Upload => "upload"
    case Auth => "auth"
  }

  /** `^<prefix>(\/|$)`. */
  predicate SegmentPrefix(prefix: string, path: string) {
    prefix <= path && (|path| == |prefix| || path[|prefix|] == '/')
  }

  predicate Applies(r: Rule, path: string) {
    match r
    case Marketplace => SegmentPrefix("/api/market-materials", path) || SegmentPrefix("/api/subjects", path)
    case Upload => SegmentPrefix("/api/upload", path) || SegmentPrefix("/api/creator/materials", path)
    case Auth => "/api/auth/" <= path
  }

  /** The first rule of the table that applies. */
  function Choose(path: string): Option<Rule> {
    if Applies(Marketplace, path) then Some(Marketplace)
    else if Applies(Upload, path) then Some(Upload)
    else if Applies(Auth, path) then Some(Auth)
    else None
  }

  function KeyOf(r: Rule, ip: string): string {
    LabelOf(r) + ":" + ip
  }

  /** Rule and address can be read back from the key. */
  lemma KeysAreInjective(r1: Rule, ip1: string, r2: Rule, ip2: string)
    ensures KeyOf(r1, ip1) == KeyOf(r2, ip2) <==> r1 == r2 && ip1 == ip2
  {
    if KeyOf(r1, ip1) == KeyOf(r2, ip2) {
      assert KeyOf(r1, ip1)[0] == LabelOf(r1)[0] && KeyOf(r2, ip2)[0] == LabelOf(r2)[0];
      assert r1 == r2;
      var n := |LabelOf(r1)| + 1;
      assert KeyOf(r1, ip1)[n..] == ip1 && KeyOf(r2, ip2)[n..] == ip2;
    }
  }

  // ---------------------------------------------------------------------
  // Runs of requests
  // ---------------------------------------------------------------------

  datatype Hit = Hit(path: string, ip: string, now: int)

  function Serve(ws: Windows, h: Hit): (Option<Decision>, Windows) {
    match Choose(h.path)
    case None => (None, ws)
    case Some(r) =>
      var d := Limited(ws, KeyOf(r, h.ip), LimitOf(r), WindowOf(r), h.now);
      (Some(d.0), d.1)
  }

  function After(run: seq<Hit>): Windows {
    if run == [] then map[] else Serve(After(run[..|run| - 1]), run[|run| - 1]).1
  }

  predicate Concerns(h: Hit, r: Rule, ip: string) {
    Choose(h.path) == Some(r) && h.ip == ip
  }

  /** When this client asked under this rule. */
  function TimesOf(run: seq<Hit>, r: Rule, ip: string): seq<int> {
    if run == [] then []
    else
      var front, h := run[..|run| - 1], run[|run| - 1];
      TimesOf(front, r, ip) + if Concerns(h, r, ip) then [h.now] else []
  }

  /** When this client was let through under this rule. */
  function AdmittedOf(run: seq<Hit>, r: Rule, ip: string): seq<int> {
    if run == [] then []
    else
      var front, h := run[..|run| - 1], run[|run| - 1];
      var d := Serve(After(front), h).0;
      AdmittedOf(front, r, ip) + if Concerns(h, r, ip) && d.Some? && d.value.allowed then [h.now] else []
  }

  /** The clock does not run backwards. */
  predicate Clocked(run: seq<Hit>) {
    forall i, j :: 0 <= i < j < |run| ==> run[i].now <= run[j].now
  }

  lemma {:induction false} TimesAreClocked(run: seq<Hit>, r: Rule, ip: string, now: int)
    requires Clocked(run) && forall i :: 0 <= i < |run| ==> run[i].now <= now
    ensures Nondecreasing(TimesOf(run, r, ip)) && AllAtMost(TimesOf(run, r, ip), now)
  {
    if run != [] {
      TimesAreClocked(run[..|run| - 1], r, ip, run[|run| - 1].now);
    }
  }

  /**
   Clients and rules do not interfere: what is stored for one (rule, address)
   pair, and who was let through, is what the limiter makes of that pair's
   requests alone.
   */
  lemma {:induction false} RunsAreIndependent(run: seq<Hit>, r: Rule, ip: string)
    ensures var tr := Run(LimitOf(r), WindowOf(r), TimesOf(run, r, ip));
            StoredFor(After(run), KeyOf(r, ip)) == tr.stored && AdmittedOf(run, r, ip) == tr.log
  {
    if run != [] {
      var front, h := run[..|run| - 1], run[|run| - 1];
      RunsAreIndependent(front, r, ip);
      if Concerns(h, r, ip) {
        AppendTime(r, TimesOf(front, r, ip), h.now);
      } else {
        Unconcerned(After(front), h, r, ip);
        assert TimesOf(run, r, ip) == TimesOf(front, r, ip) + [] == TimesOf(front, r, ip);
        assert AdmittedOf(run, r, ip) == AdmittedOf(front, r, ip) + [] == AdmittedOf(front, r, ip);
      }
    }
  }

  /** Serving somebody else leaves this pair's list alone. */
  lemma Unconcerned(ws: Windows, h: Hit, r: Rule, ip: string)
    requires !Concerns(h, r, ip)
    ensures StoredFor(Serve(ws, h).1, KeyOf(r, ip)) == StoredFor(ws, KeyOf(r, ip))
  {
    match Choose(h.path)
    case None =>
    case Some(q) => KeysAreInjective(q, h.ip, r, ip);
  }

  lemma AppendTime(r: Rule, times: seq<int>, now: int)
    ensures Run(LimitOf(r), WindowOf(r), times + [now])
            == Step(Run(LimitOf(r), WindowOf(r), times), LimitOf(r), WindowOf(r), now)
  {
    assert (times + [now])[..|times|] == times;
  }

  /** The answer to a request depends only on that client's own requests under that rule. */
  lemma DecisionIsIndependent(run: seq<Hit>, h: Hit)
    ensures Serve(After(run), h).0 ==
            match Choose(h.path)
            case None => None
            case Some(r) =>
              Some(Check(Run(LimitOf(r), WindowOf(r), TimesOf(run, r, h.ip)).stored, LimitOf(r), WindowOf(r), h.now).0)
  {
    match Choose(h.path)
    case None =>
    case Some(r) => RunsAreIndependent(run, r, h.ip);
  }

  /** End to end: no client gets more than the rule's limit through in any window of the rule's length. */
  lemma ClientsStayWithinLimits(run: seq<Hit>, r: Rule, ip: string, a: int)
    requires Clocked(run)
    ensures Count(AdmittedOf(run, r, ip), a, a + WindowOf(r)) <= LimitOf(r)
  {
    RunsAreIndependent(run, r, ip);
    if run != [] { TimesAreClocked(run, r, ip, run[|run| - 1].now); }
    AtMostLimitPerWindow(LimitOf(r), WindowOf(r), TimesOf(run, r, ip), a);
  }

  // ---------------------------------------------------------------------
  // The rules by path and number
  // ---------------------------------------------------------------------

  /** The path is this one or below it. */
  predicate Under(path: string, base: string) {
    path == base || base + "/" <= path
  }

  lemma UnderIff(path: string, base: string)
    ensures SegmentPrefix(base, path) <==> Under(path, base)
  {
    if SegmentPrefix(base, path) && path != base {
      assert path == path[..|base|] + [path[|base|]] + path[|base| + 1..];
      assert (base + "/")[|base|] == '/';
    }
    if base + "/" <= path {
      assert path[..|base|] == (base + "/")[..|base|] == base;
      assert path[|base|] == (base + "/")[|base|];
    }
  }

  /** Catalog, uploads and sign-in each have their paths; no other path is limited. */
  lemma RuleByPath(path: string)
    ensures Choose(path) == Some(Marketplace) <==> Under(path, "/api/market-materials") || Under(path, "/api/subjects")
    ensures Choose(path) == Some(Upload) <==> Under(path, "/api/upload") || Under(path, "/api/creator/materials")
    ensures Choose(path) == Some(Auth) <==> "/api/auth/" <= path
  {
    UnderIff(path, "/api/market-materials");
    UnderIff(path, "/api/subjects");
    UnderIff(path, "/api/upload");
    UnderIff(path, "/api/creator/materials");
    if |path| > 5 { assert forall base: string :: base <= path && |base| > 5 ==> base[5] == path[5]; }
  }

  /** Requests admitted, and the milliseconds in which. */
  const NUMBERS: map<Rule, (int, int)> :=
    map[Marketplace := (100, 60 * 1000), Upload := (5, 60 * 60 * 1000), Auth := (20, 60 * 1000)]

  lemma RuleNumbers(r: Rule)
    ensures r in NUMBERS && LimitOf(r) == NUMBERS[r].0 && WindowOf(r) == NUMBERS[r].1
    ensures LimitOf(r) >= 1 && WindowOf(r) >= 1
  {
  }

  lemma CheckByNumber(r: Rule, times: seq<int>, now: int)
    requires Nondecreasing(times) && AllAtMost(times, now)
    ensures var tr := Run(LimitOf(r), WindowOf(r), times);
            var d := Check(tr.stored, LimitOf(r), WindowOf(r), now).0;
            && (d.allowed <==> |Window(tr.log, now - NUMBERS[r].1)| < NUMBERS[r].0)
            && d.limit == NUMBERS[r].0
  {
    RuleNumbers(r);
    PrunedDecidesLikeLog(LimitOf(r), WindowOf(r), times, now);
    DecisionSays(Run(LimitOf(r), WindowOf(r), times).stored, LimitOf(r), WindowOf(r), now);
  }

  lemma ServedByRule(run: seq<Hit>, h: Hit, r: Rule, d: Decision)
    requires Choose(h.path) == Some(r)
    requires d == Check(Run(LimitOf(r), WindowOf(r), TimesOf(run, r, h.ip)).stored, LimitOf(r), WindowOf(r), h.now).0
    ensures Serve(After(run), h).0 == Some(d)
  {
    DecisionIsIndependent(run, h);
  }

  /** What the client's own requests say, its admissions being those of the limiter run on them. */
  lemma OwnRequestsDecide(run: seq<Hit>, r: Rule, ip: string, now: int)
    requires Clocked(run) && forall i :: 0 <= i < |run| ==> run[i].now <= now
    ensures var d := Check(Run(LimitOf(r), WindowOf(r), TimesOf(run, r, ip)).stored, LimitOf(r), WindowOf(r), now).0;
            && (d.allowed <==> |Window(AdmittedOf(run, r, ip), now - NUMBERS[r].1)| < NUMBERS[r].0)
            && d.limit == NUMBERS[r].0
  {
    RunsAreIndependent(run, r, ip);
    TimesAreClocked(run, r, ip, now);
    CheckByNumber(r, TimesOf(run, r, ip), now);
  }

  /**
   A limited request is admitted exactly while its client has fewer admissions
   than the number of its rule in the time of its rule before it.
   */
  lemma AdmittedByNumber(run: seq<Hit>, h: Hit, r: Rule) returns (d: Decision)
    requires Clocked(run) && (forall i :: 0 <= i < |run| ==> run[i].now <= h.now) && Choose(h.path) == Some(r)
    ensures Serve(After(run), h).0 == Some(d)
    ensures d.allowed <==> |Window(AdmittedOf(run, r, h.ip), h.now - NUMBERS[r].1)| < NUMBERS[r].0
    ensures d.limit == NUMBERS[r].0
  {
    d := Check(Run(LimitOf(r), WindowOf(r), TimesOf(run, r, h.ip)).stored, LimitOf(r), WindowOf(r), h.now).0;
    OwnRequestsDecide(run, r, h.ip, h.now);
    ServedByRule(run, h, r, d);
  }

  /** The windows are kept under the name of the rule and the address. */
  lemma KeyByName(r: Rule, ip: string)
    ensures KeyOf(r, ip) ==
            match r
            case Marketplace => "marketplace:" + ip
            case Upload => "upload:" + ip
            case Auth => "auth:" + ip
  {
    match r
    case Marketplace => assert "marketplace" + ":" == "marketplace:";
    case Upload => assert "upload" + ":" == "upload:";
    case Auth => assert "auth" + ":" == "auth:";
  }

  /** `applyRateLimiting`: try the rules in order, answer with the first that applies. */
  method ApplyRateLimiting(limiter: Limiter, h: Hit) returns (d: Option<Decision>)
    modifies limiter
    ensures (d, limiter.windows) == Serve(old(limiter.windows), h)
  {
    for i := 0 to |RULES|
      invariant forall j :: 0 <= j < i ==> !Applies(RULES[j], h.path)
      invariant limiter.windows == old(limiter.windows)
    {
      var rule := RULES[i];
      if Applies(rule, h.path) {
        assert i > 0 ==> !Applies(RULES[0], h.path);
        assert i > 1 ==> !Applies(RULES[1], h.path);
        var result := limiter.SlidingWindowRateLimit(KeyOf(rule, h.ip), LimitOf(rule), WindowOf(rule), h.now);
        return Some(result);
      }
    }
    assert !Applies(RULES[0], h.path) && !Applies(RULES[1], h.path) && !Applies(RULES[2], h.path);
    return None;
  }
}
