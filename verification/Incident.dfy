/**
 Incident impact reports (src/lib/incident-impact.js): affected identifiers and
 severity aggregated over the events of a time window, and the redacted view.
 */
module Incident {
  import opened Wrappers
  import opened Text
  import opened Sorting

  datatype Severity = NoSeverity | Low | Medium | High | Critical

  function Weight(s: Severity): nat {
    match s
    case NoSeverity => 0
    case Low => 1
    case Medium => 2
    case High => 3
    case Critical => 4
  }

  function MaxSeverity(left: Severity, right: Severity): Severity {
    if Weight(left) >= Weight(right) then left else right
  }

  datatype Event = Event(
    id: Option<Text>,
    timestamp: Option<int>,
    severity: Severity,
    users: seq<Text>, userId: Option<Text>,
    records: seq<Text>, recordId: Option<Text>,
    operations: seq<Text>, operation: Option<Text>)

  datatype Incident = Incident(
    incidentId: Option<Text>,
    title: Option<Text>,
    severity: Severity,
    from: Option<int>, to: Option<int>,
    users: seq<Text>, records: seq<Text>, operations: seq<Text>,
    events: seq<Event>)

  predicate NonEmpty(t: Text) {
    t != []
  }

  /** Trimmed, and without what trims to nothing. */
  function ToStringArray(values: seq<Text>): seq<Text> {
    Filter(Map(values, Trim), NonEmpty, true)
  }

  function OptionArray(value: Option<Text>): seq<Text> {
    if value.Some? then ToStringArray([value.value]) else []
  }

  function UsersIn(e: Event): seq<Text> {
    ToStringArray(e.users) + OptionArray(e.userId)
  }

  function RecordsIn(e: Event): seq<Text> {
    ToStringArray(e.records) + OptionArray(e.recordId)
  }

  function OperationsIn(e: Event): seq<Text> {
    ToStringArray(e.operations) + OptionArray(e.operation)
  }

  predicate InWindow(e: Event, from: Option<int>, to: Option<int>) {
    e.timestamp.None?
    || ((from.None? || e.timestamp.value >= from.value) && (to.None? || e.timestamp.value <= to.value))
  }

  const SENSITIVE: seq<Text> :=
    [Ascii("download"), Ascii("purchase"), Ascii("refund"), Ascii("settlement"), Ascii("wallet_auth"),
     Ascii("entitlement_grant")]

  // ---------------------------------------------------------------------
  // Sets in insertion order
  // ---------------------------------------------------------------------

  function Add(s: seq<Text>, x: Text): seq<Text> {
    if x in s then s else s + [x]
  }

  function AddAll(s: seq<Text>, xs: seq<Text>): seq<Text>
    decreases |xs|
  {
    if xs == [] then s else Add(AddAll(s, xs[..|xs| - 1]), xs[|xs| - 1])
  }

  lemma {:induction false} AddAllMembers(s: seq<Text>, xs: seq<Text>)
    requires Distinct(s)
    ensures Distinct(AddAll(s, xs))
    ensures forall x :: x in AddAll(s, xs) <==> x in s || x in xs
    decreases |xs|
  {
    if xs != [] {
      AddAllMembers(s, xs[..|xs| - 1]);
      assert xs == xs[..|xs| - 1] + [xs[|xs| - 1]];
    }
  }

  function Itself(t: Text): Text {
    t
  }

  /** `Array.from(new Set(values)).sort()`. */
  function UniqueSorted(values: seq<Text>): seq<Text> {
    Sort(AddAll([], values), Itself)
  }

  ghost predicate StrictlySorted(s: seq<Text>) {
    Sorted(s, Itself) && Distinct(s)
  }

  lemma SortedSet(s: seq<Text>)
    requires Distinct(s)
    ensures StrictlySorted(Sort(s, Itself))
    ensures forall x :: x in Sort(s, Itself) <==> x in s
  {
    SortSorts(s, Itself);
    DistinctInAnyOrder(s, Sort(s, Itself));
    forall x ensures x in Sort(s, Itself) <==> x in s {
      assert x in multiset(s) <==> x in multiset(Sort(s, Itself));
    }
  }

  /** A set has one sorted listing. */
  lemma OneListing(a: seq<Text>, b: seq<Text>)
    requires StrictlySorted(a) && StrictlySorted(b) && forall x :: x in a <==> x in b
    ensures a == b
  {
    SameMembersPermute(a, b);
    SortedUnique(a, b, Itself);
  }

  /** Deduplicated and sorted: strictly ascending, with exactly the given members. */
  lemma UniqueSortedMeans(values: seq<Text>)
    ensures StrictlySorted(UniqueSorted(values))
    ensures forall x :: x in UniqueSorted(values) <==> x in values
  {
    AddAllMembers([], values);
    SortedSet(AddAll([], values));
  }

  // ---------------------------------------------------------------------
  // The report
  // ---------------------------------------------------------------------

  datatype Counts = Counts(users: nat, records: nat, operations: nat, events: nat)

  datatype Shareable = Shareable(
    incidentId: Text,
    severity: Severity,
    from: Option<int>, to: Option<int>,
    counts: Counts,
    affectedUsers: seq<Text>, affectedRecords: seq<Text>, affectedOperations: seq<Text>)

  /** An event as the internal report lists it. */
  datatype Listing = Listing(
    id: Option<Text>, timestamp: Option<int>, severity: Severity,
    users: seq<Text>, records: seq<Text>, operations: seq<Text>)

  datatype Internal = Internal(
    incidentId: Option<Text>,
    title: Option<Text>,
    severity: Severity,
    from: Option<int>, to: Option<int>,
    counts: Counts,
    affectedUsers: seq<Text>, affectedRecords: seq<Text>, affectedOperations: seq<Text>,
    events: seq<Listing>)

  datatype Report = Report(internal: Internal, shareable: Shareable)

  const REDACTED: Text := Ascii("redacted")
  const ELLIPSIS: Unit := 0x2026

  function Prefix4(t: Text): Text {
    if |t| < 4 then t else t[..4]
  }

  function Redact(t: Text): Text {
    if t == [] then REDACTED else Prefix4(t) + ([ELLIPSIS] + REDACTED)
  }

  /** What the loop over the events accumulates. */
  datatype Totals = Totals(
    users: seq<Text>, records: seq<Text>, operations: seq<Text>, severity: Severity, events: seq<Listing>)

  function ListingOf(e: Event): Listing {
    Listing(e.id, e.timestamp, e.severity,
            UniqueSorted(UsersIn(e)), UniqueSorted(RecordsIn(e)), UniqueSorted(OperationsIn(e)))
  }

  function Contribute(t: Totals, e: Event): Totals {
    Totals(AddAll(t.users, UsersIn(e)), AddAll(t.records, RecordsIn(e)), AddAll(t.operations, OperationsIn(e)),
           MaxSeverity(t.severity, e.severity), t.events + [ListingOf(e)])
  }

  function Accumulate(i: Incident, events: seq<Event>): Totals {
    if events == [] then
      Totals(AddAll([], ToStringArray(i.users)), AddAll([], ToStringArray(i.records)),
             AddAll([], ToStringArray(i.operations)), i.severity, [])
    else
      var t, e := Accumulate(i, events[..|events| - 1]), events[|events| - 1];
      if InWindow(e, i.from, i.to) then Contribute(t, e) else t
  }

  predicate HasSensitive(operations: seq<Text>) {
    exists k :: 0 <= k < |operations| && operations[k] in SENSITIVE
  }

  function FinalSeverity(t: Totals): Severity {
    if HasSensitive(t.operations) then MaxSeverity(t.severity, High) else t.severity
  }

  function Finish(i: Incident, t: Totals): Report {
    FinishAt(i, t, FinalSeverity(t))
  }

  function FinishAt(i: Incident, t: Totals, severity: Severity): Report {
    var users, records, operations := UniqueSorted(t.users), UniqueSorted(t.records), UniqueSorted(t.operations);
    var counts := Counts(|users|, |records|, |operations|, |t.events|);
    Report(
      Internal(i.incidentId, i.title, severity, i.from, i.to, counts, users, records, operations, t.events),
      Shareable(if i.incidentId.Some? then Redact(i.incidentId.value) else REDACTED,
                severity, i.from, i.to, counts,
                Map(users, Redact), Map(records, Redact), operations))
  }

  function BuildReport(i: Incident): Report {
    Finish(i, Accumulate(i, i.events))
  }

  /** A sensitive operation raises the severity to high at least. */
  method RaiseForSensitive(operations: seq<Text>, severity: Severity) returns (raised: Severity)
    ensures raised == if HasSensitive(operations) then MaxSeverity(severity, High) else severity
  {
    raised := severity;
    for n := 0 to |operations|
      invariant raised == if HasSensitive(operations[..n]) then MaxSeverity(severity, High) else severity
    {
      assert operations[..n + 1] == operations[..n] + [operations[n]];
      SensitiveAppend(operations[..n], operations[n]);
      if operations[n] in SENSITIVE { raised := MaxSeverity(raised, High); }
    }
    assert operations[..|operations|] == operations;
  }

  lemma AccumulateNext(i: Incident, n: nat)
    requires n < |i.events|
    ensures Accumulate(i, i.events[..n + 1]) ==
            if InWindow(i.events[n], i.from, i.to) then Contribute(Accumulate(i, i.events[..n]), i.events[n])
            else Accumulate(i, i.events[..n])
  {
    assert i.events[..n + 1][..n] == i.events[..n];
  }

  /** The loops of `buildReport`. */
  method CalculateIncidentImpact(i: Incident) returns (r: Report)
    ensures r == BuildReport(i)
  {
    var users := AddAll([], ToStringArray(i.users));
    var records := AddAll([], ToStringArray(i.records));
    var operations := AddAll([], ToStringArray(i.operations));
    var severity := i.severity;
    var events: seq<Listing> := [];
    for n := 0 to |i.events|
      invariant Totals(users, records, operations, severity, events) == Accumulate(i, i.events[..n])
    {
      var e := i.events[n];
      AccumulateNext(i, n);
      if InWindow(e, i.from, i.to) {
        users := AddAll(users, UsersIn(e));
        records := AddAll(records, RecordsIn(e));
        operations := AddAll(operations, OperationsIn(e));
        severity := MaxSeverity(severity, e.severity);
        events := events + [ListingOf(e)];
      }
    }
    assert i.events[..|i.events|] == i.events;
    var floor := RaiseForSensitive(operations, severity);
    return FinishAt(i, Totals(users, records, operations, severity, events), floor);
  }

  lemma SensitiveAppend(ops: seq<Text>, op: Text)
    ensures HasSensitive(ops + [op]) <==> HasSensitive(ops) || op in SENSITIVE
  {
    var all := ops + [op];
    if HasSensitive(ops) {
      var k :| 0 <= k < |ops| && ops[k] in SENSITIVE;
      assert all[k] in SENSITIVE;
    }
    if op in SENSITIVE { assert all[|ops|] in SENSITIVE; }
  }

  // ---------------------------------------------------------------------
  // What the totals mean
  // ---------------------------------------------------------------------

  /** Some event of the window has the property. */
  ghost predicate SomeEvent(i: Incident, events: seq<Event>, p: Event -> bool) {
    exists k :: 0 <= k < |events| && InWindow(events[k], i.from, i.to) && p(events[k])
  }

  lemma SomeEventAppend(i: Incident, events: seq<Event>, e: Event, p: Event -> bool)
    ensures SomeEvent(i, events + [e], p) <==> SomeEvent(i, events, p) || (InWindow(e, i.from, i.to) && p(e))
  {
    var all := events + [e];
    if SomeEvent(i, events, p) {
      var k :| 0 <= k < |events| && InWindow(events[k], i.from, i.to) && p(events[k]);
      assert all[k] == events[k];
    }
    if InWindow(e, i.from, i.to) && p(e) { assert all[|events|] == e; }
  }

  function Mentions(pick: Event -> seq<Text>, x: Text): Event -> bool {
    (e: Event) => x in pick(e)
  }

  /** The accumulated lists hold the incident's own identifiers and those of the events in the window. */
  lemma {:induction false} TotalsMembers(i: Incident, events: seq<Event>, x: Text)
    ensures var t := Accumulate(i, events);
            && Distinct(t.users) && Distinct(t.records) && Distinct(t.operations)
            && (x in t.users <==> x in ToStringArray(i.users) || SomeEvent(i, events, Mentions(UsersIn, x)))
            && (x in t.records <==> x in ToStringArray(i.records) || SomeEvent(i, events, Mentions(RecordsIn, x)))
            && (x in t.operations <==>
                  x in ToStringArray(i.operations) || SomeEvent(i, events, Mentions(OperationsIn, x)))
    decreases |events|
  {
    if events == [] {
      AddAllMembers([], ToStringArray(i.users));
      AddAllMembers([], ToStringArray(i.records));
      AddAllMembers([], ToStringArray(i.operations));
    } else {
      var front, e := events[..|events| - 1], events[|events| - 1];
      var t := Accumulate(i, front);
      assert events == front + [e];
      TotalsMembers(i, front, x);
      SomeEventAppend(i, front, e, Mentions(UsersIn, x));
      SomeEventAppend(i, front, e, Mentions(RecordsIn, x));
      SomeEventAppend(i, front, e, Mentions(OperationsIn, x));
      AddAllMembers(t.users, UsersIn(e));
      AddAllMembers(t.records, RecordsIn(e));
      AddAllMembers(t.operations, OperationsIn(e));
    }
  }

  function AtLeast(s: Severity): Event -> bool {
    (e: Event) => Weight(e.severity) >= Weight(s)
  }

  /** The accumulated severity is the highest among the incident's and those of the events in the window. */
  lemma {:induction false} TotalsSeverity(i: Incident, events: seq<Event>, s: Severity)
    ensures Weight(Accumulate(i, events).severity) >= Weight(s) <==>
            Weight(i.severity) >= Weight(s) || SomeEvent(i, events, AtLeast(s))
    decreases |events|
  {
    if events != [] {
      var front, e := events[..|events| - 1], events[|events| - 1];
      assert events == front + [e];
      TotalsSeverity(i, front, s);
      SomeEventAppend(i, front, e, AtLeast(s));
    }
  }

  function InWindowOf(i: Incident): Event -> bool {
    (e: Event) => InWindow(e, i.from, i.to)
  }

  /** The events of the window are listed, each as it is, in their order. */
  lemma {:induction false} TotalsEvents(i: Incident, events: seq<Event>)
    ensures Accumulate(i, events).events == Map(Filter(events, InWindowOf(i), true), ListingOf)
    decreases |events|
  {
    if events != [] {
      var front, e := events[..|events| - 1], events[|events| - 1];
      assert events == front + [e];
      TotalsEvents(i, front);
      FilterAppend(front, [e], InWindowOf(i), true);
      MapConcat(Filter(front, InWindowOf(i), true), Filter([e], InWindowOf(i), true), ListingOf);
    }
  }

  /**
   What the report says: exactly the identifiers of the incident and of the
   events in its window, and the highest severity among them, raised to high by
   a sensitive operation.
   */
  lemma ReportMeans(i: Incident, x: Text, s: Severity)
    ensures var r := BuildReport(i).internal;
            && (x in r.affectedUsers <==> x in ToStringArray(i.users) || SomeEvent(i, i.events, Mentions(UsersIn, x)))
            && (x in r.affectedRecords <==>
                  x in ToStringArray(i.records) || SomeEvent(i, i.events, Mentions(RecordsIn, x)))
            && (x in r.affectedOperations <==>
                  x in ToStringArray(i.operations) || SomeEvent(i, i.events, Mentions(OperationsIn, x)))
            && (Weight(r.severity) >= Weight(s) <==>
                  || Weight(i.severity) >= Weight(s) || SomeEvent(i, i.events, AtLeast(s))
                  || (Weight(s) <= Weight(High) && HasSensitive(r.affectedOperations)))
            && r.events == Map(Filter(i.events, InWindowOf(i), true), ListingOf)
            && r.counts.events == |r.events|
  {
    var t := Accumulate(i, i.events);
    TotalsMembers(i, i.events, x);
    TotalsSeverity(i, i.events, s);
    TotalsEvents(i, i.events);
    UniqueSortedMeans(t.users);
    UniqueSortedMeans(t.records);
    UniqueSortedMeans(t.operations);
    SensitiveSet(t.operations, UniqueSorted(t.operations));
  }

  // ---------------------------------------------------------------------
  // Order independence
  // ---------------------------------------------------------------------

  lemma SomeEventInAnyOrder(i: Incident, a: seq<Event>, b: seq<Event>, p: Event -> bool)
    requires multiset(a) == multiset(b) && SomeEvent(i, a, p)
    ensures SomeEvent(i, b, p)
  {
    var k :| 0 <= k < |a| && InWindow(a[k], i.from, i.to) && p(a[k]);
    var j := Find(a, b, k);
  }

  lemma MembersInAnyOrder(i: Incident, a: seq<Event>, b: seq<Event>, x: Text)
    requires multiset(a) == multiset(b)
    ensures var s, t := Accumulate(i, a), Accumulate(i, b);
            (x in s.users <==> x in t.users) && (x in s.records <==> x in t.records)
            && (x in s.operations <==> x in t.operations)
  {
    TotalsMembers(i, a, x);
    TotalsMembers(i, b, x);
    EitherOrder(i, a, b, Mentions(UsersIn, x));
    EitherOrder(i, a, b, Mentions(RecordsIn, x));
    EitherOrder(i, a, b, Mentions(OperationsIn, x));
  }

  lemma EitherOrder(i: Incident, a: seq<Event>, b: seq<Event>, p: Event -> bool)
    requires multiset(a) == multiset(b)
    ensures SomeEvent(i, a, p) <==> SomeEvent(i, b, p)
  {
    if SomeEvent(i, a, p) { SomeEventInAnyOrder(i, a, b, p); }
    if SomeEvent(i, b, p) { SomeEventInAnyOrder(i, b, a, p); }
  }

  lemma SeverityInAnyOrder(i: Incident, a: seq<Event>, b: seq<Event>)
    requires multiset(a) == multiset(b)
    ensures Accumulate(i, a).severity == Accumulate(i, b).severity
  {
    var s, t := Accumulate(i, a).severity, Accumulate(i, b).severity;
    TotalsSeverity(i, a, t);
    TotalsSeverity(i, b, t);
    TotalsSeverity(i, a, s);
    TotalsSeverity(i, b, s);
    EitherOrder(i, a, b, AtLeast(s));
    EitherOrder(i, a, b, AtLeast(t));
  }

  lemma SensitiveSet(a: seq<Text>, b: seq<Text>)
    requires forall x :: x in a <==> x in b
    ensures HasSensitive(a) <==> HasSensitive(b)
  {
    if HasSensitive(a) {
      var k :| 0 <= k < |a| && a[k] in SENSITIVE;
      assert a[k] in a && a[k] in b;
      var j :| 0 <= j < |b| && b[j] == a[k];
    }
    if HasSensitive(b) {
      var k :| 0 <= k < |b| && b[k] in SENSITIVE;
      assert b[k] in b && b[k] in a;
      var j :| 0 <= j < |a| && a[j] == b[k];
    }
  }

  lemma SameListing(a: seq<Text>, b: seq<Text>)
    requires forall x :: x in a <==> x in b
    ensures UniqueSorted(a) == UniqueSorted(b)
  {
    UniqueSortedMeans(a);
    UniqueSortedMeans(b);
    OneListing(UniqueSorted(a), UniqueSorted(b));
  }

  /** Permuting the events changes nothing in the shareable report. */
  lemma ShareableIgnoresEventOrder(i: Incident, events: seq<Event>)
    requires multiset(events) == multiset(i.events)
    ensures BuildReport(i.(events := events)).shareable == BuildReport(i).shareable
  {
    var j := i.(events := events);
    AccumulateReads(i, j, events);
    var s, t := Accumulate(i, events), Accumulate(i, i.events);
    forall x ensures (x in s.users <==> x in t.users) && (x in s.records <==> x in t.records)
                     && (x in s.operations <==> x in t.operations)
    {
      MembersInAnyOrder(i, events, i.events, x);
    }
    SeverityInAnyOrder(i, events, i.events);
    TotalsEvents(i, events);
    TotalsEvents(i, i.events);
    FilterMultiset(events, i.events, InWindowOf(i), true);
    SameLength(Filter(events, InWindowOf(i), true), Filter(i.events, InWindowOf(i), true));
    SensitiveSet(s.operations, t.operations);
    SameListing(s.users, t.users);
    SameListing(s.records, t.records);
    SameListing(s.operations, t.operations);
  }

  /** Accumulating looks at the incident's events only through its second argument. */
  lemma {:induction false} AccumulateReads(i: Incident, j: Incident, events: seq<Event>)
    requires j == i.(events := j.events)
    ensures Accumulate(j, events) == Accumulate(i, events)
    decreases |events|
  {
    if events != [] { AccumulateReads(i, j, events[..|events| - 1]); }
  }

  // ---------------------------------------------------------------------
  // What the redacted view reveals
  // ---------------------------------------------------------------------

  lemma {:induction false} PrefixMonotone(a: Text, b: Text, n: nat)
    requires LexLeq(a, b)
    ensures LexLeq(if |a| < n then a else a[..n], if |b| < n then b else b[..n])
  {
    if a != [] && n > 0 {
      var p, q := if |a| < n then a else a[..n], if |b| < n then b else b[..n];
      assert p[0] == a[0] && q[0] == b[0];
      if a[0] == b[0] {
        PrefixMonotone(a[1..], b[1..], n - 1);
        assert p[1..] == if |a[1..]| < n - 1 then a[1..] else a[1..][..n - 1];
        assert q[1..] == if |b[1..]| < n - 1 then b[1..] else b[1..][..n - 1];
      }
    }
  }

  /** Sorting full identifiers sorts their prefixes. */
  lemma PrefixesSorted(s: seq<Text>)
    requires Sorted(s, Itself)
    ensures Sorted(Map(s, Prefix4), Itself)
  {
    var r := Map(s, Prefix4);
    forall i, j | 0 <= i < j < |r| ensures LexLeq(Itself(r[i]), Itself(r[j])) {
      assert LexLeq(Itself(s[i]), Itself(s[j]));
      PrefixMonotone(s[i], s[j], 4);
    }
  }

  lemma RedactIff(a: Text, b: Text)
    requires a != [] && b != []
    ensures Redact(a) == Redact(b) <==> Prefix4(a) == Prefix4(b)
  {
    var tail := [ELLIPSIS] + REDACTED;
    if Redact(a) == Redact(b) {
      assert |Prefix4(a)| == |Prefix4(b)|;
      assert (Prefix4(a) + tail)[..|Prefix4(a)|] == Prefix4(a);
      assert (Prefix4(b) + tail)[..|Prefix4(b)|] == Prefix4(b);
    }
  }

  /** A one-to-one correspondence between two sets of identifiers that keeps the first four units. */
  ghost predicate Corresponds(f: map<Text, Text>, a: seq<Text>, b: seq<Text>) {
    && |a| == |b|
    && (forall i :: 0 <= i < |a| ==> a[i] in f && f[a[i]] in b && Prefix4(f[a[i]]) == Prefix4(a[i]))
    && (forall i, j :: 0 <= i < j < |a| ==> f[a[i]] != f[a[j]])
  }

  ghost predicate Indistinguishable(a: seq<Text>, b: seq<Text>) {
    exists f :: Corresponds(f, a, b)
  }

  function Image(f: map<Text, Text>): Text -> Text {
    (x: Text) => if x in f then f[x] else x
  }

  lemma CorrespondingPrefixes(f: map<Text, Text>, a: seq<Text>, b: seq<Text>)
    requires StrictlySorted(a) && StrictlySorted(b) && Corresponds(f, a, b)
    ensures Map(a, Prefix4) == Map(b, Prefix4)
  {
    var t := Map(a, Image(f));
    assert Distinct(t) by {
      forall i, j | 0 <= i < j < |t| ensures t[i] != t[j] {
        assert f[a[i]] != f[a[j]];
      }
    }
    Permutes(t, b);
    MapMultiset(t, b, Prefix4);
    forall i | 0 <= i < |a| ensures Map(t, Prefix4)[i] == Map(a, Prefix4)[i] {
      assert t[i] == f[a[i]];
    }
    assert Map(t, Prefix4) == Map(a, Prefix4);
    PrefixesSorted(a);
    PrefixesSorted(b);
    SortedUnique(Map(a, Prefix4), Map(b, Prefix4), Itself);
  }

  lemma Pairing(a: seq<Text>, b: seq<Text>, n: nat) returns (f: map<Text, Text>)
    requires Distinct(a) && Distinct(b) && |a| == |b| && n <= |a|
    ensures forall i :: 0 <= i < n ==> a[i] in f && f[a[i]] == b[i]
  {
    f := map[];
    for k := 0 to n
      invariant forall i :: 0 <= i < k ==> a[i] in f && f[a[i]] == b[i]
    {
      f := f[a[k] := b[k]];
    }
  }

  /** Two sorted identifier lists redact alike exactly when such a correspondence exists. */
  lemma RedactedListsAgreeIff(a: seq<Text>, b: seq<Text>)
    requires StrictlySorted(a) && StrictlySorted(b)
    requires (forall i :: 0 <= i < |a| ==> a[i] != []) && (forall i :: 0 <= i < |b| ==> b[i] != [])
    ensures Map(a, Redact) == Map(b, Redact) <==> Indistinguishable(a, b)
  {
    if Map(a, Redact) == Map(b, Redact) {
      assert |Map(a, Redact)| == |Map(b, Redact)|;
      var f := Pairing(a, b, |a|);
      forall i | 0 <= i < |a| ensures Prefix4(b[i]) == Prefix4(a[i]) {
        assert Map(a, Redact)[i] == Map(b, Redact)[i];
        RedactIff(a[i], b[i]);
      }
      assert Corresponds(f, a, b);
    }
    if Indistinguishable(a, b) {
      var f :| Corresponds(f, a, b);
      CorrespondingPrefixes(f, a, b);
      forall i | 0 <= i < |a| ensures Redact(a[i]) == Redact(b[i]) {
        assert Map(a, Prefix4)[i] == Map(b, Prefix4)[i];
        RedactIff(a[i], b[i]);
      }
    }
  }

  lemma NoEmptyIdentifier(values: seq<Text>)
    ensures [] !in ToStringArray(values)
  {
  }

  lemma {:induction false} ListsAreGood(i: Incident)
    ensures var r := BuildReport(i).internal;
            && StrictlySorted(r.affectedUsers) && StrictlySorted(r.affectedRecords)
            && [] !in r.affectedUsers && [] !in r.affectedRecords
  {
    var t := Accumulate(i, i.events);
    TotalsMembers(i, i.events, []);
    UniqueSortedMeans(t.users);
    UniqueSortedMeans(t.records);
    NoEmptyIdentifier(i.users);
    NoEmptyIdentifier(i.records);
    forall e: Event ensures [] !in UsersIn(e) && [] !in RecordsIn(e) {
      NoEmptyIdentifier(e.users);
      NoEmptyIdentifier(e.records);
    }
  }

  /**
   Two incidents get the same shareable report exactly when everything it shows
   openly agrees and their users, and their records, correspond one to one with
   equal first four units: nothing else about the identifiers shows.
   */
  lemma ShareableAgreesIff(i: Incident, j: Incident)
    ensures var r, s := BuildReport(i), BuildReport(j);
            r.shareable == s.shareable <==>
              && r.shareable.incidentId == s.shareable.incidentId
              && r.internal.severity == s.internal.severity
              && i.from == j.from && i.to == j.to
              && r.internal.counts.events == s.internal.counts.events
              && r.internal.affectedOperations == s.internal.affectedOperations
              && Indistinguishable(r.internal.affectedUsers, s.internal.affectedUsers)
              && Indistinguishable(r.internal.affectedRecords, s.internal.affectedRecords)
  {
    ListsAreGood(i);
    ListsAreGood(j);
    var r, s := BuildReport(i).internal, BuildReport(j).internal;
    RedactedListsAgreeIff(r.affectedUsers, s.affectedUsers);
    RedactedListsAgreeIff(r.affectedRecords, s.affectedRecords);
    assert |Map(r.affectedUsers, Redact)| == |r.affectedUsers| && |Map(s.affectedUsers, Redact)| == |s.affectedUsers|;
    assert |Map(r.affectedRecords, Redact)| == |r.affectedRecords|
           && |Map(s.affectedRecords, Redact)| == |s.affectedRecords|;
  }

  // ---------------------------------------------------------------------
  // The report by name
  // ---------------------------------------------------------------------

  const RANKING: seq<Severity> := [NoSeverity, Low, Medium, High, Critical]

  /** Of two severities the one further up the ranking is taken. */
  lemma HigherSeverityWins(j: nat, k: nat)
    requires j < |RANKING| && k < |RANKING|
    ensures MaxSeverity(RANKING[j], RANKING[k]) == RANKING[if j < k then k else j]
    ensures Weight(RANKING[j]) <= Weight(RANKING[k]) <==> j <= k
  {
    assert forall n :: 0 <= n < |RANKING| ==> Weight(RANKING[n]) == n;
  }

  /** Both ends of the window belong to it; a missing end or time stamp excludes nothing. */
  lemma InWindowIff(e: Event, from: Option<int>, to: Option<int>)
    ensures InWindow(e, from, to) <==>
              !(e.timestamp.Some? && from.Some? && e.timestamp.value < from.value)
              && !(e.timestamp.Some? && to.Some? && to.value < e.timestamp.value)
  {
  }

  lemma SensitiveByName(op: Text)
    ensures op in SENSITIVE <==>
              || op == Ascii("purchase") || op == Ascii("refund") || op == Ascii("settlement")
              || op == Ascii("download") || op == Ascii("wallet_auth") || op == Ascii("entitlement_grant")
  {
    assert SENSITIVE[0] == Ascii("download") && SENSITIVE[1] == Ascii("purchase") && SENSITIVE[2] == Ascii("refund");
    assert SENSITIVE[3] == Ascii("settlement") && SENSITIVE[4] == Ascii("wallet_auth");
    assert SENSITIVE[5] == Ascii("entitlement_grant");
  }

  /** Some raw identifier trims to `x`. */
  ghost predicate Given(values: seq<Text>, single: Option<Text>, x: Text) {
    x != [] && ((exists t :: t in values && Trim(t) == x) || (single.Some? && Trim(single.value) == x))
  }

  lemma TrimmedIff(values: seq<Text>, x: Text)
    ensures x in ToStringArray(values) <==> x != [] && exists t :: t in values && Trim(t) == x
  {
    var ts := Map(values, Trim);
    FilterMembers(ts, NonEmpty, true, x);
    if x in ts {
      var i :| 0 <= i < |ts| && ts[i] == x;
      assert values[i] in values && Trim(values[i]) == x;
    }
    if t :| t in values && Trim(t) == x {
      var i :| 0 <= i < |values| && values[i] == t;
      assert ts[i] == x;
    }
  }

  lemma SingleIff(single: Option<Text>, x: Text)
    ensures x in OptionArray(single) <==> x != [] && single.Some? && Trim(single.value) == x
  {
    if single.Some? {
      TrimmedIff([single.value], x);
      assert single.value in [single.value];
    }
  }

  /** An event mentions exactly its trimmed identifiers, from the list and the single field alike. */
  lemma EventMentions(e: Event, x: Text)
    ensures x in UsersIn(e) <==> Given(e.users, e.userId, x)
    ensures x in RecordsIn(e) <==> Given(e.records, e.recordId, x)
    ensures x in OperationsIn(e) <==> Given(e.operations, e.operation, x)
  {
    TrimmedIff(e.users, x);
    TrimmedIff(e.records, x);
    TrimmedIff(e.operations, x);
    SingleIff(e.userId, x);
    SingleIff(e.recordId, x);
    SingleIff(e.operation, x);
  }

  ghost predicate GivenByEvents(i: Incident, values: Event -> seq<Text>, single: Event -> Option<Text>, x: Text) {
    exists k :: 0 <= k < |i.events| && InWindow(i.events[k], i.from, i.to)
                && Given(values(i.events[k]), single(i.events[k]), x)
  }

  lemma SameEvents(i: Incident, p: Event -> bool, values: Event -> seq<Text>, single: Event -> Option<Text>, x: Text)
    requires forall e :: p(e) <==> Given(values(e), single(e), x)
    ensures SomeEvent(i, i.events, p) <==> GivenByEvents(i, values, single, x)
  {
    if SomeEvent(i, i.events, p) {
      var k :| 0 <= k < |i.events| && InWindow(i.events[k], i.from, i.to) && p(i.events[k]);
      assert Given(values(i.events[k]), single(i.events[k]), x);
    }
    if GivenByEvents(i, values, single, x) {
      var k :| 0 <= k < |i.events| && InWindow(i.events[k], i.from, i.to)
               && Given(values(i.events[k]), single(i.events[k]), x);
      assert p(i.events[k]);
    }
  }

  /** The report's lists in terms of the raw identifiers of the incident and of the events in its window. */
  lemma AffectedIff(i: Incident, x: Text)
    ensures var r := BuildReport(i).internal;
            && (x in r.affectedUsers <==>
                  Given(i.users, None, x) || GivenByEvents(i, (e: Event) => e.users, (e: Event) => e.userId, x))
            && (x in r.affectedRecords <==>
                  Given(i.records, None, x) || GivenByEvents(i, (e: Event) => e.records, (e: Event) => e.recordId, x))
            && (x in r.affectedOperations <==>
                  || Given(i.operations, None, x)
                  || GivenByEvents(i, (e: Event) => e.operations, (e: Event) => e.operation, x))
  {
    ReportMeans(i, x, NoSeverity);
    TrimmedIff(i.users, x);
    TrimmedIff(i.records, x);
    TrimmedIff(i.operations, x);
    forall e: Event
      ensures x in UsersIn(e) <==> Given(e.users, e.userId, x)
      ensures x in RecordsIn(e) <==> Given(e.records, e.recordId, x)
      ensures x in OperationsIn(e) <==> Given(e.operations, e.operation, x)
    {
      EventMentions(e, x);
    }
    SameEvents(i, Mentions(UsersIn, x), (e: Event) => e.users, (e: Event) => e.userId, x);
    SameEvents(i, Mentions(RecordsIn, x), (e: Event) => e.records, (e: Event) => e.recordId, x);
    SameEvents(i, Mentions(OperationsIn, x), (e: Event) => e.operations, (e: Event) => e.operation, x);
  }

  /** The redacted identifiers, in the same order. */
  predicate Redacted(shown: seq<Text>, full: seq<Text>) {
    |shown| == |full| && forall k :: 0 <= k < |full| ==> shown[k] == Redact(full[k])
  }

  /** The shareable report shows what is open in the internal one, and redacted identifiers. */
  predicate Shows(i: Incident, r: Internal, s: Shareable) {
    && r.incidentId == i.incidentId && r.title == i.title && r.from == i.from && r.to == i.to
    && s.from == i.from && s.to == i.to && s.severity == r.severity && s.counts == r.counts
    && s.affectedOperations == r.affectedOperations
    && Redacted(s.affectedUsers, r.affectedUsers) && Redacted(s.affectedRecords, r.affectedRecords)
    && s.incidentId == if i.incidentId.Some? then Redact(i.incidentId.value) else REDACTED
  }

  lemma FinishShows(i: Incident, t: Totals, severity: Severity)
    ensures var r := FinishAt(i, t, severity);
            && Shows(i, r.internal, r.shareable)
            && r.internal.counts.users == |r.internal.affectedUsers|
            && r.internal.counts.records == |r.internal.affectedRecords|
            && r.internal.counts.operations == |r.internal.affectedOperations|
            && r.internal.counts.events == |r.internal.events|
  {
  }

  /** Counts are sizes, and the shareable report shows no more of the identifiers than their redacted form. */
  lemma ReportShows(i: Incident)
    ensures var r := BuildReport(i);
            && Shows(i, r.internal, r.shareable)
            && r.internal.counts.users == |r.internal.affectedUsers|
            && r.internal.counts.records == |r.internal.affectedRecords|
            && r.internal.counts.operations == |r.internal.affectedOperations|
            && r.internal.counts.events == |r.internal.events|
  {
    var t := Accumulate(i, i.events);
    FinishShows(i, t, FinalSeverity(t));
  }

  /** An event is listed with its own id, time and severity, and with its identifiers sorted and without repetition. */
  lemma ListingSays(e: Event, x: Text)
    ensures var l := ListingOf(e);
            && l.id == e.id && l.timestamp == e.timestamp && l.severity == e.severity
            && StrictlySorted(l.users) && (x in l.users <==> Given(e.users, e.userId, x))
            && StrictlySorted(l.records) && (x in l.records <==> Given(e.records, e.recordId, x))
            && StrictlySorted(l.operations) && (x in l.operations <==> Given(e.operations, e.operation, x))
  {
    UniqueSortedMeans(UsersIn(e));
    UniqueSortedMeans(RecordsIn(e));
    UniqueSortedMeans(OperationsIn(e));
    EventMentions(e, x);
  }

  /** Four units, an ellipsis and the word "redacted"; an empty identifier is just the word. */
  lemma RedactionShows(t: Text)
    ensures REDACTED == Ascii("redacted") && (t == [] ==> Redact(t) == Ascii("redacted"))
    ensures 1 <= |t| <= 4 ==> Redact(t) == t + ([0x2026] + Ascii("redacted"))
    ensures |t| > 4 ==> Redact(t) == [t[0], t[1], t[2], t[3]] + ([0x2026] + Ascii("redacted"))
  {
    if |t| == 4 { assert t[..4] == t; }
    if |t| > 4 { assert t[..4] == [t[0], t[1], t[2], t[3]]; }
  }
}
