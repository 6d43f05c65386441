/**
 The documented order of keys in the canonical text, lexicographic by code
 points, against the order that results: JavaScript lists array indices first
 and compares 16-bit units. When the two agree, for a whole payload.
 */
module KeyOrder {
  import opened Text
  import opened Sorting
  import opened Spelling
  import opened Values
  import opened Canonical

  // ---------------------------------------------------------------------
  // Code points
  // ---------------------------------------------------------------------

  predicate StartsPair(t: Text) {
    |t| >= 2 && High(t[0]) && Low(t[1])
  }

  function PairValue(high: Unit, low: Unit): nat
    requires High(high) && Low(low)
  {
    0x1_0000 + (high as int - 0xD800) * 0x400 + (low as int - 0xDC00)
  }

  /** Units the first code point takes. */
  function Width(t: Text): nat {
    if StartsPair(t) then 2 else 1
  }

  function FirstPoint(t: Text): nat
    requires t != []
  {
    if StartsPair(t) then PairValue(t[0], t[1]) else t[0] as nat
  }

  /** The code points of a string; a lone surrogate is one of its own. */
  function CodePoints(t: Text): seq<nat>
    decreases |t|
  {
    if t == [] then [] else [FirstPoint(t)] + CodePoints(t[Width(t)..])
  }

  predicate PointsLeq(a: seq<nat>, b: seq<nat>) {
    a == [] || (b != [] && (a[0] < b[0] || (a[0] == b[0] && PointsLeq(a[1..], b[1..]))))
  }

  // ---------------------------------------------------------------------
  // Units against code points
  // ---------------------------------------------------------------------

  /** The unit is half of a surrogate pair. */
  predicate Paired(t: Text, i: nat)
    requires i < |t|
  {
    (High(t[i]) && i + 1 < |t| && Low(t[i + 1])) || (Low(t[i]) && i > 0 && High(t[i - 1]))
  }

  /** The first position at which the two differ or one ends. */
  function FirstDiff(a: Text, b: Text): (i: nat)
    ensures i <= |a| && i <= |b|
    ensures i < |a| && i < |b| ==> a[i] != b[i]
  {
    if a == [] || b == [] || a[0] != b[0] then 0 else 1 + FirstDiff(a[1..], b[1..])
  }

  /** Where they first differ, the smaller unit is half of a surrogate pair and the larger is not. */
  predicate Crossed(a: Text, b: Text) {
    var i := FirstDiff(a, b);
    i < |a| && i < |b|
    && if a[i] < b[i] then Paired(a, i) && !Paired(b, i) else Paired(b, i) && !Paired(a, i)
  }

  lemma {:induction false} FirstDiffSymmetric(a: Text, b: Text)
    ensures FirstDiff(a, b) == FirstDiff(b, a)
  {
    if a != [] && b != [] && a[0] == b[0] { FirstDiffSymmetric(a[1..], b[1..]); }
  }

  lemma CrossedSymmetric(a: Text, b: Text)
    ensures Crossed(a, b) <==> Crossed(b, a)
  {
    FirstDiffSymmetric(a, b);
  }

  /** Behind a whole common code point nothing changes. */
  lemma CrossedTail(a: Text, b: Text)
    requires a != [] && b != [] && Width(a) == Width(b) && a[0] == b[0] && (StartsPair(a) ==> a[1] == b[1])
    ensures var n := Width(a); LexLeq(a, b) <==> LexLeq(a[n..], b[n..])
    ensures var n := Width(a); Crossed(a, b) <==> Crossed(a[n..], b[n..])
  {
    var n := Width(a);
    if n == 2 {
      assert a[1..][1..] == a[2..] && b[1..][1..] == b[2..];
    }
    var i := FirstDiff(a[n..], b[n..]);
    assert FirstDiff(a, b) == n + i;
    if i < |a[n..]| { PairedTail(a, n, i); }
    if i < |b[n..]| { PairedTail(b, n, i); }
  }

  lemma PairedTail(t: Text, n: nat, i: nat)
    requires t != [] && n == Width(t) && n + i < |t|
    ensures Paired(t, n + i) <==> Paired(t[n..], i)
  {
    assert t[n..][i] == t[n + i];
    if i > 0 { assert t[n..][i - 1] == t[n + i - 1]; }
  }

  /** Different code points in front, different units in front. */
  lemma FrontsDiffer(a: Text, b: Text)
    requires a != [] && b != [] && a[0] != b[0]
    ensures FirstPoint(a) != FirstPoint(b)
    ensures FirstPoint(a) < FirstPoint(b) <==> (LexLeq(a, b) != Crossed(a, b))
  {
    assert FirstDiff(a, b) == 0;
    assert Paired(a, 0) <==> StartsPair(a);
    assert Paired(b, 0) <==> StartsPair(b);
  }

  /** The same unit in front, but not the same code point. */
  lemma SecondsDiffer(a: Text, b: Text)
    requires a != [] && b != [] && a[0] == b[0] && StartsPair(a) && !(StartsPair(b) && b[1] == a[1])
    ensures FirstPoint(a) != FirstPoint(b)
    ensures FirstPoint(a) < FirstPoint(b) <==> (LexLeq(a, b) != Crossed(a, b))
  {
    assert FirstDiff(a, b) == 1;
    assert Paired(a, 1);
    if |b| > 1 {
      assert LexLeq(a, b) <==> a[1] < b[1];
      assert Low(b[1]) ==> Paired(b, 1);
      assert Paired(b, 1) && !Low(b[1]) ==> High(b[1]);
    }
  }

  lemma CrossedFronts(a: Text, b: Text)
    requires a != [] && b != [] && FirstPoint(a) != FirstPoint(b)
    ensures FirstPoint(a) < FirstPoint(b) <==> (LexLeq(a, b) != Crossed(a, b))
  {
    if a[0] != b[0] {
      FrontsDiffer(a, b);
    } else if StartsPair(a) {
      SecondsDiffer(a, b);
    } else {
      SecondsDiffer(b, a);
      CrossedSymmetric(a, b);
      LexTotal(a, b);
      if LexLeq(a, b) && LexLeq(b, a) { LexAntisymmetric(a, b); }
    }
  }

  lemma SamePointSameUnits(a: Text, b: Text)
    requires a != [] && b != [] && FirstPoint(a) == FirstPoint(b)
    ensures Width(a) == Width(b) && a[0] == b[0] && (StartsPair(a) ==> a[1] == b[1])
  {
    if a[0] != b[0] {
      FrontsDiffer(a, b);
    } else if StartsPair(a) {
      if !(StartsPair(b) && b[1] == a[1]) { SecondsDiffer(a, b); }
    } else if StartsPair(b) {
      SecondsDiffer(b, a);
    }
  }

  /** Code-point order is code-unit order, but for crossed texts. */
  lemma {:induction false} PointOrderIff(a: Text, b: Text)
    ensures PointsLeq(CodePoints(a), CodePoints(b)) <==> (LexLeq(a, b) != Crossed(a, b))
    decreases |a|
  {
    if a != [] && b != [] {
      var p, q := CodePoints(a), CodePoints(b);
      assert p[1..] == CodePoints(a[Width(a)..]) && q[1..] == CodePoints(b[Width(b)..]);
      if FirstPoint(a) == FirstPoint(b) {
        SamePointSameUnits(a, b);
        CrossedTail(a, b);
        PointOrderIff(a[Width(a)..], b[Width(b)..]);
      } else {
        CrossedFronts(a, b);
      }
    }
  }

  /** An array index is never crossed with anything: its units are digits. */
  lemma IndexIsNotCrossed(a: Text, b: Text)
    requires IsIndex(a)
    ensures !Crossed(a, b)
  {
    var i := FirstDiff(a, b);
    if i < |a| && i < |b| { assert IsDigit(a[i]); }
  }

  // ---------------------------------------------------------------------
  // One object
  // ---------------------------------------------------------------------

  /** No key comes before an array index but a smaller index. */
  predicate IndexFits(a: Text, b: Text) {
    IsIndex(b) && LexLeq(a, b) ==> IsIndex(a) && DigitsValue(a) <= DigitsValue(b)
  }

  predicate Fits(a: Text, b: Text) {
    IndexFits(a, b) && !Crossed(a, b)
  }

  ghost predicate AllIndexFit(es: seq<Entry>) {
    forall x, y :: x in es && y in es ==> IndexFits(x.key, y.key)
  }

  ghost predicate AllFit(es: seq<Entry>) {
    forall x, y :: x in es && y in es ==> Fits(x.key, y.key)
  }

  /** The order the documentation promises. */
  ghost predicate DocumentedOrder(es: seq<Entry>) {
    forall i, j :: 0 <= i < j < |es| ==> PointsLeq(CodePoints(es[i].key), CodePoints(es[j].key))
  }

  lemma SameEntries(a: seq<Entry>, b: seq<Entry>)
    requires multiset(a) == multiset(b)
    ensures forall x :: x in a <==> x in b
  {
    forall x ensures x in a <==> x in b {
      assert x in multiset(a) <==> x in multiset(b);
    }
  }

  lemma FitIsInOrder(s: seq<Entry>)
    requires Sorted(s, EntryKey) && AllIndexFit(s)
    ensures InOrder(s)
  {
    forall i, j | 0 <= i < j < |s| ensures Before(s[i].key, s[j].key) {
      assert LexLeq(EntryKey(s[i]), EntryKey(s[j]));
      assert IndexFits(s[i].key, s[j].key);
    }
  }

  lemma InOrderFits(s: seq<Entry>)
    requires Sorted(s, EntryKey) && InOrder(s)
    ensures AllIndexFit(s)
  {
    forall x, y | x in s && y in s ensures IndexFits(x.key, y.key) {
      var i :| 0 <= i < |s| && s[i] == x;
      var j :| 0 <= j < |s| && s[j] == y;
      if j < i {
        assert LexLeq(EntryKey(y), EntryKey(x));
        if LexLeq(x.key, y.key) { LexAntisymmetric(x.key, y.key); }
      }
    }
  }

  /** The members come out in code-unit order exactly when every array index fits. */
  lemma UnitOrderIff(es: seq<Entry>)
    requires DistinctKeys(es, EntryKey)
    ensures Arrange(es) == Sort(es, EntryKey) <==> AllIndexFit(es)
  {
    var s, r := Sort(es, EntryKey), Arrange(es);
    SortSorts(es, EntryKey);
    SameEntries(s, es);
    ArrangedInOrder(es);
    if AllIndexFit(es) {
      ArrangeKeepsEntries(es);
      FitIsInOrder(s);
      DistinctKeysInAnyOrder(es, s, EntryKey);
      OneOrder(s, r);
    }
    if r == s { InOrderFits(s); }
  }

  /** Two members in property order and in the documented order are in code-unit order, and not crossed. */
  lemma OrdersAgree(x: Text, y: Text)
    requires Before(x, y) && PointsLeq(CodePoints(x), CodePoints(y))
    ensures LexLeq(x, y) && !Crossed(x, y)
  {
    PointOrderIff(x, y);
    if IsIndex(x) { IndexIsNotCrossed(x, y); }
  }

  lemma DocumentedIsSorted(r: seq<Entry>)
    requires InOrder(r) && DocumentedOrder(r)
    ensures Sorted(r, EntryKey)
    ensures forall i, j :: 0 <= i < j < |r| ==> !Crossed(r[i].key, r[j].key)
  {
    forall i, j | 0 <= i < j < |r| ensures LexLeq(EntryKey(r[i]), EntryKey(r[j])) && !Crossed(r[i].key, r[j].key) {
      OrdersAgree(r[i].key, r[j].key);
    }
  }

  lemma NoneCrossed(r: seq<Entry>)
    requires forall i, j :: 0 <= i < j < |r| ==> !Crossed(r[i].key, r[j].key)
    ensures forall x, y :: x in r && y in r ==> !Crossed(x.key, y.key)
  {
    forall x, y | x in r && y in r ensures !Crossed(x.key, y.key) {
      var i :| 0 <= i < |r| && r[i] == x;
      var j :| 0 <= j < |r| && r[j] == y;
      CrossedSymmetric(x.key, y.key);
      if i == j { CrossedSelf(x.key); }
    }
  }

  lemma {:induction false} CrossedSelf(t: Text)
    ensures FirstDiff(t, t) == |t| && !Crossed(t, t)
  {
    if t != [] { CrossedSelf(t[1..]); }
  }

  /**
   The members come out in the documented order exactly when every array index
   fits and no two keys are crossed.
   */
  lemma PointOrderOfMembers(es: seq<Entry>)
    requires DistinctKeys(es, EntryKey)
    ensures DocumentedOrder(Arrange(es)) <==> AllFit(es)
  {
    var r := Arrange(es);
    ArrangedInOrder(es);
    ArrangeKeepsEntries(es);
    SameEntries(r, es);
    if DocumentedOrder(r) {
      DocumentedIsSorted(r);
      InOrderFits(r);
      NoneCrossed(r);
      forall x, y | x in es && y in es ensures Fits(x.key, y.key) {
        assert IndexFits(x.key, y.key);
      }
    }
    if AllFit(es) {
      UnitOrderIff(es);
      SortSorts(es, EntryKey);
      forall i, j | 0 <= i < j < |r| ensures PointsLeq(CodePoints(r[i].key), CodePoints(r[j].key)) {
        assert LexLeq(EntryKey(r[i]), EntryKey(r[j]));
        assert Fits(r[i].key, r[j].key);
        PointOrderIff(r[i].key, r[j].key);
      }
    }
  }

  // ---------------------------------------------------------------------
  // Two failing inputs
  // ---------------------------------------------------------------------

  lemma SortedPair(es: seq<Entry>)
    requires |es| == 2 && es[0].key != es[1].key && LexLeq(es[0].key, es[1].key)
    ensures DistinctKeys(es, EntryKey) && Sort(es, EntryKey) == es
  {
    assert Sorted(es, EntryKey);
    SortedIsFixed(es, EntryKey);
  }

  lemma Swapped(es: seq<Entry>, r: seq<Entry>)
    requires |es| == |r| == 2 && r[0] == es[1] && r[1] == es[0]
    ensures multiset(r) == multiset(es)
  {
    assert es == [es[0]] + [es[1]] && r == [es[1]] + [es[0]];
  }

  lemma ArrangedPair(es: seq<Entry>, r: seq<Entry>)
    requires |es| == |r| == 2 && r[0] == es[1] && r[1] == es[0]
    requires es[0].key != es[1].key && Before(r[0].key, r[1].key)
    ensures DistinctKeys(es, EntryKey) && Arrange(es) == r
  {
    Swapped(es, r);
    ArrangedInOrder(es);
    ArrangeKeepsEntries(es);
    OneOrder(r, Arrange(es));
  }

  const TEN: Text := [0x31, 0x30]
  const TWO: Text := [0x32]

  lemma IndexKeys()
    ensures IsIndex(TEN) && IsIndex(TWO) && LexLeq(TEN, TWO)
    ensures Before(TWO, TEN) && !IndexFits(TEN, TWO)
  {
    assert TEN[..1] == [0x31] && TEN[..1][..0] == [] && TWO[..0] == [];
    assert DigitsValue(TWO) == 2 && DigitsValue(TEN[..1]) == 1 && DigitsValue(TEN) == 10;
    assert TEN[0] < TWO[0];
  }

  /** The keys "10" and "2": sorted in this order, they come out in the other. */
  lemma IndicesComeOutByValue(es: seq<Entry>, r: seq<Entry>)
    requires |es| == |r| == 2 && es[0].key == TEN && es[1].key == TWO && r[0] == es[1] && r[1] == es[0]
    ensures Sort(es, EntryKey) == es && Arrange(es) == r && Arrange(es) != Sort(es, EntryKey)
    ensures !DocumentedOrder(Arrange(es))
  {
    IndexKeys();
    SortedPair(es);
    ArrangedPair(es, r);
    assert es[0] in es && es[1] in es;
    PointOrderOfMembers(es);
  }

  const TILDE: Text := [0xFF5E]
  const SMILE: Text := [0xD83D, 0xDE00]

  lemma SurrogateKeys()
    ensures CodePoints(TILDE) == [0xFF5E] && CodePoints(SMILE) == [0x1_F600]
    ensures !IsIndex(TILDE) && !IsIndex(SMILE) && LexLeq(SMILE, TILDE) && Crossed(TILDE, SMILE)
  {
    assert TILDE[1..] == [] && SMILE[2..] == [];
    assert SMILE[0] < TILDE[0];
    assert !IsDigit(TILDE[0]) && !IsDigit(SMILE[0]);
  }

  /** U+FF5E and U+1F600, neither an index: by units the second comes first, by code points the first. */
  lemma SurrogatesComeOutByUnit(es: seq<Entry>, r: seq<Entry>)
    requires |es| == |r| == 2 && es[0].key == TILDE && es[1].key == SMILE && r[0] == es[1] && r[1] == es[0]
    ensures Arrange(es) == r == Sort(es, EntryKey)
    ensures !DocumentedOrder(Arrange(es))
  {
    SurrogateKeys();
    ArrangedPair(es, r);
    assert es[0] in es && es[1] in es;
    assert !Fits(TILDE, SMILE);
    PointOrderOfMembers(es);
    forall x, y | x in es && y in es ensures IndexFits(x.key, y.key) {}
    UnitOrderIff(es);
  }

  // ---------------------------------------------------------------------
  // A whole payload
  // ---------------------------------------------------------------------

  /** Every object of the value lists its keys in the documented order. */
  ghost predicate Documented(v: Value) {
    match v
    case Arr(items) => forall i :: 0 <= i < |items| ==> Documented(items[i])
    case Obj(es) => DocumentedOrder(es) && forall i :: 0 <= i < |es| ==> Documented(es[i].value)
    case _ => true
  }

  /** In every object of the payload the folded keys fit, those of undefined members aside. */
  ghost predicate KeysFit(u: Unicode, v: Value) {
    match v
    case Arr(items) => forall i :: 0 <= i < |items| ==> KeysFit(u, items[i])
    case Obj(es) => FoldedFit(u, es) && forall i :: 0 <= i < |es| ==> KeysFit(u, es[i].value)
    case _ => true
  }

  ghost predicate FoldedFit(u: Unicode, es: seq<Entry>) {
    forall i, j :: 0 <= i < |es| && 0 <= j < |es| && !es[i].value.Undefined? && !es[j].value.Undefined? ==>
      Fits(FoldKey(u, es[i].key), FoldKey(u, es[j].key))
  }

  /** The members that stay. */
  ghost function KeptMembers(u: Unicode, o: Options, es: seq<Entry>): seq<Entry>
    requires MembersOk(u, o, es)
  {
    Filter(NormalMembers(u, o, es), IsUndefined, false)
  }

  lemma KeptMember(u: Unicode, o: Options, es: seq<Entry>, i: nat)
    requires MembersOk(u, o, es) && i < |es|
    ensures NormalMembers(u, o, es)[i] in KeptMembers(u, o, es) <==> !es[i].value.Undefined?
  {
    UndefinedStays(u, o, es[i].value);
    FilterMembers(NormalMembers(u, o, es), IsUndefined, false, NormalMembers(u, o, es)[i]);
  }

  lemma KeptFrom(u: Unicode, o: Options, es: seq<Entry>, x: Entry) returns (i: nat)
    requires MembersOk(u, o, es) && x in KeptMembers(u, o, es)
    ensures i < |es| && NormalMembers(u, o, es)[i] == x && !es[i].value.Undefined?
  {
    FilterMembers(NormalMembers(u, o, es), IsUndefined, false, x);
    i :| 0 <= i < |es| && NormalMembers(u, o, es)[i] == x;
    KeptMember(u, o, es, i);
  }

  lemma FoldedFitIff(u: Unicode, o: Options, es: seq<Entry>)
    requires MembersOk(u, o, es)
    ensures AllFit(KeptMembers(u, o, es)) <==> FoldedFit(u, es)
  {
    var ms := NormalMembers(u, o, es);
    if AllFit(KeptMembers(u, o, es)) {
      forall i, j | 0 <= i < |es| && 0 <= j < |es| && !es[i].value.Undefined? && !es[j].value.Undefined?
        ensures Fits(FoldKey(u, es[i].key), FoldKey(u, es[j].key))
      {
        KeptMember(u, o, es, i);
        KeptMember(u, o, es, j);
        assert Fits(ms[i].key, ms[j].key);
      }
    }
    if FoldedFit(u, es) {
      forall x, y | x in KeptMembers(u, o, es) && y in KeptMembers(u, o, es) ensures Fits(x.key, y.key) {
        var i := KeptFrom(u, o, es, x);
        var j := KeptFrom(u, o, es, y);
      }
    }
  }

  ghost predicate AllDocumented(es: seq<Entry>) {
    forall x :: x in es ==> Documented(x.value)
  }

  lemma ValuesDocumentedIff(u: Unicode, o: Options, es: seq<Entry>)
    requires MembersOk(u, o, es)
    requires forall i :: 0 <= i < |es| ==> (Documented(Normalize(u, o, es[i].value).value) <==> KeysFit(u, es[i].value))
    ensures AllDocumented(KeptMembers(u, o, es)) <==> forall i :: 0 <= i < |es| ==> KeysFit(u, es[i].value)
  {
    var ms := NormalMembers(u, o, es);
    if AllDocumented(KeptMembers(u, o, es)) {
      forall i | 0 <= i < |es| ensures KeysFit(u, es[i].value) {
        KeptMember(u, o, es, i);
        assert ms[i].value == Normalize(u, o, es[i].value).value;
      }
    }
    if forall i :: 0 <= i < |es| ==> KeysFit(u, es[i].value) {
      forall x | x in KeptMembers(u, o, es) ensures Documented(x.value) {
        var i := KeptFrom(u, o, es, x);
      }
    }
  }

  lemma DocumentedObject(kept: seq<Entry>)
    requires DistinctKeys(kept, EntryKey)
    ensures Documented(Obj(Arrange(kept))) <==> AllFit(kept) && AllDocumented(kept)
  {
    var r := Arrange(kept);
    PointOrderOfMembers(kept);
    ArrangeKeepsEntries(kept);
    SameEntries(r, kept);
    if Documented(Obj(r)) {
      forall x | x in kept ensures Documented(x.value) {
        var i :| 0 <= i < |r| && r[i] == x;
      }
    }
  }

  lemma DocumentedArray(o: Options, vs: seq<Value>)
    ensures Documented(FinishArray(o, vs)) <==> forall i :: 0 <= i < |vs| ==> Documented(vs[i])
  {
    if o.sortArrays && AllPrimitive(vs) {
      var ws := Sort(vs, Print);
      SortSorts(vs, Print);
      forall i | 0 <= i < |ws| ensures Documented(ws[i]) {
        var j := Find(ws, vs, i);
        assert IsPrimitive(vs[j]);
      }
      forall i | 0 <= i < |vs| ensures Documented(vs[i]) {
        assert IsPrimitive(vs[i]);
      }
    }
  }

  /**
   The canonical text of an accepted payload keeps the documented order of keys,
   at every depth, exactly when in each of its objects the folded keys fit.
   */
  lemma {:induction false} DocumentedIff(u: Unicode, o: Options, v: Value)
    requires Normalize(u, o, v).Ok?
    ensures Documented(Normalize(u, o, v).value) <==> KeysFit(u, v)
    decreases v
  {
    match v
    case Arr(items) =>
      var ws := NormalItems(u, o, items);
      forall i | 0 <= i < |items| ensures Documented(ws[i]) <==> KeysFit(u, items[i]) {
        DocumentedIff(u, o, items[i]);
      }
      DocumentedArray(o, ws);
    case Obj(es) =>
      forall i | 0 <= i < |es|
        ensures Documented(Normalize(u, o, es[i].value).value) <==> KeysFit(u, es[i].value)
      {
        DocumentedIff(u, o, es[i].value);
      }
      FoldedFitIff(u, o, es);
      ValuesDocumentedIff(u, o, es);
      KeptAreDistinct(u, o, es);
      DocumentedObject(KeptMembers(u, o, es));
    case _ =>
  }

  lemma KeptAreDistinct(u: Unicode, o: Options, es: seq<Entry>)
    requires DistinctFolds(u, es) && MembersOk(u, o, es)
    ensures DistinctKeys(KeptMembers(u, o, es), EntryKey)
    ensures FinishObject(NormalMembers(u, o, es)) == Obj(Arrange(KeptMembers(u, o, es)))
  {
    FilterDistinctKeys(NormalMembers(u, o, es), IsUndefined, false, EntryKey);
  }

  lemma TwoNulls(u: Unicode, o: Options, es: seq<Entry>)
    requires |es| == 2 && es[0].value == Null && es[1].value == Null && FoldKey(u, es[0].key) != FoldKey(u, es[1].key)
    ensures Normalize(u, o, Obj(es)).Ok?
  {
    assert DistinctFolds(u, es);
    assert MembersOk(u, o, es);
  }

  /** An accepted payload whose text is not in the documented order. */
  lemma IndexPayload(u: Unicode, o: Options, es: seq<Entry>)
    requires |es| == 2 && es[0] == Entry(TEN, Null) && es[1] == Entry(TWO, Null)
    ensures Normalize(u, o, Obj(es)).Ok? && !Documented(Normalize(u, o, Obj(es)).value)
  {
    IndexKeys();
    PlainKeyFolds(u, TEN);
    PlainKeyFolds(u, TWO);
    TwoNulls(u, o, es);
    assert !Fits(FoldKey(u, es[0].key), FoldKey(u, es[1].key));
    assert !FoldedFit(u, es);
    DocumentedIff(u, o, Obj(es));
  }
}
