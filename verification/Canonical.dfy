/**
 Canonical data (`normalizePayload` of src/lib/canonical.js): what a payload
 becomes, and the normal forms, described without reference to the normalizer.
 */
module Canonical {
  import opened Text
  import opened Sorting
  import opened Spelling
  import opened Values

  datatype Options = Options(sortArrays: bool, dropUndefined: bool)

  datatype Outcome<+T> = Ok(value: T) | Rejected

  // ---------------------------------------------------------------------
  // Property order
  // ---------------------------------------------------------------------

  function EntryKey(e: Entry): Text {
    e.key
  }

  /** An array index in the sense of ECMAScript: the decimal form of 0 .. 2^32 - 2. */
  predicate IsIndex(k: Text) {
    && 1 <= |k| <= 10
    && (forall i :: 0 <= i < |k| ==> IsDigit(k[i]))
    && (|k| > 1 ==> k[0] != 0x30)
    && DigitsValue(k) < 0xFFFF_FFFF
  }

  predicate HasIndexKey(e: Entry) {
    IsIndex(e.key)
  }

  /** Orders decimal forms by value: shorter first, then digit by digit. */
  function IndexRank(e: Entry): Text {
    [if |e.key| < 0x1_0000 then |e.key| as Unit else 0xFFFF] + e.key
  }

  /** Enumeration order of an object filled by these insertions: indices ascending, then the rest. */
  function OwnOrder(es: seq<Entry>): seq<Entry> {
    Sort(Filter(es, HasIndexKey, true), IndexRank) + Filter(es, HasIndexKey, false)
  }

  /** The own properties of the object the source builds from these members. */
  function Arrange(es: seq<Entry>): seq<Entry> {
    OwnOrder(Sort(es, EntryKey))
  }

  lemma ArrangeKeepsEntries(es: seq<Entry>)
    ensures multiset(Arrange(es)) == multiset(es)
  {
    var s := Sort(es, EntryKey);
    SortSorts(es, EntryKey);
    SortSorts(Filter(s, HasIndexKey, true), IndexRank);
    FilterSplits(s, HasIndexKey);
  }

  lemma ArrangeIgnoresOrder(a: seq<Entry>, b: seq<Entry>)
    requires multiset(a) == multiset(b) && DistinctKeys(a, EntryKey)
    ensures Arrange(a) == Arrange(b)
  {
    DistinctKeysSplit(a, EntryKey);
    SortIgnoresOrder(a, b, EntryKey);
  }

  /** Property order of ECMAScript objects: array indices by value, then other keys by code units. */
  ghost predicate Before(a: Text, b: Text) {
    if IsIndex(a) then !IsIndex(b) || DigitsValue(a) <= DigitsValue(b)
    else !IsIndex(b) && LexLeq(a, b)
  }

  function Pow10(n: nat): nat {
    if n == 0 then 1 else 10 * Pow10(n - 1)
  }

  /** The leading digit carries the highest power of ten. */
  lemma {:induction false} LeadingDigit(t: Text)
    requires t != [] && forall i :: 0 <= i < |t| ==> IsDigit(t[i])
    ensures DigitsValue(t) == DigitValue(t[0]) * Pow10(|t| - 1) + DigitsValue(t[1..])
    ensures DigitsValue(t) < Pow10(|t|)
  {
    var n := |t| - 1;
    if n == 0 {
      assert t[..0] == [] && t[1..] == [];
      assert Pow10(1) == 10 * Pow10(0);
    } else {
      LeadingDigit(t[..n]);
      assert t[1..][..n - 1] == t[..n][1..];
      assert DigitsValue(t[1..]) == DigitsValue(t[..n][1..]) * 10 + DigitValue(t[n]);
      ScaleByTen(DigitValue(t[0]), Pow10(n - 1));
    }
  }

  lemma ScaleByTen(d: nat, p: nat)
    ensures d * (10 * p) == (d * p) * 10
  {
  }

  lemma {:induction false} Pow10Grows(m: nat, n: nat)
    requires m <= n
    ensures Pow10(m) <= Pow10(n)
  {
    if m < n { Pow10Grows(m, n - 1); }
  }

  lemma {:induction false} MulMonotone(c: nat, d: nat, p: nat)
    requires c <= d
    ensures c * p <= d * p
    decreases d - c
  {
    if c < d {
      MulMonotone(c, d - 1, p);
      assert d * p == (d - 1) * p + p;
    }
  }

  lemma DigitStep(c: nat, d: nat, p: nat, r: nat)
    requires c < d && r < p
    ensures c * p + r < d * p
  {
    MulMonotone(c + 1, d, p);
    assert (c + 1) * p == c * p + p;
  }

  /** On texts of digits of one length, code-unit order is numeric order. */
  lemma {:induction false} LexIsNumeric(a: Text, b: Text)
    requires |a| == |b| && LexLeq(a, b)
    requires (forall i :: 0 <= i < |a| ==> IsDigit(a[i])) && (forall i :: 0 <= i < |b| ==> IsDigit(b[i]))
    ensures a == b || DigitsValue(a) < DigitsValue(b)
  {
    if a != [] {
      LeadingDigit(a);
      LeadingDigit(b);
      if a[0] == b[0] {
        LexIsNumeric(a[1..], b[1..]);
        assert a == [a[0]] + a[1..] && b == [b[0]] + b[1..];
      } else {
        if |a| > 1 { LeadingDigit(a[1..]); } else { assert a[1..] == []; }
        DigitStep(DigitValue(a[0]), DigitValue(b[0]), Pow10(|a| - 1), DigitsValue(a[1..]));
      }
    }
  }

  lemma ShorterIsSmaller(a: Text, b: Text)
    requires IsIndex(a) && IsIndex(b) && |a| < |b|
    ensures DigitsValue(a) < DigitsValue(b)
  {
    LeadingDigit(a);
    LeadingDigit(b);
    Pow10Grows(|a|, |b| - 1);
    AtLeastOne(DigitValue(b[0]), Pow10(|b| - 1));
  }

  lemma AtLeastOne(d: nat, p: nat)
    requires d >= 1
    ensures p <= d * p
  {
    MulMonotone(1, d, p);
  }

  lemma RankIsNumeric(x: Entry, y: Entry)
    requires IsIndex(x.key) && IsIndex(y.key) && LexLeq(IndexRank(x), IndexRank(y))
    ensures x.key == y.key || DigitsValue(x.key) < DigitsValue(y.key)
  {
    var a, b := IndexRank(x), IndexRank(y);
    assert a[0] == |x.key| as Unit && b[0] == |y.key| as Unit;
    assert a[1..] == x.key && b[1..] == y.key;
    if |x.key| == |y.key| { LexIsNumeric(x.key, y.key); } else { ShorterIsSmaller(x.key, y.key); }
  }

  /** No key stands before another one that must come first. */
  ghost predicate InOrder(es: seq<Entry>) {
    forall i, j :: 0 <= i < j < |es| ==> Before(es[i].key, es[j].key)
  }

  /** The arranged members are in property order. */
  lemma ArrangedInOrder(es: seq<Entry>)
    ensures InOrder(Arrange(es))
  {
    var s := Sort(es, EntryKey);
    var indices, others := Sort(Filter(s, HasIndexKey, true), IndexRank), Filter(s, HasIndexKey, false);
    SortSorts(es, EntryKey);
    FilterSorted(s, HasIndexKey, false, EntryKey);
    SortSorts(Filter(s, HasIndexKey, true), IndexRank);
    forall i | 0 <= i < |indices| ensures IsIndex(indices[i].key) {
      var k := Find(indices, Filter(s, HasIndexKey, true), i);
    }
    var r := Arrange(es);
    assert r == indices + others;
    forall i, j | 0 <= i < j < |r| ensures Before(r[i].key, r[j].key) {
      if j < |indices| {
        assert LexLeq(IndexRank(indices[i]), IndexRank(indices[j]));
        RankIsNumeric(indices[i], indices[j]);
      } else if i >= |indices| {
        assert LexLeq(EntryKey(others[i - |indices|]), EntryKey(others[j - |indices|]));
      }
    }
  }

  /** A text whose code-unit order is the property order. */
  function OrderKey(e: Entry): Text {
    if IsIndex(e.key) then [0] + IndexRank(e) else [1] + e.key
  }

  lemma BeforeIsLex(x: Entry, y: Entry)
    requires Before(x.key, y.key)
    ensures LexLeq(OrderKey(x), OrderKey(y))
  {
    if IsIndex(x.key) && IsIndex(y.key) {
      LexTotal(IndexRank(x), IndexRank(y));
      LexReflexive(IndexRank(x));
      if LexLeq(IndexRank(y), IndexRank(x)) { RankIsNumeric(y, x); }
      assert OrderKey(x)[1..] == IndexRank(x) && OrderKey(y)[1..] == IndexRank(y);
    } else if !IsIndex(x.key) {
      assert OrderKey(x)[1..] == x.key && OrderKey(y)[1..] == y.key;
    }
  }

  lemma OrderKeyTellsKeys(x: Entry, y: Entry)
    requires OrderKey(x) == OrderKey(y)
    ensures x.key == y.key
  {
    var a, b := OrderKey(x), OrderKey(y);
    assert a[0] == b[0] && a[1..] == b[1..];
    if IsIndex(x.key) {
      assert a[1..] == IndexRank(x) && b[1..] == IndexRank(y);
      assert IndexRank(x)[1..] == x.key && IndexRank(y)[1..] == y.key;
    } else {
      assert a[1..] == x.key && b[1..] == y.key;
    }
  }

  /** Members in property order are in the order of their order keys. */
  lemma InOrderIsSorted(es: seq<Entry>)
    requires InOrder(es)
    ensures Sorted(es, OrderKey)
  {
    forall i, j | 0 <= i < j < |es| ensures LexLeq(OrderKey(es[i]), OrderKey(es[j])) {
      BeforeIsLex(es[i], es[j]);
    }
  }

  lemma DistinctOrderKeys(es: seq<Entry>)
    requires DistinctKeys(es, EntryKey)
    ensures KeyInjective(es, OrderKey)
  {
    DistinctKeysSplit(es, EntryKey);
    forall i, j | 0 <= i < |es| && 0 <= j < |es| && OrderKey(es[i]) == OrderKey(es[j]) ensures es[i] == es[j] {
      OrderKeyTellsKeys(es[i], es[j]);
      assert EntryKey(es[i]) == EntryKey(es[j]);
    }
  }

  /** There is one way to put members with distinct keys in property order. */
  lemma OneOrder(a: seq<Entry>, b: seq<Entry>)
    requires multiset(a) == multiset(b) && DistinctKeys(a, EntryKey) && InOrder(a) && InOrder(b)
    ensures a == b
  {
    InOrderIsSorted(a);
    InOrderIsSorted(b);
    DistinctOrderKeys(a);
    SortedUnique(a, b, OrderKey);
  }

  /** Members already in property order stay as they are; nothing else does. */
  lemma InOrderIff(es: seq<Entry>)
    requires DistinctKeys(es, EntryKey)
    ensures Arrange(es) == es <==> InOrder(es)
  {
    ArrangedInOrder(es);
    ArrangeKeepsEntries(es);
    if InOrder(es) { OneOrder(es, Arrange(es)); }
  }

  // ---------------------------------------------------------------------
  // Normalization
  // ---------------------------------------------------------------------

  function NormalizeNumber(n: int): Outcome<Value> {
    if -MAX_MAGNITUDE <= n <= MAX_MAGNITUDE then Ok(Num(n)) else Rejected
  }

  predicate IsPrimitive(v: Value) {
    v.Null? || v.Str? || v.Num? || v.Bool?
  }

  predicate AllPrimitive(vs: seq<Value>) {
    forall i :: 0 <= i < |vs| ==> IsPrimitive(vs[i])
  }

  predicate IsUndefined(e: Entry) {
    e.value.Undefined?
  }

  function FinishArray(o: Options, vs: seq<Value>): Value {
    Arr(if o.sortArrays && AllPrimitive(vs) then Sort(vs, Print) else vs)
  }

  function FinishObject(es: seq<Entry>): Value {
    Obj(Arrange(Filter(es, IsUndefined, false)))
  }

  predicate DistinctFolds(u: Unicode, es: seq<Entry>) {
    forall i, j :: 0 <= i < j < |es| ==> FoldKey(u, es[i].key) != FoldKey(u, es[j].key)
  }

  function Normalize(u: Unicode, o: Options, v: Value): Outcome<Value>
    decreases v, 1
  {
    match v
    case Null => Ok(Null)
    case Bool(_) => Ok(v)
    case Str(s) => Ok(Str(NormalizeString(u, s)))
    case Num(n) => NormalizeNumber(n)
    case Big(n) => NormalizeNumber(n)
    case NegZero => Ok(Num(0))
    case Instant(iso) => Ok(Str(iso))
    case Undefined => if o.dropUndefined then Ok(Undefined) else Rejected
    case Arr(items) =>
      if ItemsOk(u, o, items) then Ok(FinishArray(o, NormalItems(u, o, items))) else Rejected
    case Obj(es) =>
      if DistinctFolds(u, es) && MembersOk(u, o, es) then Ok(FinishObject(NormalMembers(u, o, es))) else Rejected
    case _ => Rejected
  }

  predicate ItemsOk(u: Unicode, o: Options, items: seq<Value>)
    decreases items, 0
  {
    forall i :: 0 <= i < |items| ==> Normalize(u, o, items[i]).Ok?
  }

  predicate MembersOk(u: Unicode, o: Options, es: seq<Entry>)
    decreases es, 0
  {
    forall i :: 0 <= i < |es| ==> Normalize(u, o, es[i].value).Ok?
  }

  /** The normalized items, in place. */
  function NormalItems(u: Unicode, o: Options, items: seq<Value>): (r: seq<Value>)
    requires ItemsOk(u, o, items)
    ensures |r| == |items|
    decreases items, 1
  {
    seq(|items|, i requires 0 <= i < |items| => Normalize(u, o, items[i]).value)
  }

  /** The folded and normalized members, in place. */
  function NormalMembers(u: Unicode, o: Options, es: seq<Entry>): (r: seq<Entry>)
    requires MembersOk(u, o, es)
    ensures |r| == |es|
    decreases es, 1
  {
    seq(|es|, i requires 0 <= i < |es| => Entry(FoldKey(u, es[i].key), Normalize(u, o, es[i].value).value))
  }

  /** Only undefined becomes undefined. */
  lemma UndefinedStays(u: Unicode, o: Options, v: Value)
    requires Normalize(u, o, v).Ok?
    ensures Normalize(u, o, v).value.Undefined? <==> v.Undefined?
  {
  }

  // ---------------------------------------------------------------------
  // Normal forms
  // ---------------------------------------------------------------------

  /** Canonical data, described without reference to the normalizer. */
  ghost predicate IsNormal(u: Unicode, o: Options, v: Value) {
    match v
    case Null => true
    case Bool(_) => true
    case Num(n) => -MAX_MAGNITUDE <= n <= MAX_MAGNITUDE
    case Str(s) => NormalizeString(u, s) == s
    case Undefined => o.dropUndefined
    case Arr(items) =>
      && (forall i :: 0 <= i < |items| ==> IsNormal(u, o, items[i]))
      && (o.sortArrays && AllPrimitive(items) ==> Sorted(items, Print))
    case Obj(es) =>
      && DistinctKeys(es, EntryKey)
      && InOrder(es)
      && (forall i :: 0 <= i < |es| ==>
            FoldKey(u, es[i].key) == es[i].key && !es[i].value.Undefined? && IsNormal(u, o, es[i].value))
    case _ => false
  }

  ghost predicate NormalMember(u: Unicode, o: Options, e: Entry) {
    FoldKey(u, e.key) == e.key && !e.value.Undefined? && IsNormal(u, o, e.value)
  }

  lemma {:induction false} NormalizeGivesNormal(u: Unicode, o: Options, v: Value)
    requires Normalize(u, o, v).Ok?
    ensures IsNormal(u, o, Normalize(u, o, v).value)
    decreases v
  {
    match v
    case Str(s) => NormalizeStringIdempotent(u, s);
    case Instant(iso) => PlainWordIsNormal(u, iso);
    case Arr(items) =>
      forall i | 0 <= i < |items| ensures IsNormal(u, o, Normalize(u, o, items[i]).value) {
        NormalizeGivesNormal(u, o, items[i]);
      }
      FinishedArrayIsNormal(u, o, NormalItems(u, o, items));
    case Obj(es) =>
      forall i | 0 <= i < |es|
        ensures IsNormal(u, o, Normalize(u, o, es[i].value).value)
        ensures FoldKey(u, FoldKey(u, es[i].key)) == FoldKey(u, es[i].key)
      {
        NormalizeGivesNormal(u, o, es[i].value);
        FoldKeyIdempotent(u, es[i].key);
      }
      FinishedObjectIsNormal(u, o, NormalMembers(u, o, es));
    case _ =>
  }

  lemma FinishedArrayIsNormal(u: Unicode, o: Options, vs: seq<Value>)
    requires forall i :: 0 <= i < |vs| ==> IsNormal(u, o, vs[i])
    ensures IsNormal(u, o, FinishArray(o, vs))
  {
    if o.sortArrays && AllPrimitive(vs) {
      var ws := Sort(vs, Print);
      SortSorts(vs, Print);
      forall i | 0 <= i < |ws| ensures IsNormal(u, o, ws[i]) {
        var j := Find(ws, vs, i);
      }
    }
  }

  lemma FinishedObjectIsNormal(u: Unicode, o: Options, es: seq<Entry>)
    requires DistinctKeys(es, EntryKey)
    requires forall i :: 0 <= i < |es| ==> FoldKey(u, es[i].key) == es[i].key && IsNormal(u, o, es[i].value)
    ensures IsNormal(u, o, FinishObject(es))
  {
    var kept := Filter(es, IsUndefined, false);
    var r := Arrange(kept);
    FilterDistinctKeys(es, IsUndefined, false, EntryKey);
    ArrangeKeepsEntries(kept);
    DistinctKeysInAnyOrder(kept, r, EntryKey);
    ArrangedInOrder(kept);
    forall i | 0 <= i < |r| ensures NormalMember(u, o, r[i]) {
      var j := Find(r, kept, i);
      assert kept[j] in es && !IsUndefined(kept[j]);
    }
    assert forall i :: 0 <= i < |r| ==> NormalMember(u, o, r[i]);
  }

  lemma {:induction false} NormalIsFixed(u: Unicode, o: Options, v: Value)
    requires IsNormal(u, o, v)
    ensures Normalize(u, o, v) == Ok(v)
    decreases v
  {
    match v
    case Arr(items) =>
      forall i | 0 <= i < |items| ensures Normalize(u, o, items[i]) == Ok(items[i]) {
        NormalIsFixed(u, o, items[i]);
      }
      NormalArrayIsFixed(u, o, items);
    case Obj(es) =>
      forall i | 0 <= i < |es| ensures Normalize(u, o, es[i].value) == Ok(es[i].value) {
        NormalIsFixed(u, o, es[i].value);
      }
      NormalObjectIsFixed(u, o, es);
    case _ =>
  }

  lemma NormalObjectIsFixed(u: Unicode, o: Options, es: seq<Entry>)
    requires IsNormal(u, o, Obj(es))
    requires forall i :: 0 <= i < |es| ==> Normalize(u, o, es[i].value) == Ok(es[i].value)
    ensures Normalize(u, o, Obj(es)) == Ok(Obj(es))
  {
    NormalMembersAreFixed(u, o, es);
    FilterKeepsAll(es, IsUndefined, false);
    InOrderIff(es);
  }

  lemma NormalArrayIsFixed(u: Unicode, o: Options, items: seq<Value>)
    requires IsNormal(u, o, Arr(items))
    requires forall i :: 0 <= i < |items| ==> Normalize(u, o, items[i]) == Ok(items[i])
    ensures Normalize(u, o, Arr(items)) == Ok(Arr(items))
  {
    assert NormalItems(u, o, items) == items;
    if o.sortArrays && AllPrimitive(items) {
      PrintSeparatesPrimitives(u, o, items);
      SortedIsFixed(items, Print);
    }
  }

  lemma NormalMembersAreFixed(u: Unicode, o: Options, es: seq<Entry>)
    requires DistinctKeys(es, EntryKey)
    requires forall i :: 0 <= i < |es| ==>
      FoldKey(u, es[i].key) == es[i].key && Normalize(u, o, es[i].value) == Ok(es[i].value)
    ensures DistinctFolds(u, es) && NormalMembers(u, o, es) == es
  {
    forall i, j | 0 <= i < j < |es| ensures FoldKey(u, es[i].key) != FoldKey(u, es[j].key) {
      assert EntryKey(es[i]) != EntryKey(es[j]);
    }
  }

  lemma PrintSeparatesPrimitives(u: Unicode, o: Options, vs: seq<Value>)
    requires AllPrimitive(vs) && forall i :: 0 <= i < |vs| ==> IsNormal(u, o, vs[i])
    ensures KeyInjective(vs, Print)
  {
    forall i, j | 0 <= i < |vs| && 0 <= j < |vs| && Print(vs[i]) == Print(vs[j]) ensures vs[i] == vs[j] {
      PrintInjective(vs[i], vs[j]);
    }
  }

  /** Normal forms are exactly the fixed points of normalization. */
  lemma NormalIff(u: Unicode, o: Options, v: Value)
    ensures IsNormal(u, o, v) <==> Normalize(u, o, v) == Ok(v)
  {
    if IsNormal(u, o, v) {
      NormalIsFixed(u, o, v);
    } else if Normalize(u, o, v).Ok? {
      NormalizeGivesNormal(u, o, v);
    }
  }

  /** Normalizing twice is normalizing once. */
  lemma Idempotent(u: Unicode, o: Options, v: Value)
    requires Normalize(u, o, v).Ok?
    ensures Normalize(u, o, Normalize(u, o, v).value) == Normalize(u, o, v)
  {
    NormalizeGivesNormal(u, o, v);
    NormalIsFixed(u, o, Normalize(u, o, v).value);
  }
}
