/**
 The canonical text: `canonicalize`, what equality of texts means
 (`isCanonicallyEqual`), and the loops of `normalizeValue`.
 */
module CanonicalText {
  import opened Wrappers
  import opened Text
  import opened Sorting
  import opened Spelling
  import opened Values
  import opened Canonical

  /** `JSON.stringify` at the top: an omitted value gives `undefined`. */
  function Stringify(v: Value): Option<Text> {
    if Omitted(v) then None else Some(Print(v))
  }

  function Canonicalize(u: Unicode, o: Options, v: Value): Outcome<Option<Text>> {
    TextOf(Normalize(u, o, v))
  }

  function TextOf(r: Outcome<Value>): Outcome<Option<Text>> {
    match r
    case Ok(w) => Ok(Stringify(w))
    case Rejected => Rejected
  }

  predicate SameText(x: Outcome<Option<Text>>, y: Outcome<Option<Text>>) {
    x.Ok? && y.Ok? && x.value == y.value
  }

  /** Rejections are caught and count as "not equal". */
  predicate IsCanonicallyEqual(u: Unicode, o: Options, a: Value, b: Value) {
    SameText(Canonicalize(u, o, a), Canonicalize(u, o, b))
  }

  // ---------------------------------------------------------------------
  // What the text determines
  // ---------------------------------------------------------------------

  /** Array items that are `undefined` read as null. */
  function Nulled(v: Value): Value {
    match v
    case Undefined => Null
    case Arr(items) => Arr(seq(|items|, i requires 0 <= i < |items| => Nulled(items[i])))
    case Obj(es) => Obj(seq(|es|, i requires 0 <= i < |es| => Entry(es[i].key, Nulled(es[i].value))))
    case _ => v
  }

  function NulledItems(items: seq<Value>): (r: seq<Value>)
    ensures |r| == |items| && forall i :: 0 <= i < |items| ==> r[i] == Nulled(items[i])
  {
    seq(|items|, i requires 0 <= i < |items| => Nulled(items[i]))
  }

  function NulledMembers(es: seq<Entry>): (r: seq<Entry>)
    ensures |r| == |es| && forall i :: 0 <= i < |es| ==> r[i] == Entry(es[i].key, Nulled(es[i].value))
  {
    seq(|es|, i requires 0 <= i < |es| => Entry(es[i].key, Nulled(es[i].value)))
  }

  lemma {:induction false} NulledIsJson(u: Unicode, o: Options, v: Value)
    requires IsNormal(u, o, v)
    ensures IsJson(Nulled(v))
    ensures !o.dropUndefined ==> Nulled(v) == v
    decreases v
  {
    match v
    case Arr(items) =>
      assert Nulled(v) == Arr(NulledItems(items));
      forall i | 0 <= i < |items|
        ensures IsJson(Nulled(items[i])) && (!o.dropUndefined ==> Nulled(items[i]) == items[i])
      {
        NulledIsJson(u, o, items[i]);
      }
      assert !o.dropUndefined ==> NulledItems(items) == items;
    case Obj(es) =>
      assert Nulled(v) == Obj(NulledMembers(es));
      forall i | 0 <= i < |es|
        ensures IsJson(Nulled(es[i].value)) && (!o.dropUndefined ==> Nulled(es[i].value) == es[i].value)
      {
        NulledIsJson(u, o, es[i].value);
      }
      assert !o.dropUndefined ==> NulledMembers(es) == es;
    case _ =>
  }

  lemma {:induction false} PrintNulled(u: Unicode, o: Options, v: Value)
    requires IsNormal(u, o, v)
    ensures Print(Nulled(v)) == Print(v)
    decreases v, 1
  {
    match v
    case Arr(items) =>
      assert Nulled(v) == Arr(NulledItems(items));
      PrintNulledItems(u, o, items, false);
    case Obj(es) =>
      assert Nulled(v) == Obj(NulledMembers(es));
      PrintNulledMembers(u, o, es, false);
    case _ =>
  }

  lemma {:induction false} PrintNulledItems(u: Unicode, o: Options, items: seq<Value>, comma: bool)
    requires forall i :: 0 <= i < |items| ==> IsNormal(u, o, items[i])
    ensures PrintItems(NulledItems(items), comma) == PrintItems(items, comma)
    decreases items, 0
  {
    if items != [] {
      PrintNulled(u, o, items[0]);
      PrintNulledItems(u, o, items[1..], true);
      assert NulledItems(items)[1..] == NulledItems(items[1..]);
    }
  }

  lemma {:induction false} PrintNulledMembers(u: Unicode, o: Options, es: seq<Entry>, comma: bool)
    requires forall i :: 0 <= i < |es| ==> IsNormal(u, o, es[i].value) && !es[i].value.Undefined?
    ensures PrintMembers(NulledMembers(es), comma) == PrintMembers(es, comma)
    decreases es, 0
  {
    if es != [] {
      PrintNulled(u, o, es[0].value);
      PrintNulledMembers(u, o, es[1..], true);
      assert NulledMembers(es)[1..] == NulledMembers(es[1..]);
      NulledNotOmitted(u, o, es[0].value);
    }
  }

  lemma NulledNotOmitted(u: Unicode, o: Options, v: Value)
    requires IsNormal(u, o, v) && !v.Undefined?
    ensures !Omitted(v) && !Omitted(Nulled(v))
  {
  }

  lemma EqualNormalTexts(u: Unicode, o: Options, x: Value, y: Value)
    requires IsNormal(u, o, x) && IsNormal(u, o, y)
    ensures Print(x) == Print(y) <==> Nulled(x) == Nulled(y)
    ensures Omitted(x) == x.Undefined? && Omitted(y) == y.Undefined?
  {
    NulledIsJson(u, o, x);
    NulledIsJson(u, o, y);
    PrintNulled(u, o, x);
    PrintNulled(u, o, y);
    if Print(x) == Print(y) {
      PrintInjective(Nulled(x), Nulled(y));
    }
  }

  /** What equality of texts says about two outcomes of normalization. */
  ghost predicate SameUpToNull(x: Outcome<Value>, y: Outcome<Value>) {
    && x.Ok? && y.Ok?
    && (x.value.Undefined? <==> y.value.Undefined?)
    && Nulled(x.value) == Nulled(y.value)
  }

  lemma SameOutcomeText(u: Unicode, o: Options, x: Outcome<Value>, y: Outcome<Value>)
    requires x.Ok? ==> IsNormal(u, o, x.value)
    requires y.Ok? ==> IsNormal(u, o, y.value)
    ensures SameText(TextOf(x), TextOf(y)) <==> SameUpToNull(x, y)
  {
    if x.Ok? && y.Ok? { EqualNormalTexts(u, o, x.value, y.value); }
  }

  /**
   Texts are equal exactly when the normal forms are, up to reading `undefined`
   array items as null; only `dropUndefined` lets such items through.
   */
  lemma EqualTextIff(u: Unicode, o: Options, a: Value, b: Value)
    ensures IsCanonicallyEqual(u, o, a, b) <==>
              SameUpToNull(Normalize(u, o, a), Normalize(u, o, b))
  {
    var x, y := Normalize(u, o, a), Normalize(u, o, b);
    if x.Ok? { NormalizeGivesNormal(u, o, a); }
    if y.Ok? { NormalizeGivesNormal(u, o, b); }
    SameOutcomeText(u, o, x, y);
  }

  /** With `dropUndefined` off the comparison is exactly equality of normal forms. */
  lemma CanonicallyEqualIff(u: Unicode, o: Options, a: Value, b: Value)
    requires !o.dropUndefined
    ensures IsCanonicallyEqual(u, o, a, b) <==>
              Normalize(u, o, a).Ok? && Normalize(u, o, a) == Normalize(u, o, b)
  {
    EqualTextIff(u, o, a, b);
    if Normalize(u, o, a).Ok? {
      NormalizeGivesNormal(u, o, a);
      NulledIsJson(u, o, Normalize(u, o, a).value);
    }
    if Normalize(u, o, b).Ok? {
      NormalizeGivesNormal(u, o, b);
      NulledIsJson(u, o, Normalize(u, o, b).value);
    }
  }

  /** A JSON parser recovers the normal form from the canonical text. */
  lemma TextParsesBack(u: Unicode, o: Options, v: Value)
    requires !o.dropUndefined && Normalize(u, o, v).Ok?
    ensures Canonicalize(u, o, v).value.Some?
    ensures ParseValue(Canonicalize(u, o, v).value.value) == Parsed(Normalize(u, o, v).value, [])
  {
    var w := Normalize(u, o, v).value;
    NormalizeGivesNormal(u, o, v);
    NulledIsJson(u, o, w);
    RoundTrip(w, []);
    assert Print(w) + [] == Print(w);
  }

  lemma FixedItem(u: Unicode, o: Options, items: seq<Value>)
    requires |items| == 1 && Normalize(u, o, items[0]) == Ok(items[0])
    ensures Normalize(u, o, Arr(items)) == Ok(Arr(items))
  {
    var ws := NormalItems(u, o, items);
    assert ws[0] == items[0];
    assert ws == items;
    SortedIsFixed(items, Print);
  }

  lemma NulledItem(a: seq<Value>, b: seq<Value>)
    requires |a| == |b| == 1 && Nulled(a[0]) == Nulled(b[0])
    ensures Nulled(Arr(a)) == Nulled(Arr(b))
  {
    assert Nulled(Arr(a)) == Arr(NulledItems(a)) && Nulled(Arr(b)) == Arr(NulledItems(b));
    assert NulledItems(a) == NulledItems(b);
  }

  /** With `dropUndefined` on, different normal forms can share a text. */
  lemma DropUndefinedCollision(u: Unicode, o: Options, a: Value, b: Value)
    requires o.dropUndefined && a == Arr([Undefined]) && b == Arr([Null])
    ensures IsCanonicallyEqual(u, o, a, b)
    ensures Normalize(u, o, a) == Ok(a) && Normalize(u, o, b) == Ok(b) && a != b
  {
    FixedItem(u, o, a.items);
    FixedItem(u, o, b.items);
    NulledItem(a.items, b.items);
    EqualTextIff(u, o, a, b);
    assert a.items[0] != b.items[0];
  }

  // ---------------------------------------------------------------------
  // The loops of normalizeValue
  // ---------------------------------------------------------------------

  function NormalMemberOf(u: Unicode, o: Options, e: Entry): Entry {
    match Normalize(u, o, e.value)
    case Ok(w) => Entry(e.key, w)
    case Rejected => e
  }

  function MemberNormalizer(u: Unicode, o: Options): Entry -> Entry {
    (e: Entry) => NormalMemberOf(u, o, e)
  }

  function Kept(u: Unicode, o: Options, raw: seq<Entry>): seq<Entry> {
    Filter(Map(raw, MemberNormalizer(u, o)), IsUndefined, false)
  }

  /** Normalizing and dropping members after the sort gives what sorting afterwards gives. */
  lemma SortThenNormalize(u: Unicode, o: Options, raw: seq<Entry>)
    requires DistinctKeys(raw, EntryKey)
    ensures Kept(u, o, Sort(raw, EntryKey)) == Sort(Kept(u, o, raw), EntryKey)
  {
    var f, sorted := MemberNormalizer(u, o), Sort(raw, EntryKey);
    SortSorts(raw, EntryKey);
    MapMultiset(raw, sorted, f);
    FilterMultiset(Map(raw, f), Map(sorted, f), IsUndefined, false);
    NormalizerKeepsKeys(u, o, sorted);
    NormalizerKeepsKeys(u, o, raw);
    FilterSorted(Map(sorted, f), IsUndefined, false, EntryKey);
    var a, b := Kept(u, o, sorted), Kept(u, o, raw);
    FilterDistinctKeys(Map(raw, f), IsUndefined, false, EntryKey);
    DistinctKeysSplit(b, EntryKey);
    SortIgnoresOrder(b, a, EntryKey);
    InjectiveInAnyOrder(b, a, EntryKey);
    SortedIsFixed(a, EntryKey);
  }

  lemma NormalizerKeepsKeys(u: Unicode, o: Options, es: seq<Entry>)
    ensures Sorted(es, EntryKey) ==> Sorted(Map(es, MemberNormalizer(u, o)), EntryKey)
    ensures DistinctKeys(es, EntryKey) ==> DistinctKeys(Map(es, MemberNormalizer(u, o)), EntryKey)
  {
    var r := Map(es, MemberNormalizer(u, o));
    forall i | 0 <= i < |es| ensures EntryKey(r[i]) == EntryKey(es[i]) {}
  }

  method NormalizePayload(u: Unicode, o: Options, v: Value) returns (r: Outcome<Value>)
    ensures r == Normalize(u, o, v)
    decreases v, 3
  {
    match v
    case Arr(items) =>
      var normalized: seq<Value> := [];
      for i := 0 to |items|
        invariant |normalized| == i
        invariant forall j :: 0 <= j < i ==> Normalize(u, o, items[j]) == Ok(normalized[j])
      {
        var x := NormalizePayload(u, o, items[i]);
        if x.Rejected? { return Rejected; }
        normalized := normalized + [x.value];
      }
      assert normalized == NormalItems(u, o, items);
      if o.sortArrays && AllPrimitive(normalized) {
        return Ok(Arr(Sort(normalized, Print)));
      }
      return Ok(Arr(normalized));
    case Obj(es) =>
      r := NormalizeObject(u, o, es);
    case _ =>
      r := Normalize(u, o, v);
  }

  lemma AppendKept(u: Unicode, o: Options, done: seq<Entry>, e: Entry)
    requires Normalize(u, o, e.value).Ok?
    ensures var w := Normalize(u, o, e.value).value;
            Kept(u, o, done + [e]) == Kept(u, o, done) + if w.Undefined? then [] else [Entry(e.key, w)]
  {
    var f := MemberNormalizer(u, o);
    FilterAppend(Map(done, f), [f(e)], IsUndefined, false);
    assert Map(done + [e], f) == Map(done, f) + [f(e)];
  }

  lemma KeptNext(u: Unicode, o: Options, sorted: seq<Entry>, i: nat, w: Value)
    requires i < |sorted| && Normalize(u, o, sorted[i].value) == Ok(w)
    ensures Kept(u, o, sorted[..i + 1]) ==
            Kept(u, o, sorted[..i]) + if w.Undefined? then [] else [Entry(sorted[i].key, w)]
  {
    AppendKept(u, o, sorted[..i], sorted[i]);
    assert sorted[..i + 1] == sorted[..i] + [sorted[i]];
  }

  /** `raw` holds the members of `es` under their folded keys. */
  ghost predicate Folded(u: Unicode, es: seq<Entry>, raw: seq<Entry>) {
    |raw| == |es| && forall i :: 0 <= i < |es| ==> raw[i] == Entry(FoldKey(u, es[i].key), es[i].value)
  }

  lemma MappedMembers(u: Unicode, o: Options, es: seq<Entry>, raw: seq<Entry>)
    requires Folded(u, es, raw) && MembersOk(u, o, es)
    ensures Map(raw, MemberNormalizer(u, o)) == NormalMembers(u, o, es)
  {
    var r, ms := Map(raw, MemberNormalizer(u, o)), NormalMembers(u, o, es);
    forall i | 0 <= i < |es| ensures r[i] == ms[i] {
      assert r[i] == NormalMemberOf(u, o, raw[i]);
      assert Normalize(u, o, es[i].value).Ok?;
    }
  }

  lemma FoldedAreDistinct(u: Unicode, es: seq<Entry>, raw: seq<Entry>)
    requires DistinctFolds(u, es) && Folded(u, es, raw)
    ensures DistinctKeys(raw, EntryKey)
  {
  }

  lemma ObjectIsFinished(u: Unicode, o: Options, es: seq<Entry>, raw: seq<Entry>)
    requires DistinctFolds(u, es) && Folded(u, es, raw) && MembersOk(u, o, es)
    ensures Normalize(u, o, Obj(es)) == Ok(Obj(OwnOrder(Kept(u, o, Sort(raw, EntryKey)))))
  {
    FoldedAreDistinct(u, es, raw);
    MappedMembers(u, o, es, raw);
    SortThenNormalize(u, o, raw);
    AcceptedObject(u, o, es);
    FinishSortsFirst(NormalMembers(u, o, es));
  }

  lemma AcceptedObject(u: Unicode, o: Options, es: seq<Entry>)
    requires DistinctFolds(u, es) && MembersOk(u, o, es)
    ensures Normalize(u, o, Obj(es)) == Ok(FinishObject(NormalMembers(u, o, es)))
  {
  }

  lemma FinishSortsFirst(ms: seq<Entry>)
    ensures FinishObject(ms) == Obj(OwnOrder(Sort(Filter(ms, IsUndefined, false), EntryKey)))
  {
  }

  /** Fold the keys and refuse duplicates. */
  method FoldEntries(u: Unicode, es: seq<Entry>) returns (raw: Outcome<seq<Entry>>)
    ensures raw.Ok? <==> DistinctFolds(u, es)
    ensures raw.Ok? ==> Folded(u, es, raw.value)
  {
    var seenKeys: set<Text> := {};
    var normalizedEntries: seq<Entry> := [];
    for i := 0 to |es|
      invariant Folded(u, es[..i], normalizedEntries)
      invariant forall j :: 0 <= j < i ==> FoldKey(u, es[j].key) in seenKeys
      invariant forall k :: k in seenKeys ==> exists j :: 0 <= j < i && FoldKey(u, es[j].key) == k
      invariant DistinctFolds(u, es[..i])
    {
      var normKey := FoldKey(u, es[i].key);
      if normKey in seenKeys {
        var j :| 0 <= j < i && FoldKey(u, es[j].key) == normKey;
        return Rejected;
      }
      seenKeys := seenKeys + {normKey};
      normalizedEntries := normalizedEntries + [Entry(normKey, es[i].value)];
      assert es[..i + 1] == es[..i] + [es[i]];
    }
    assert es[..|es|] == es;
    return Ok(normalizedEntries);
  }

  /** Sorting only moves the members around. */
  lemma SortedFrom(u: Unicode, es: seq<Entry>, raw: seq<Entry>)
    requires Folded(u, es, raw)
    ensures DrawnFrom(Sort(raw, EntryKey), es)
  {
    var sorted := Sort(raw, EntryKey);
    SortSorts(raw, EntryKey);
    forall i | 0 <= i < |sorted| ensures exists k :: 0 <= k < |es| && sorted[i].value == es[k].value {
      var k := Find(sorted, raw, i);
      assert sorted[i].value == es[k].value;
    }
  }

  /** Every value is one of those in `es`. */
  ghost predicate DrawnFrom(sorted: seq<Entry>, es: seq<Entry>) {
    forall i :: 0 <= i < |sorted| ==> exists k :: 0 <= k < |es| && sorted[i].value == es[k].value
  }

  lemma Source(sorted: seq<Entry>, es: seq<Entry>, i: nat) returns (k: nat)
    requires DrawnFrom(sorted, es) && i < |sorted|
    ensures k < |es| && sorted[i].value == es[k].value
  {
    var v := sorted[i].value;
    k :| 0 <= k < |es| && v == es[k].value;
  }

  lemma AllMembersOk(u: Unicode, o: Options, es: seq<Entry>, raw: seq<Entry>)
    requires Folded(u, es, raw)
    ensures MembersOk(u, o, Sort(raw, EntryKey)) <==> MembersOk(u, o, es)
  {
    var sorted := Sort(raw, EntryKey);
    SortSorts(raw, EntryKey);
    if MembersOk(u, o, sorted) {
      forall i | 0 <= i < |es| ensures Normalize(u, o, es[i].value).Ok? {
        var j := Find(raw, sorted, i);
      }
    }
    if MembersOk(u, o, es) {
      forall i | 0 <= i < |sorted| ensures Normalize(u, o, sorted[i].value).Ok? {
        var k := Find(sorted, raw, i);
        assert Normalize(u, o, es[k].value).Ok?;
      }
    }
  }

  /** The second loop: values, in the order of the sorted keys; undefined ones leave no member. */
  method NormalizeSorted(u: Unicode, o: Options, sorted: seq<Entry>, ghost es: seq<Entry>)
    returns (out: Outcome<seq<Entry>>)
    requires DrawnFrom(sorted, es)
    ensures out.Ok? <==> MembersOk(u, o, sorted)
    ensures out.Ok? ==> out.value == Kept(u, o, sorted)
    decreases es, 0
  {
    var members: seq<Entry> := [];
    for i := 0 to |sorted|
      invariant forall j :: 0 <= j < i ==> Normalize(u, o, sorted[j].value).Ok?
      invariant members == Kept(u, o, sorted[..i])
    {
      ghost var k := Source(sorted, es, i);
      var x := NormalizePayload(u, o, sorted[i].value);
      if x.Rejected? { return Rejected; }
      KeptNext(u, o, sorted, i, x.value);
      if !x.value.Undefined? {
        members := members + [Entry(sorted[i].key, x.value)];
      }
    }
    assert sorted[..|sorted|] == sorted;
    return Ok(members);
  }

  lemma RefusedObject(u: Unicode, o: Options, es: seq<Entry>)
    requires !DistinctFolds(u, es) || !MembersOk(u, o, es)
    ensures Normalize(u, o, Obj(es)) == Rejected
  {
  }

  /** The three stages of the object branch: fold, sort, normalize in key order. */
  method ObjectMembers(u: Unicode, o: Options, es: seq<Entry>, raw: seq<Entry>) returns (out: Outcome<seq<Entry>>)
    requires Folded(u, es, raw)
    ensures out.Ok? <==> MembersOk(u, o, es)
    ensures out.Ok? ==> out.value == Kept(u, o, Sort(raw, EntryKey))
    decreases es, 1
  {
    SortedFrom(u, es, raw);
    AllMembersOk(u, o, es, raw);
    out := NormalizeSorted(u, o, Sort(raw, EntryKey), es);
  }

  method NormalizeObject(u: Unicode, o: Options, es: seq<Entry>) returns (r: Outcome<Value>)
    ensures r == Normalize(u, o, Obj(es))
    decreases es, 2
  {
    var raw := FoldEntries(u, es);
    if raw.Rejected? {
      RefusedObject(u, o, es);
      return Rejected;
    }
    var out := ObjectMembers(u, o, es, raw.value);
    if out.Rejected? {
      RefusedObject(u, o, es);
      return Rejected;
    }
    ObjectIsFinished(u, o, es, raw.value);
    return Ok(Obj(OwnOrder(out.value)));
  }
}
