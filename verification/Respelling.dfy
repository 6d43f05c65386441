/**
 Respellings of a payload: any sequence of edits, at any depth, that change
 only key order, the case and surrounding blanks of keys, whitespace runs in
 strings and, under `sortArrays`, the order of arrays of primitives. None of
 them changes the canonical text or turns an accepted payload into a refused one.
 */
module Respelling {
  import opened Text
  import opened Sorting
  import opened Spelling
  import opened Values
  import opened Canonical
  import opened CanonicalText

  datatype Edit =
    | RespellString(s: Text)
    | RespellKey(i: nat, key: Text)
    | ReorderMembers(entries: seq<Entry>)
    | ReorderItems(items: seq<Value>)
    | InItem(i: nat, inner: Edit)
    | InMember(i: nat, inner: Edit)

  /** Values that normalize to a primitive or are refused. */
  predicate Flat(v: Value) {
    !v.Arr? && !v.Obj? && !v.Undefined?
  }

  ghost predicate Allowed(u: Unicode, o: Options, v: Value, e: Edit)
    decreases e
  {
    match e
    case RespellString(s) => v.Str? && Words(u.nfc(s)) == Words(u.nfc(v.s))
    case RespellKey(i, k) =>
      v.Obj? && i < |v.entries| && u.lower(Trim(k)) == u.lower(Trim(v.entries[i].key))
    case ReorderMembers(es) => v.Obj? && multiset(es) == multiset(v.entries)
    case ReorderItems(items) =>
      && v.Arr? && o.sortArrays && multiset(items) == multiset(v.items)
      && AllFlat(v.items)
    case InItem(i, inner) => v.Arr? && i < |v.items| && Allowed(u, o, v.items[i], inner)
    case InMember(i, inner) => v.Obj? && i < |v.entries| && Allowed(u, o, v.entries[i].value, inner)
  }

  ghost function Apply(u: Unicode, o: Options, v: Value, e: Edit): Value
    requires Allowed(u, o, v, e)
    decreases e
  {
    match e
    case RespellString(s) => Str(s)
    case RespellKey(i, k) => Obj(v.entries[i := Entry(k, v.entries[i].value)])
    case ReorderMembers(es) => Obj(es)
    case ReorderItems(items) => Arr(items)
    case InItem(i, inner) => Arr(v.items[i := Apply(u, o, v.items[i], inner)])
    case InMember(i, inner) =>
      Obj(v.entries[i := Entry(v.entries[i].key, Apply(u, o, v.entries[i].value, inner))])
  }

  /** Arrays whose items normalize alike normalize alike. */
  lemma SameItems(u: Unicode, o: Options, a: seq<Value>, b: seq<Value>)
    requires |a| == |b| && forall i :: 0 <= i < |a| ==> Normalize(u, o, a[i]) == Normalize(u, o, b[i])
    ensures Normalize(u, o, Arr(a)) == Normalize(u, o, Arr(b))
  {
    if ItemsOk(u, o, a) {
      assert NormalItems(u, o, a) == NormalItems(u, o, b);
    }
  }

  lemma SameFolds(u: Unicode, a: seq<Entry>, b: seq<Entry>)
    requires |a| == |b| && forall i :: 0 <= i < |a| ==> FoldKey(u, a[i].key) == FoldKey(u, b[i].key)
    ensures DistinctFolds(u, a) <==> DistinctFolds(u, b)
  {
  }

  lemma SameNormalMembers(u: Unicode, o: Options, a: seq<Entry>, b: seq<Entry>)
    requires |a| == |b|
    requires forall i :: 0 <= i < |a| ==>
      FoldKey(u, a[i].key) == FoldKey(u, b[i].key) && Normalize(u, o, a[i].value) == Normalize(u, o, b[i].value)
    ensures MembersOk(u, o, a) <==> MembersOk(u, o, b)
    ensures MembersOk(u, o, a) ==> NormalMembers(u, o, a) == NormalMembers(u, o, b)
  {
  }

  /** Members that fold and normalize alike. */
  ghost predicate Alike(u: Unicode, o: Options, a: seq<Entry>, b: seq<Entry>) {
    && (DistinctFolds(u, a) <==> DistinctFolds(u, b))
    && (MembersOk(u, o, a) <==> MembersOk(u, o, b))
    && (MembersOk(u, o, a) ==> NormalMembers(u, o, a) == NormalMembers(u, o, b))
  }

  lemma AlikeObjects(u: Unicode, o: Options, a: seq<Entry>, b: seq<Entry>)
    requires Alike(u, o, a, b)
    ensures Normalize(u, o, Obj(a)) == Normalize(u, o, Obj(b))
  {
  }

  lemma SameMembers(u: Unicode, o: Options, a: seq<Entry>, b: seq<Entry>)
    requires |a| == |b|
    requires forall i :: 0 <= i < |a| ==>
      FoldKey(u, a[i].key) == FoldKey(u, b[i].key) && Normalize(u, o, a[i].value) == Normalize(u, o, b[i].value)
    ensures Normalize(u, o, Obj(a)) == Normalize(u, o, Obj(b))
  {
    SameFolds(u, a, b);
    SameNormalMembers(u, o, a, b);
    AlikeObjects(u, o, a, b);
  }

  function FoldEntryKey(u: Unicode): Entry -> Entry {
    (e: Entry) => Entry(FoldKey(u, e.key), e.value)
  }

  lemma DistinctFoldsIff(u: Unicode, es: seq<Entry>)
    ensures DistinctFolds(u, es) <==> DistinctKeys(Map(es, FoldEntryKey(u)), EntryKey)
  {
    var raw := Map(es, FoldEntryKey(u));
    assert forall i :: 0 <= i < |es| ==> EntryKey(raw[i]) == FoldKey(u, es[i].key);
    if DistinctKeys(raw, EntryKey) {
      forall i, j | 0 <= i < j < |es| ensures FoldKey(u, es[i].key) != FoldKey(u, es[j].key) {
        assert EntryKey(raw[i]) != EntryKey(raw[j]);
      }
    }
  }

  lemma ReorderedMembersOk(u: Unicode, o: Options, a: seq<Entry>, b: seq<Entry>)
    requires multiset(a) == multiset(b) && DistinctFolds(u, a) && MembersOk(u, o, a)
    ensures DistinctFolds(u, b) && MembersOk(u, o, b)
  {
    MapMultiset(a, b, FoldEntryKey(u));
    DistinctFoldsIff(u, a);
    DistinctFoldsIff(u, b);
    DistinctKeysInAnyOrder(Map(a, FoldEntryKey(u)), Map(b, FoldEntryKey(u)), EntryKey);
    forall i | 0 <= i < |b| ensures Normalize(u, o, b[i].value).Ok? {
      var j := Find(b, a, i);
      assert Normalize(u, o, a[j].value).Ok?;
    }
  }

  lemma ReorderedNormalMembers(u: Unicode, o: Options, a: seq<Entry>, b: seq<Entry>)
    requires multiset(a) == multiset(b) && MembersOk(u, o, a) && MembersOk(u, o, b)
    ensures multiset(NormalMembers(u, o, a)) == multiset(NormalMembers(u, o, b))
  {
    var x, y := Map(a, FoldEntryKey(u)), Map(b, FoldEntryKey(u));
    MapMultiset(a, b, FoldEntryKey(u));
    MapMultiset(x, y, MemberNormalizer(u, o));
    MappedMembers(u, o, a, x);
    MappedMembers(u, o, b, y);
  }

  lemma FinishReordered(ws: seq<Entry>, xs: seq<Entry>)
    requires multiset(ws) == multiset(xs) && DistinctKeys(ws, EntryKey)
    ensures FinishObject(ws) == FinishObject(xs)
  {
    FilterMultiset(ws, xs, IsUndefined, false);
    FilterDistinctKeys(ws, IsUndefined, false, EntryKey);
    ArrangeIgnoresOrder(Filter(ws, IsUndefined, false), Filter(xs, IsUndefined, false));
  }

  lemma NormalMembersAreDistinct(u: Unicode, o: Options, es: seq<Entry>)
    requires DistinctFolds(u, es) && MembersOk(u, o, es)
    ensures DistinctKeys(NormalMembers(u, o, es), EntryKey)
  {
  }

  lemma AcceptedReordering(u: Unicode, o: Options, a: seq<Entry>, b: seq<Entry>)
    requires multiset(a) == multiset(b) && Normalize(u, o, Obj(a)).Ok?
    ensures Normalize(u, o, Obj(b)) == Normalize(u, o, Obj(a))
  {
    ReorderedMembersOk(u, o, a, b);
    ReorderedNormalMembers(u, o, a, b);
    NormalMembersAreDistinct(u, o, a);
    FinishReordered(NormalMembers(u, o, a), NormalMembers(u, o, b));
  }

  /** The members of an object may come in any order. */
  lemma ReorderedObject(u: Unicode, o: Options, a: seq<Entry>, b: seq<Entry>)
    requires multiset(a) == multiset(b)
    ensures Normalize(u, o, Obj(a)) == Normalize(u, o, Obj(b))
  {
    if Normalize(u, o, Obj(a)).Ok? {
      AcceptedReordering(u, o, a, b);
    } else if Normalize(u, o, Obj(b)).Ok? {
      AcceptedReordering(u, o, b, a);
    }
  }

  lemma FlatItem(u: Unicode, o: Options, v: Value)
    requires Flat(v) && Normalize(u, o, v).Ok?
    ensures IsPrimitive(Normalize(u, o, v).value) && IsNormal(u, o, Normalize(u, o, v).value)
  {
    NormalizeGivesNormal(u, o, v);
  }

  lemma FlatIsPrimitive(u: Unicode, o: Options, items: seq<Value>)
    requires ItemsOk(u, o, items) && AllFlat(items)
    ensures AllPrimitive(NormalItems(u, o, items)) && KeyInjective(NormalItems(u, o, items), Print)
  {
    var ws := NormalItems(u, o, items);
    forall k | 0 <= k < |items| ensures IsPrimitive(ws[k]) && IsNormal(u, o, ws[k]) {
      FlatItem(u, o, items[k]);
    }
    PrintSeparatesPrimitives(u, o, ws);
  }

  function ItemNormalizer(u: Unicode, o: Options): Value -> Value {
    (v: Value) => if Normalize(u, o, v).Ok? then Normalize(u, o, v).value else v
  }

  lemma MappedItems(u: Unicode, o: Options, items: seq<Value>)
    requires ItemsOk(u, o, items)
    ensures NormalItems(u, o, items) == Map(items, ItemNormalizer(u, o))
  {
    forall i | 0 <= i < |items| ensures NormalItems(u, o, items)[i] == Map(items, ItemNormalizer(u, o))[i] {
      assert Normalize(u, o, items[i]).Ok?;
    }
  }

  lemma ReorderedItemsOk(u: Unicode, o: Options, a: seq<Value>, b: seq<Value>)
    requires multiset(a) == multiset(b) && ItemsOk(u, o, a)
    ensures ItemsOk(u, o, b)
    ensures multiset(NormalItems(u, o, a)) == multiset(NormalItems(u, o, b))
  {
    forall i | 0 <= i < |b| ensures Normalize(u, o, b[i]).Ok? {
      var j := Find(b, a, i);
      assert Normalize(u, o, a[j]).Ok?;
    }
    MappedItems(u, o, a);
    MappedItems(u, o, b);
    MapMultiset(a, b, ItemNormalizer(u, o));
  }

  lemma FinishReorderedArray(o: Options, ws: seq<Value>, xs: seq<Value>)
    requires o.sortArrays && multiset(ws) == multiset(xs)
    requires AllPrimitive(ws) && AllPrimitive(xs) && KeyInjective(ws, Print)
    ensures FinishArray(o, ws) == FinishArray(o, xs)
  {
    SortIgnoresOrder(ws, xs, Print);
  }

  ghost predicate AllFlat(items: seq<Value>) {
    forall k :: 0 <= k < |items| ==> Flat(items[k])
  }

  lemma FlatInAnyOrder(a: seq<Value>, b: seq<Value>)
    requires multiset(a) == multiset(b) && AllFlat(a)
    ensures AllFlat(b)
  {
    forall k | 0 <= k < |b| ensures Flat(b[k]) {
      var j := Find(b, a, k);
    }
  }

  lemma AcceptedItems(u: Unicode, o: Options, a: seq<Value>, b: seq<Value>)
    requires o.sortArrays && multiset(a) == multiset(b) && AllFlat(a) && ItemsOk(u, o, a)
    ensures Normalize(u, o, Arr(b)) == Normalize(u, o, Arr(a))
  {
    ReorderedItemsOk(u, o, a, b);
    FlatInAnyOrder(a, b);
    FlatIsPrimitive(u, o, a);
    FlatIsPrimitive(u, o, b);
    FinishReorderedArray(o, NormalItems(u, o, a), NormalItems(u, o, b));
  }

  /** With `sortArrays`, so may the items of an array of primitives. */
  lemma ReorderedArray(u: Unicode, o: Options, a: seq<Value>, b: seq<Value>)
    requires o.sortArrays && multiset(a) == multiset(b) && AllFlat(a)
    ensures Normalize(u, o, Arr(b)) == Normalize(u, o, Arr(a))
  {
    FlatInAnyOrder(a, b);
    if ItemsOk(u, o, a) {
      AcceptedItems(u, o, a, b);
    } else if ItemsOk(u, o, b) {
      AcceptedItems(u, o, b, a);
    }
  }

  /** One edit, anywhere, leaves the outcome of normalization unchanged. */
  lemma {:induction false} EditPreserved(u: Unicode, o: Options, v: Value, e: Edit)
    requires Allowed(u, o, v, e)
    ensures Normalize(u, o, Apply(u, o, v, e)) == Normalize(u, o, v)
    decreases e
  {
    match e
    case RespellString(s) => SameSpellingIff(u, s, v.s);
    case RespellKey(i, k) => SameMembers(u, o, Apply(u, o, v, e).entries, v.entries);
    case InItem(i, inner) =>
      EditPreserved(u, o, v.items[i], inner);
      SameItems(u, o, Apply(u, o, v, e).items, v.items);
    case InMember(i, inner) =>
      EditPreserved(u, o, v.entries[i].value, inner);
      SameMembers(u, o, Apply(u, o, v, e).entries, v.entries);
    case ReorderMembers(es) => ReorderedObject(u, o, v.entries, es);
    case ReorderItems(items) => ReorderedArray(u, o, v.items, items);
  }

  /** `b` is a respelling of `a` by this chain of edits. */
  ghost predicate Respells(u: Unicode, o: Options, a: Value, es: seq<Edit>, b: Value)
    decreases es
  {
    if es == [] then a == b
    else Allowed(u, o, a, es[0]) && Respells(u, o, Apply(u, o, a, es[0]), es[1..], b)
  }

  /** Respelled payloads have the same canonical text, or are both refused. */
  lemma {:induction false} RespellingInvariant(u: Unicode, o: Options, a: Value, es: seq<Edit>, b: Value)
    requires Respells(u, o, a, es, b)
    ensures Normalize(u, o, a) == Normalize(u, o, b)
    ensures Canonicalize(u, o, a) == Canonicalize(u, o, b)
    decreases es
  {
    if es != [] {
      EditPreserved(u, o, a, es[0]);
      RespellingInvariant(u, o, Apply(u, o, a, es[0]), es[1..], b);
    }
  }
}
