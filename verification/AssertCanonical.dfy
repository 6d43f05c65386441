/**
 What `assertCanonical` of src/lib/canonical.js lets through, for every value:
 the payload's own text must be its canonical text.
 */
module AssertCanonical {
  import opened Wrappers
  import opened Sorting
  import opened Spelling
  import opened Values
  import opened Canonical
  import opened CanonicalText
  import opened Respelling

  /** `JSON.stringify` throws on these. */
  predicate HasBig(v: Value) {
    match v
    case Big(_) => true
    case Arr(items) => exists i :: 0 <= i < |items| && HasBig(items[i])
    case Obj(es) => exists i :: 0 <= i < |es| && HasBig(es[i].value)
    case _ => false
  }

  predicate AssertCanonicalAccepts(u: Unicode, o: Options, v: Value) {
    && !v.Undefined?
    && var c := Canonicalize(u, o, v);
       c.Ok? && !HasBig(v) && Stringify(v) == c.value
  }

  /**
   Canonical as written: a normal form, or what prints like one. Dates and
   negative zero pass, and so do undefined items and members when they are
   dropped; undefined members neither hold a place nor need a folded key.
   */
  ghost predicate IsCanonical(u: Unicode, o: Options, v: Value) {
    match v
    case Null => true
    case Bool(_) => true
    case Num(n) => -MAX_MAGNITUDE <= n <= MAX_MAGNITUDE
    case NegZero => true
    case Str(s) => NormalizeString(u, s) == s
    case Instant(_) => true
    case Undefined => o.dropUndefined
    case Arr(items) =>
      && (forall i :: 0 <= i < |items| ==> IsCanonical(u, o, items[i]))
      && (o.sortArrays && AllFlat(items) ==> Sorted(items, Print))
    case Obj(es) =>
      && DistinctFolds(u, es)
      && InOrder(Defined(es))
      && (forall i :: 0 <= i < |es| ==>
            IsCanonical(u, o, es[i].value) && (es[i].value.Undefined? || FoldKey(u, es[i].key) == es[i].key))
    case _ => false
  }

  function Defined(es: seq<Entry>): seq<Entry> {
    Filter(es, IsUndefined, false)
  }

  lemma {:induction false} CanonicalIsAccepted(u: Unicode, o: Options, v: Value)
    requires IsCanonical(u, o, v)
    ensures Normalize(u, o, v).Ok? && !HasBig(v)
    decreases v
  {
    match v
    case Arr(items) =>
      forall i | 0 <= i < |items| ensures Normalize(u, o, items[i]).Ok? && !HasBig(items[i]) {
        CanonicalIsAccepted(u, o, items[i]);
      }
    case Obj(es) =>
      forall i | 0 <= i < |es| ensures Normalize(u, o, es[i].value).Ok? && !HasBig(es[i].value) {
        CanonicalIsAccepted(u, o, es[i].value);
      }
    case _ =>
  }

  // ---------------------------------------------------------------------
  // The JSON data a payload is printed as
  // ---------------------------------------------------------------------

  function AsJson(v: Value): Value
    decreases v, 1
  {
    match v
    case Undefined => Null
    case NegZero => Num(0)
    case Instant(iso) => Str(iso)
    case Arr(items) => Arr(AsJsonItems(items))
    case Obj(es) => Obj(AsJsonMembers(es))
    case _ => v
  }

  function AsJsonItems(items: seq<Value>): (r: seq<Value>)
    ensures |r| == |items|
    decreases items, 0
  {
    seq(|items|, i requires 0 <= i < |items| => AsJson(items[i]))
  }

  function AsJsonMembers(es: seq<Entry>): seq<Entry>
    decreases es, 0
  {
    if es == [] then []
    else if es[0].value.Undefined? then AsJsonMembers(es[1..])
    else [Entry(es[0].key, AsJson(es[0].value))] + AsJsonMembers(es[1..])
  }

  lemma {:induction false} AsJsonOfDefined(es: seq<Entry>)
    ensures |AsJsonMembers(es)| == |Defined(es)|
    ensures forall k :: 0 <= k < |Defined(es)| ==>
              AsJsonMembers(es)[k] == Entry(Defined(es)[k].key, AsJson(Defined(es)[k].value))
  {
    if es != [] { AsJsonOfDefined(es[1..]); }
  }

  /** Accepted, and nothing in it makes `JSON.stringify` throw. */
  predicate Printable(u: Unicode, o: Options, v: Value) {
    Normalize(u, o, v).Ok? && !HasBig(v)
  }

  lemma PrintableItem(u: Unicode, o: Options, items: seq<Value>, i: nat)
    requires Printable(u, o, Arr(items)) && i < |items|
    ensures Printable(u, o, items[i])
  {
    assert ItemsOk(u, o, items);
  }

  lemma PrintableMember(u: Unicode, o: Options, es: seq<Entry>, i: nat)
    requires Printable(u, o, Obj(es)) && i < |es|
    ensures Printable(u, o, es[i].value)
  {
    assert MembersOk(u, o, es);
  }

  lemma {:induction false} AsJsonIsJson(u: Unicode, o: Options, v: Value)
    requires Printable(u, o, v)
    ensures IsJson(AsJson(v))
    decreases v
  {
    match v
    case Arr(items) =>
      forall i | 0 <= i < |items| ensures IsJson(AsJsonItems(items)[i]) {
        PrintableItem(u, o, items, i);
        AsJsonIsJson(u, o, items[i]);
      }
    case Obj(es) =>
      AsJsonOfDefined(es);
      forall k | 0 <= k < |Defined(es)| ensures IsJson(AsJsonMembers(es)[k].value) {
        var i := DefinedFrom(es, k);
        PrintableMember(u, o, es, i);
        AsJsonIsJson(u, o, es[i].value);
      }
    case _ =>
  }

  lemma DefinedFrom(es: seq<Entry>, k: nat) returns (i: nat)
    requires k < |Defined(es)|
    ensures i < |es| && es[i] == Defined(es)[k] && !es[i].value.Undefined?
  {
    var x := Defined(es)[k];
    assert x in es && IsUndefined(x) == false;
    i :| 0 <= i < |es| && es[i] == x;
  }

  lemma {:induction false} PrintAsJson(u: Unicode, o: Options, v: Value)
    requires Printable(u, o, v)
    ensures Print(AsJson(v)) == Print(v)
    decreases v, 1
  {
    match v
    case Arr(items) =>
      forall i | 0 <= i < |items| ensures Printable(u, o, items[i]) { PrintableItem(u, o, items, i); }
      PrintAsJsonItems(u, o, items, false);
    case Obj(es) =>
      forall i | 0 <= i < |es| ensures Printable(u, o, es[i].value) { PrintableMember(u, o, es, i); }
      PrintAsJsonMembers(u, o, es, false);
    case _ =>
  }

  lemma {:induction false} PrintAsJsonItems(u: Unicode, o: Options, items: seq<Value>, comma: bool)
    requires forall i :: 0 <= i < |items| ==> Printable(u, o, items[i])
    ensures PrintItems(AsJsonItems(items), comma) == PrintItems(items, comma)
    decreases items, 0
  {
    if items != [] {
      PrintAsJson(u, o, items[0]);
      PrintAsJsonItems(u, o, items[1..], true);
      assert AsJsonItems(items)[1..] == AsJsonItems(items[1..]);
    }
  }

  lemma {:induction false} PrintAsJsonMembers(u: Unicode, o: Options, es: seq<Entry>, comma: bool)
    requires forall i :: 0 <= i < |es| ==> Printable(u, o, es[i].value)
    ensures PrintMembers(AsJsonMembers(es), comma) == PrintMembers(es, comma)
    decreases es, 0
  {
    if es != [] {
      PrintAsJson(u, o, es[0].value);
      PrintAsJsonMembers(u, o, es[1..], true);
      PrintAsJsonMembers(u, o, es[1..], comma);
      if !es[0].value.Undefined? {
        PrintableIsPrinted(u, o, es[0].value);
        HeadPrinted(Entry(es[0].key, AsJson(es[0].value)), AsJsonMembers(es[1..]), comma);
      }
    }
  }

  lemma PrintableIsPrinted(u: Unicode, o: Options, v: Value)
    requires Printable(u, o, v) && !v.Undefined?
    ensures !Omitted(v) && !Omitted(AsJson(v))
  {
  }

  lemma HeadPrinted(e: Entry, rest: seq<Entry>, comma: bool)
    requires !Omitted(e.value)
    ensures PrintMembers([e] + rest, comma) == Separator(comma) + PrintMember(e) + PrintMembers(rest, true)
  {
    assert ([e] + rest)[1..] == rest;
  }

  // ---------------------------------------------------------------------
  // Arrays
  // ---------------------------------------------------------------------

  /** Printing like the normal form and being canonical are the same for `v`. */
  ghost predicate Agrees(u: Unicode, o: Options, v: Value) {
    Normalize(u, o, v).Ok? && (AsJson(v) == Nulled(Normalize(u, o, v).value) <==> IsCanonical(u, o, v))
  }

  lemma FlatIff(u: Unicode, o: Options, v: Value)
    requires Normalize(u, o, v).Ok?
    ensures Flat(v) <==> IsPrimitive(Normalize(u, o, v).value)
  {
  }

  lemma AllFlatIff(u: Unicode, o: Options, items: seq<Value>)
    requires ItemsOk(u, o, items)
    ensures AllFlat(items) <==> AllPrimitive(NormalItems(u, o, items))
  {
    var ws := NormalItems(u, o, items);
    forall i | 0 <= i < |items| ensures Flat(items[i]) <==> IsPrimitive(ws[i]) { FlatIff(u, o, items[i]); }
  }

  lemma NulledPrimitives(ws: seq<Value>)
    requires AllPrimitive(ws)
    ensures NulledItems(ws) == ws
  {
    forall i | 0 <= i < |ws| ensures Nulled(ws[i]) == ws[i] { assert IsPrimitive(ws[i]); }
  }

  /** A flat payload that is printed as normal data is canonical. */
  lemma NormalLookIsCanonical(u: Unicode, o: Options, v: Value)
    requires Printable(u, o, v) && Flat(v) && IsNormal(u, o, AsJson(v))
    ensures IsCanonical(u, o, v)
  {
  }

  lemma ItemsAgree(u: Unicode, o: Options, items: seq<Value>)
    requires ItemsOk(u, o, items) && forall i :: 0 <= i < |items| ==> Agrees(u, o, items[i])
    ensures AsJsonItems(items) == NulledItems(NormalItems(u, o, items)) <==>
            forall i :: 0 <= i < |items| ==> IsCanonical(u, o, items[i])
  {
    var js, ns := AsJsonItems(items), NulledItems(NormalItems(u, o, items));
    forall i | 0 <= i < |items| ensures js[i] == ns[i] <==> IsCanonical(u, o, items[i]) {
      assert Agrees(u, o, items[i]);
    }
  }

  /** Printed as the sorted items, each item is canonical already. */
  lemma SortedItemsAreCanonical(u: Unicode, o: Options, items: seq<Value>)
    requires ItemsOk(u, o, items) && AllFlat(items)
    requires forall i :: 0 <= i < |items| ==> Printable(u, o, items[i])
    requires AsJsonItems(items) == Sort(NormalItems(u, o, items), Print)
    ensures forall i :: 0 <= i < |items| ==> IsCanonical(u, o, items[i])
  {
    var ws := NormalItems(u, o, items);
    var t := Sort(ws, Print);
    SortSorts(ws, Print);
    forall i | 0 <= i < |items| ensures IsCanonical(u, o, items[i]) {
      var j := Find(t, ws, i);
      NormalizeGivesNormal(u, o, items[j]);
      assert AsJsonItems(items)[i] == AsJson(items[i]);
      NormalLookIsCanonical(u, o, items[i]);
    }
  }

  /** Items that print alike are sorted alike. */
  lemma PrintedAlike(u: Unicode, o: Options, items: seq<Value>)
    requires forall i :: 0 <= i < |items| ==> Printable(u, o, items[i])
    ensures Sorted(items, Print) <==> Sorted(AsJsonItems(items), Print)
  {
    forall i | 0 <= i < |items| ensures Print(AsJsonItems(items)[i]) == Print(items[i]) {
      PrintAsJson(u, o, items[i]);
    }
  }

  lemma SortedArrayAgrees(u: Unicode, o: Options, items: seq<Value>)
    requires ItemsOk(u, o, items) && AllFlat(items)
    requires forall i :: 0 <= i < |items| ==> Printable(u, o, items[i]) && Agrees(u, o, items[i])
    ensures AsJsonItems(items) == Sort(NormalItems(u, o, items), Print) <==>
            (forall i :: 0 <= i < |items| ==> IsCanonical(u, o, items[i])) && Sorted(items, Print)
  {
    var ws, js := NormalItems(u, o, items), AsJsonItems(items);
    AllFlatIff(u, o, items);
    NulledPrimitives(ws);
    ItemsAgree(u, o, items);
    PrintedAlike(u, o, items);
    SortSorts(ws, Print);
    if js == Sort(ws, Print) { SortedItemsAreCanonical(u, o, items); }
    if js == ws && Sorted(items, Print) {
      FlatIsPrimitive(u, o, items);
      SortedIsFixed(ws, Print);
    }
  }

  lemma ArrayAgrees(u: Unicode, o: Options, items: seq<Value>)
    requires ItemsOk(u, o, items)
    requires forall i :: 0 <= i < |items| ==> Printable(u, o, items[i]) && Agrees(u, o, items[i])
    ensures Agrees(u, o, Arr(items))
  {
    var ws := NormalItems(u, o, items);
    AllFlatIff(u, o, items);
    if o.sortArrays && AllFlat(items) {
      SortedArrayAgrees(u, o, items);
      SortedPrimitives(ws);
      NulledArr(Sort(ws, Print));
    } else {
      ItemsAgree(u, o, items);
      NulledArr(ws);
    }
  }

  lemma NulledArr(ws: seq<Value>)
    ensures Nulled(Arr(ws)) == Arr(NulledItems(ws))
  {
  }

  lemma SortedPrimitives(ws: seq<Value>)
    requires AllPrimitive(ws)
    ensures NulledItems(Sort(ws, Print)) == Sort(ws, Print)
  {
    var t := Sort(ws, Print);
    SortSorts(ws, Print);
    forall i | 0 <= i < |t| ensures IsPrimitive(t[i]) {
      var j := Find(t, ws, i);
    }
    NulledPrimitives(t);
  }

  // ---------------------------------------------------------------------
  // Objects
  // ---------------------------------------------------------------------

  function NormalEntry(u: Unicode, o: Options): Entry -> Entry {
    (e: Entry) => Entry(FoldKey(u, e.key), NormalMemberOf(u, o, e).value)
  }

  lemma NormalEntryKeepsUndefined(u: Unicode, o: Options, e: Entry)
    ensures IsUndefined(NormalEntry(u, o)(e)) == IsUndefined(e)
  {
  }

  /** Dropping before normalizing is dropping afterwards. */
  lemma NormalDefined(u: Unicode, o: Options, es: seq<Entry>)
    requires MembersOk(u, o, es)
    ensures Filter(NormalMembers(u, o, es), IsUndefined, false) == Map(Defined(es), NormalEntry(u, o))
  {
    forall e ensures IsUndefined(NormalEntry(u, o)(e)) == IsUndefined(e) { NormalEntryKeepsUndefined(u, o, e); }
    FilterOfMapped(es, NormalEntry(u, o), IsUndefined, IsUndefined, false);
    assert NormalMembers(u, o, es) == Map(es, NormalEntry(u, o)) by {
      forall i | 0 <= i < |es| ensures NormalMembers(u, o, es)[i] == Map(es, NormalEntry(u, o))[i] {
        assert Normalize(u, o, es[i].value).Ok?;
      }
    }
  }

  /** Every member has a folded key and a canonical value, in order. */
  ghost predicate CanonicalMembers(u: Unicode, o: Options, kept: seq<Entry>) {
    InOrder(kept) && forall k :: 0 <= k < |kept| ==> CanonicalMember(u, o, kept[k])
  }

  ghost predicate CanonicalMember(u: Unicode, o: Options, e: Entry) {
    FoldKey(u, e.key) == e.key && IsCanonical(u, o, e.value)
  }

  lemma CanonicalObjectIff(u: Unicode, o: Options, es: seq<Entry>)
    requires DistinctFolds(u, es) && MembersOk(u, o, es)
    ensures IsCanonical(u, o, Obj(es)) <==> CanonicalMembers(u, o, Defined(es))
  {
    var kept := Defined(es);
    if IsCanonical(u, o, Obj(es)) {
      forall k | 0 <= k < |kept| ensures CanonicalMember(u, o, kept[k]) {
        var i := DefinedFrom(es, k);
      }
    }
    if CanonicalMembers(u, o, kept) {
      forall i | 0 <= i < |es|
        ensures IsCanonical(u, o, es[i].value) && (es[i].value.Undefined? || FoldKey(u, es[i].key) == es[i].key)
      {
        assert Normalize(u, o, es[i].value).Ok?;
        if !es[i].value.Undefined? {
          FilterMembers(es, IsUndefined, false, es[i]);
          var k :| 0 <= k < |kept| && kept[k] == es[i];
          assert CanonicalMember(u, o, kept[k]);
        }
      }
    }
  }

  /** As printed: the keys as they are, the values as JSON data. */
  ghost predicate PrintedAs(kept: seq<Entry>, js: seq<Entry>) {
    |js| == |kept| && forall k :: 0 <= k < |kept| ==> js[k] == Entry(kept[k].key, AsJson(kept[k].value))
  }

  /** Printed under the keys of the normal form, the members have folded keys already, in order. */
  lemma PrintedKeysAreFolded(u: Unicode, o: Options, kept: seq<Entry>, js: seq<Entry>)
    requires PrintedAs(kept, js) && js == NulledMembers(Arrange(Map(kept, NormalEntry(u, o))))
    ensures InOrder(kept) && forall k :: 0 <= k < |kept| ==> FoldKey(u, kept[k].key) == kept[k].key
  {
    var ns := Map(kept, NormalEntry(u, o));
    var r := Arrange(ns);
    ArrangeKeepsEntries(ns);
    ArrangedInOrder(ns);
    forall k | 0 <= k < |kept| ensures kept[k].key == r[k].key && FoldKey(u, kept[k].key) == kept[k].key {
      assert js[k].key == r[k].key;
      var m := Find(r, ns, k);
      FoldKeyIdempotent(u, kept[m].key);
    }
  }

  lemma FoldedStayArranged(u: Unicode, o: Options, kept: seq<Entry>)
    requires DistinctKeys(Map(kept, NormalEntry(u, o)), EntryKey) && InOrder(kept)
    requires forall k :: 0 <= k < |kept| ==> FoldKey(u, kept[k].key) == kept[k].key
    ensures Arrange(Map(kept, NormalEntry(u, o))) == Map(kept, NormalEntry(u, o))
  {
    var ns := Map(kept, NormalEntry(u, o));
    assert forall k :: 0 <= k < |ns| ==> ns[k].key == kept[k].key;
    InOrderIff(ns);
  }

  ghost predicate AllAgree(u: Unicode, o: Options, es: seq<Entry>) {
    forall i :: 0 <= i < |es| ==> Agrees(u, o, es[i].value)
  }

  lemma MembersAgree(u: Unicode, o: Options, kept: seq<Entry>, js: seq<Entry>)
    requires PrintedAs(kept, js) && DistinctKeys(Map(kept, NormalEntry(u, o)), EntryKey)
    requires AllAgree(u, o, kept)
    ensures js == NulledMembers(Arrange(Map(kept, NormalEntry(u, o)))) <==> CanonicalMembers(u, o, kept)
  {
    var ns := Map(kept, NormalEntry(u, o));
    if js == NulledMembers(Arrange(ns)) {
      PrintedKeysAreFolded(u, o, kept, js);
      FoldedStayArranged(u, o, kept);
      forall k | 0 <= k < |kept| ensures CanonicalMember(u, o, kept[k]) {
        assert js[k] == NulledMembers(ns)[k];
        assert Agrees(u, o, kept[k].value);
      }
    }
    if CanonicalMembers(u, o, kept) {
      forall k | 0 <= k < |kept| ensures FoldKey(u, kept[k].key) == kept[k].key && js[k] == NulledMembers(ns)[k] {
        assert CanonicalMember(u, o, kept[k]) && Agrees(u, o, kept[k].value);
      }
      FoldedStayArranged(u, o, kept);
      assert js == NulledMembers(ns);
    }
  }

  lemma NulledObj(es: seq<Entry>)
    ensures Nulled(Obj(es)) == Obj(NulledMembers(es))
  {
  }

  /** The normal form of an accepted object. */
  lemma NormalObject(u: Unicode, o: Options, es: seq<Entry>)
    requires DistinctFolds(u, es) && MembersOk(u, o, es)
    ensures Normalize(u, o, Obj(es)) == Ok(Obj(Arrange(Map(Defined(es), NormalEntry(u, o)))))
    ensures DistinctKeys(Map(Defined(es), NormalEntry(u, o)), EntryKey)
  {
    NormalDefined(u, o, es);
    FilterDistinctKeys(NormalMembers(u, o, es), IsUndefined, false, EntryKey);
    AcceptedObject(u, o, es);
  }

  lemma DefinedAgree(u: Unicode, o: Options, es: seq<Entry>)
    requires AllAgree(u, o, es)
    ensures AllAgree(u, o, Defined(es))
  {
    forall k | 0 <= k < |Defined(es)| ensures Agrees(u, o, Defined(es)[k].value) {
      var i := DefinedFrom(es, k);
    }
  }

  lemma AgreesWhen(u: Unicode, o: Options, es: seq<Entry>, ns: seq<Entry>)
    requires Normalize(u, o, Obj(es)) == Ok(Obj(ns))
    requires AsJsonMembers(es) == NulledMembers(ns) <==> IsCanonical(u, o, Obj(es))
    ensures Agrees(u, o, Obj(es))
  {
    NulledObj(ns);
  }

  lemma ObjectAgrees(u: Unicode, o: Options, es: seq<Entry>)
    requires DistinctFolds(u, es) && MembersOk(u, o, es) && AllAgree(u, o, es)
    ensures Agrees(u, o, Obj(es))
  {
    NormalObject(u, o, es);
    DefinedAgree(u, o, es);
    AsJsonOfDefined(es);
    MembersAgree(u, o, Defined(es), AsJsonMembers(es));
    CanonicalObjectIff(u, o, es);
    AgreesWhen(u, o, es, Arrange(Map(Defined(es), NormalEntry(u, o))));
  }

  // ---------------------------------------------------------------------
  // assertCanonical
  // ---------------------------------------------------------------------

  lemma {:induction false} PrintableAgrees(u: Unicode, o: Options, v: Value)
    requires Printable(u, o, v)
    ensures Agrees(u, o, v)
    decreases v
  {
    match v
    case Arr(items) =>
      forall i | 0 <= i < |items| ensures Printable(u, o, items[i]) && Agrees(u, o, items[i]) {
        PrintableItem(u, o, items, i);
        PrintableAgrees(u, o, items[i]);
      }
      ArrayAgrees(u, o, items);
    case Obj(es) =>
      forall i | 0 <= i < |es| ensures Agrees(u, o, es[i].value) {
        PrintableMember(u, o, es, i);
        PrintableAgrees(u, o, es[i].value);
      }
      ObjectAgrees(u, o, es);
    case _ =>
  }

  lemma SamePrintIff(u: Unicode, o: Options, v: Value)
    requires Printable(u, o, v)
    ensures Print(v) == Print(Normalize(u, o, v).value) <==> AsJson(v) == Nulled(Normalize(u, o, v).value)
  {
    var w := Normalize(u, o, v).value;
    NormalizeGivesNormal(u, o, v);
    AsJsonIsJson(u, o, v);
    PrintAsJson(u, o, v);
    NulledIsJson(u, o, w);
    PrintNulled(u, o, w);
    if Print(v) == Print(w) { PrintInjective(AsJson(v), Nulled(w)); }
  }

  lemma PrintedTop(u: Unicode, o: Options, v: Value)
    requires Normalize(u, o, v).Ok? && !v.Undefined?
    ensures Stringify(v) == Some(Print(v))
    ensures Stringify(Normalize(u, o, v).value) == Some(Print(Normalize(u, o, v).value))
  {
  }

  /** `assertCanonical` passes exactly the payloads that are canonical as written, the bare undefined aside. */
  lemma AssertCanonicalIff(u: Unicode, o: Options, v: Value)
    ensures AssertCanonicalAccepts(u, o, v) <==> !v.Undefined? && IsCanonical(u, o, v)
  {
    if IsCanonical(u, o, v) { CanonicalIsAccepted(u, o, v); }
    if Printable(u, o, v) && !v.Undefined? {
      PrintableAgrees(u, o, v);
      SamePrintIff(u, o, v);
      PrintedTop(u, o, v);
    }
  }

  /** It passes every normal form but the bare undefined. */
  lemma AssertAcceptsNormal(u: Unicode, o: Options, v: Value)
    requires IsNormal(u, o, v) && !v.Undefined?
    ensures AssertCanonicalAccepts(u, o, v)
  {
    NormalIsFixed(u, o, v);
    NormalHasNoBig(u, o, v);
  }

  lemma {:induction false} NormalHasNoBig(u: Unicode, o: Options, v: Value)
    requires IsNormal(u, o, v)
    ensures !HasBig(v)
    decreases v
  {
    match v
    case Arr(items) =>
      forall i | 0 <= i < |items| ensures !HasBig(items[i]) { NormalHasNoBig(u, o, items[i]); }
    case Obj(es) =>
      forall i | 0 <= i < |es| ensures !HasBig(es[i].value) { NormalHasNoBig(u, o, es[i].value); }
    case _ =>
  }

  lemma {:induction false} CanonicalJsonIsNormal(u: Unicode, o: Options, v: Value)
    requires IsJson(v) && IsCanonical(u, o, v)
    ensures IsNormal(u, o, v)
    decreases v
  {
    match v
    case Arr(items) =>
      forall i | 0 <= i < |items| ensures IsNormal(u, o, items[i]) { CanonicalJsonIsNormal(u, o, items[i]); }
      if AllPrimitive(items) {
        forall i | 0 <= i < |items| ensures Flat(items[i]) { assert IsPrimitive(items[i]); }
      }
    case Obj(es) =>
      forall i | 0 <= i < |es| ensures IsNormal(u, o, es[i].value) { CanonicalJsonIsNormal(u, o, es[i].value); }
      FilterKeepsAll(es, IsUndefined, false);
      forall i, j | 0 <= i < j < |es| ensures EntryKey(es[i]) != EntryKey(es[j]) {
        assert FoldKey(u, es[i].key) != FoldKey(u, es[j].key);
      }
    case _ =>
  }

  /** On JSON data it passes exactly the normal forms. */
  lemma AssertCanonicalOnJson(u: Unicode, o: Options, v: Value)
    requires IsJson(v)
    ensures AssertCanonicalAccepts(u, o, v) <==> IsNormal(u, o, v)
  {
    AssertCanonicalIff(u, o, v);
    if IsNormal(u, o, v) { AssertAcceptsNormal(u, o, v); }
    if IsCanonical(u, o, v) { CanonicalJsonIsNormal(u, o, v); }
  }
}
