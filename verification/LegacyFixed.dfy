/**
 What legacy normalization leaves behind, and when a second pass changes nothing.
 */
module LegacyFixed {
  import opened Text
  import opened Sorting
  import opened Spelling
  import opened Values
  import opened Canonical
  import opened Legacy

  /** No dotted key, no repeated key, no boolean spelled as a string and no Date, at any depth. */
  ghost predicate Clean(u: Unicode, v: Value) {
    match v
    case Str(s) => LegacyString(u, s) == v
    case Instant(_) => false
    case BadDate => false
    case Arr(items) => forall i :: 0 <= i < |items| ==> Clean(u, items[i])
    case Obj(es) => CleanKeys(es) && forall i :: 0 <= i < |es| ==> Clean(u, es[i].value)
    case _ => true
  }

  ghost predicate CleanKeys(es: seq<Entry>) {
    DistinctKeys(es, EntryKey) && forall i :: 0 <= i < |es| ==> DotFree(es[i].key)
  }

  /** No member of any object is itself an object with a single array member. */
  ghost predicate WrapperFree(v: Value) {
    match v
    case Arr(items) => forall i :: 0 <= i < |items| ==> WrapperFree(items[i])
    case Obj(es) => forall i :: 0 <= i < |es| ==> !IsWrapper(es[i].value) && WrapperFree(es[i].value)
    case _ => true
  }

  // ---------------------------------------------------------------------
  // Unflattening leaves clean keys, and nothing to do on clean keys
  // ---------------------------------------------------------------------

  lemma SetCleanKeys(es: seq<Entry>, k: Text, v: Value)
    requires CleanKeys(es) && DotFree(k)
    ensures CleanKeys(Set(es, k, v))
  {
    var r := Set(es, k, v);
    forall i, j | 0 <= i < j < |r| ensures EntryKey(r[i]) != EntryKey(r[j]) {
      if j < |es| { assert EntryKey(es[i]) != EntryKey(es[j]); }
    }
  }

  lemma SetPathCleanKeys(es: seq<Entry>, parts: seq<Text>, v: Value)
    requires parts != [] && DotFree(parts[0]) && CleanKeys(es)
    ensures CleanKeys(SetPath(es, parts, v))
  {
    if |parts| == 1 {
      var k := parts[0];
      if Has(es, k) && (Get(es, k).Obj? || Get(es, k).Arr?) && (v.Obj? || v.Arr?) {
        SetCleanKeys(es, k, Assign(Get(es, k), v));
      } else {
        SetCleanKeys(es, k, v);
      }
    } else {
      SetCleanKeys(es, parts[0], Obj(SetPath(Child(es, parts[0]), parts[1..], v)));
    }
  }

  lemma {:induction false} UnflattenCleanKeys(result: seq<Entry>, es: seq<Entry>)
    requires CleanKeys(result)
    ensures CleanKeys(UnflattenInto(result, es))
    decreases |es|
  {
    if es != [] {
      SplitParts(es[0].key);
      SetPathCleanKeys(result, SplitDots(es[0].key), Processed(es[0].value));
      UnflattenCleanKeys(SetPath(result, SplitDots(es[0].key), Processed(es[0].value)), es[1..]);
    }
  }

  lemma {:induction false} ProcessedClean(u: Unicode, v: Value)
    requires Clean(u, v)
    ensures Processed(v) == v
    decreases v
  {
    if v.Obj? {
      forall i | 0 <= i < |v.entries| ensures Processed(v.entries[i].value) == v.entries[i].value {
        ProcessedClean(u, v.entries[i].value);
      }
      UnflattenNothing([], v.entries);
    }
  }

  lemma FreshKey(result: seq<Entry>, es: seq<Entry>)
    requires es != [] && CleanKeys(result + es)
    ensures !Has(result, es[0].key)
    ensures Set(result, es[0].key, es[0].value) == result + [es[0]]
  {
    var i := IndexOf(result, es[0].key);
    assert i < |result| ==> EntryKey((result + es)[i]) != EntryKey((result + es)[|result|]);
  }

  lemma {:induction false} UnflattenNothing(result: seq<Entry>, es: seq<Entry>)
    requires CleanKeys(result + es)
    requires forall i :: 0 <= i < |es| ==> Processed(es[i].value) == es[i].value
    ensures UnflattenInto(result, es) == result + es
    decreases |es|
  {
    if es != [] {
      assert (result + es)[|result|] == es[0];
      DotFreeHasNoDots(es[0].key);
      FreshKey(result, es);
      assert result + es == (result + [es[0]]) + es[1..];
      UnflattenNothing(result + [es[0]], es[1..]);
    }
  }

  // ---------------------------------------------------------------------
  // The outcome is clean
  // ---------------------------------------------------------------------

  lemma LegacyStringClean(u: Unicode, s: Text)
    ensures Clean(u, LegacyString(u, s))
  {
  }

  lemma {:induction false} LegacyIsClean(u: Unicode, v: Value)
    requires NormalizeLegacy(u, v).Ok?
    ensures Clean(u, NormalizeLegacy(u, v).value)
    decreases Depth(v), 1, 0
  {
    if v.Str? {
      LegacyStringClean(u, v.s);
    } else if v.Arr? {
      LegacyItemsClean(u, v.items);
    } else if ObjectLike(v) {
      var es := Unflatten(EntriesOf(v));
      UnflattenDepth(EntriesOf(v));
      UnflattenCleanKeys([], EntriesOf(v));
      LegacyMembersClean(u, es);
      CleanObject(u, es, LegacyMembers(u, es).value);
    }
  }

  lemma KeysSurvive(es: seq<Entry>, ws: seq<Entry>)
    requires CleanKeys(es) && |ws| == |es| && forall i :: 0 <= i < |es| ==> ws[i].key == es[i].key
    ensures CleanKeys(ws)
  {
    forall i, j | 0 <= i < j < |ws| ensures EntryKey(ws[i]) != EntryKey(ws[j]) {
      assert EntryKey(es[i]) != EntryKey(es[j]);
    }
  }

  lemma CleanObject(u: Unicode, es: seq<Entry>, ws: seq<Entry>)
    requires CleanKeys(es) && |ws| == |es|
    requires forall i :: 0 <= i < |es| ==> ws[i].key == es[i].key
    requires forall i :: 0 <= i < |es| ==> Clean(u, ws[i].value)
    ensures Clean(u, Obj(ws))
  {
    KeysSurvive(es, ws);
  }

  lemma {:induction false} LegacyItemsClean(u: Unicode, items: seq<Value>)
    requires LegacyItems(u, items).Ok?
    ensures forall i :: 0 <= i < |items| ==> Clean(u, LegacyItems(u, items).value[i])
    decreases ItemsDepth(items), 2, |items|
  {
    if items != [] {
      LegacyIsClean(u, items[0]);
      LegacyItemsClean(u, items[1..]);
    }
  }

  lemma {:induction false} LegacyMembersClean(u: Unicode, es: seq<Entry>)
    requires LegacyMembers(u, es).Ok?
    ensures forall i :: 0 <= i < |es| ==> LegacyMembers(u, es).value[i].key == es[i].key
    ensures forall i :: 0 <= i < |es| ==> Clean(u, LegacyMembers(u, es).value[i].value)
    decreases MembersDepth(es), 0, |es|
  {
    if es != [] {
      MemberInDepth(es, 0);
      LegacyMemberClean(u, es[0]);
      LegacyMembersClean(u, es[1..]);
    }
  }

  lemma {:induction false} LegacyMemberClean(u: Unicode, e: Entry)
    requires LegacyMember(u, e).Ok?
    ensures Clean(u, LegacyMember(u, e).value)
    decreases Depth(e.value), 3, 0
  {
    if IsWrapper(e.value) {
      MemberInDepth(e.value.entries, 0);
      LegacyItemsClean(u, e.value.entries[0].value.items);
    } else {
      LegacyIsClean(u, e.value);
    }
  }

  // ---------------------------------------------------------------------
  // When a clean value is left alone
  // ---------------------------------------------------------------------

  lemma {:induction false} CleanFixedIff(u: Unicode, v: Value)
    requires Clean(u, v)
    ensures NormalizeLegacy(u, v) == Ok(v) <==> WrapperFree(v)
    decreases v, 1
  {
    match v
    case Arr(items) => CleanItemsIff(u, items);
    case Obj(es) =>
      ProcessedClean(u, v);
      UnflattenDepth(es);
      CleanMembersIff(u, es);
      WrapperFreeObject(es);
    case _ =>
  }

  lemma {:induction false} CleanItemsIff(u: Unicode, items: seq<Value>)
    requires forall i :: 0 <= i < |items| ==> Clean(u, items[i])
    ensures LegacyItems(u, items) == Ok(items) <==> forall i :: 0 <= i < |items| ==> WrapperFree(items[i])
    decreases items, 0
  {
    if items != [] {
      CleanFixedIff(u, items[0]);
      CleanItemsIff(u, items[1..]);
      assert items == [items[0]] + items[1..];
      assert forall i :: 0 <= i < |items| ==> i == 0 || items[i] == items[1..][i - 1];
    }
  }

  ghost predicate Bare(e: Entry) {
    !IsWrapper(e.value) && WrapperFree(e.value)
  }

  lemma MembersKept(u: Unicode, es: seq<Entry>)
    requires es != []
    ensures LegacyMembers(u, es) == Ok(es) <==>
            LegacyMember(u, es[0]) == Ok(es[0].value) && LegacyMembers(u, es[1..]) == Ok(es[1..])
  {
    MemberInDepth(es, 0);
    assert es == [Entry(es[0].key, es[0].value)] + es[1..];
  }

  lemma MemberKeptIff(u: Unicode, e: Entry)
    requires NormalizeLegacy(u, e.value) == Ok(e.value) <==> WrapperFree(e.value)
    ensures LegacyMember(u, e) == Ok(e.value) <==> Bare(e)
  {
  }

  ghost predicate AllBare(es: seq<Entry>) {
    forall i :: 0 <= i < |es| ==> Bare(es[i])
  }

  lemma AllBareCons(es: seq<Entry>)
    requires es != []
    ensures AllBare(es) <==> Bare(es[0]) && AllBare(es[1..])
  {
    assert forall i :: 0 <= i < |es| ==> i == 0 || es[i] == es[1..][i - 1];
  }

  lemma {:induction false} CleanMembersIff(u: Unicode, es: seq<Entry>)
    requires forall i :: 0 <= i < |es| ==> Clean(u, es[i].value)
    ensures LegacyMembers(u, es) == Ok(es) <==> AllBare(es)
    decreases es, 0
  {
    if es != [] {
      CleanFixedIff(u, es[0].value);
      MemberKeptIff(u, es[0]);
      CleanMembersIff(u, es[1..]);
      MembersKept(u, es);
      AllBareCons(es);
    }
  }

  lemma WrapperFreeObject(es: seq<Entry>)
    ensures WrapperFree(Obj(es)) <==> AllBare(es)
  {
    if AllBare(es) {
      forall i | 0 <= i < |es| ensures !IsWrapper(es[i].value) && WrapperFree(es[i].value) { assert Bare(es[i]); }
    }
  }

  lemma OneLegacyMember(u: Unicode, e: Entry, es: seq<Entry>)
    requires |es| == 1 && es[0] == e
    ensures LegacyMembers(u, es) ==
            match LegacyMember(u, e) { case Ok(w) => Ok([Entry(e.key, w)]) case Rejected => Rejected }
  {
    assert es[1..] == [];
    MemberInDepth(es, 0);
    assert LegacyMembers(u, []) == Ok([]);
    match LegacyMember(u, e)
    case Ok(w) => assert [Entry(e.key, w)] + [] == [Entry(e.key, w)];
    case Rejected =>
  }

  // ---------------------------------------------------------------------
  // Which payloads come out with a nested wrapper
  // ---------------------------------------------------------------------

  /** Unflattened, an object with one member, an array or itself wrapping one. */
  predicate BecomesWrapper(v: Value) {
    ObjectLike(v)
    && var es := Unflatten(EntriesOf(v));
       |es| == 1 && (es[0].value.Arr? || IsWrapper(es[0].value))
  }

  /**
   Somewhere in the payload a member object, unflattened, has a single member
   that is an array or itself an array wrapper: the first pass leaves it looking
   like a wrapper.
   */
  predicate Hides(v: Value)
    decreases Depth(v), 1, 0
  {
    if v.Arr? then HidesInItems(v.items)
    else
      UnflattenDepth(EntriesOf(v));
      ObjectLike(v) && HidesInMembers(Unflatten(EntriesOf(v)))
  }

  predicate HidesInItems(items: seq<Value>)
    decreases ItemsDepth(items), 2, |items|
  {
    items != [] && (Hides(items[0]) || HidesInItems(items[1..]))
  }

  predicate HidesInMembers(es: seq<Entry>)
    decreases MembersDepth(es), 0, |es|
  {
    es != []
    && (MemberInDepth(es, 0);
        HidesInMember(es[0]) || HidesInMembers(es[1..]))
  }

  /** A wrapper at this place is read as its array. */
  predicate HidesInMember(e: Entry)
    decreases Depth(e.value), 3, 0
  {
    if IsWrapper(e.value) then
      MemberInDepth(e.value.entries, 0);
      HidesInItems(e.value.entries[0].value.items)
    else BecomesWrapper(e.value) || Hides(e.value)
  }

  lemma ArrayIff(u: Unicode, e: Entry)
    requires LegacyMember(u, e).Ok?
    ensures LegacyMember(u, e).value.Arr? <==> e.value.Arr? || IsWrapper(e.value)
  {
  }

  lemma WrapperIff(u: Unicode, v: Value)
    requires NormalizeLegacy(u, v).Ok?
    ensures IsWrapper(NormalizeLegacy(u, v).value) <==> BecomesWrapper(v)
  {
    if ObjectLike(v) {
      var es := Unflatten(EntriesOf(v));
      UnflattenDepth(EntriesOf(v));
      if |es| == 1 {
        OneLegacyMember(u, es[0], es);
        ArrayIff(u, es[0]);
      }
    }
  }

  /** The first pass leaves a nested wrapper exactly where the payload hides one. */
  lemma {:induction false} HidesIff(u: Unicode, v: Value)
    requires NormalizeLegacy(u, v).Ok?
    ensures WrapperFree(NormalizeLegacy(u, v).value) <==> !Hides(v)
    decreases Depth(v), 1, 0
  {
    if v.Arr? {
      HidesInItemsIff(u, v.items);
    } else if ObjectLike(v) {
      var es := Unflatten(EntriesOf(v));
      UnflattenDepth(EntriesOf(v));
      HidesInMembersIff(u, es);
      WrapperFreeObject(LegacyMembers(u, es).value);
    }
  }

  ghost predicate AllWrapperFree(items: seq<Value>) {
    forall i :: 0 <= i < |items| ==> WrapperFree(items[i])
  }

  lemma AllWrapperFreeCons(w: Value, ws: seq<Value>)
    ensures AllWrapperFree([w] + ws) <==> WrapperFree(w) && AllWrapperFree(ws)
  {
    var all := [w] + ws;
    assert all[0] == w && all[1..] == ws;
    assert forall i :: 0 <= i < |all| ==> i == 0 || all[i] == ws[i - 1];
    assert forall i :: 0 <= i < |ws| ==> ws[i] == all[i + 1];
  }

  lemma {:induction false} HidesInItemsIff(u: Unicode, items: seq<Value>)
    requires LegacyItems(u, items).Ok?
    ensures AllWrapperFree(LegacyItems(u, items).value) <==> !HidesInItems(items)
    decreases ItemsDepth(items), 2, |items|
  {
    if items != [] {
      HidesIff(u, items[0]);
      HidesInItemsIff(u, items[1..]);
      AllWrapperFreeCons(NormalizeLegacy(u, items[0]).value, LegacyItems(u, items[1..]).value);
    }
  }

  lemma {:induction false} HidesInMembersIff(u: Unicode, es: seq<Entry>)
    requires LegacyMembers(u, es).Ok?
    ensures AllBare(LegacyMembers(u, es).value) <==> !HidesInMembers(es)
    decreases MembersDepth(es), 0, |es|
  {
    if es != [] {
      MemberInDepth(es, 0);
      HidesInMemberIff(u, es[0]);
      HidesInMembersIff(u, es[1..]);
      var ws := LegacyMembers(u, es).value;
      AllBareCons(ws);
      assert ws[1..] == LegacyMembers(u, es[1..]).value;
    }
  }

  lemma {:induction false} HidesInMemberIff(u: Unicode, e: Entry)
    requires LegacyMember(u, e).Ok?
    ensures Bare(Entry(e.key, LegacyMember(u, e).value)) <==> !HidesInMember(e)
    decreases Depth(e.value), 3, 0
  {
    if IsWrapper(e.value) {
      MemberInDepth(e.value.entries, 0);
      HidesInItemsIff(u, e.value.entries[0].value.items);
    } else {
      WrapperIff(u, e.value);
      HidesIff(u, e.value);
    }
  }

  /** A second pass changes nothing exactly when the payload hides no wrapper. */
  lemma LegacyIdempotentIff(u: Unicode, v: Value)
    requires NormalizeLegacy(u, v).Ok?
    ensures NormalizeLegacy(u, NormalizeLegacy(u, v).value) == NormalizeLegacy(u, v) <==> !Hides(v)
  {
    LegacyIsClean(u, v);
    CleanFixedIff(u, NormalizeLegacy(u, v).value);
    HidesIff(u, v);
  }

  lemma OneMember(u: Unicode, k: Text, v: Value)
    requires DotFree(k) && Processed(v) == v
    ensures NormalizeLegacy(u, Obj([Entry(k, v)])) ==
            match LegacyMember(u, Entry(k, v)) { case Ok(w) => Ok(Obj([Entry(k, w)])) case Rejected => Rejected }
  {
    var es := [Entry(k, v)];
    assert CleanKeys([] + es);
    UnflattenNothing([], es);
    assert [] + es == es;
    OneLegacyMember(u, es[0], es);
  }

  /**
   A family on which legacy normalization is not idempotent: a known wrapper one
   level down is unwrapped, and the object around it is then taken for an
   unknown wrapper.
   */
  lemma NestedWrapperIsRefusedLater(u: Unicode, a: Text, b: Text, c: Text)
    requires DotFree(a) && DotFree(b) && DotFree(c) && FoldKey(u, c) == ITEM
    requires FoldKey(u, b) != ITEM && FoldKey(u, b) != Singular(FoldKey(u, a))
    ensures var v := Obj([Entry(a, Obj([Entry(b, Obj([Entry(c, Arr([]))]))]))]);
            var w := Obj([Entry(a, Obj([Entry(b, Arr([]))]))]);
            NormalizeLegacy(u, v) == Ok(w) && NormalizeLegacy(u, w) == Rejected
  {
    var leaf, bare := Obj([Entry(c, Arr([]))]), Obj([Entry(b, Arr([]))]);
    OneProcessed(c, Arr([]));
    OneProcessed(b, leaf);
    OneProcessed(b, Arr([]));
    assert LegacyItems(u, []) == Ok([]);
    assert LegacyMember(u, Entry(b, leaf)) == Ok(Arr([]));
    OneMember(u, b, leaf);
    assert LegacyMember(u, Entry(a, Obj([Entry(b, leaf)]))) == Ok(bare);
    OneMember(u, a, Obj([Entry(b, leaf)]));
    assert LegacyMember(u, Entry(a, bare)) == Rejected;
    OneMember(u, a, bare);
  }

  lemma OneProcessed(k: Text, v: Value)
    requires DotFree(k) && Processed(v) == v
    ensures Processed(Obj([Entry(k, v)])) == Obj([Entry(k, v)])
  {
    var es := [Entry(k, v)];
    assert CleanKeys([] + es);
    UnflattenNothing([], es);
    assert [] + es == es;
  }

  /** A known array wrapper means its array; an unknown one is refused. */
  lemma WrapperMeansItsArray(u: Unicode, k: Text, inner: Text, items: seq<Value>)
    requires DotFree(k) && DotFree(inner)
    ensures var wrapped, plain := Obj([Entry(k, Obj([Entry(inner, Arr(items))]))]), Obj([Entry(k, Arr(items))]);
            NormalizeLegacy(u, wrapped) ==
              if FoldKey(u, inner) == ITEM || FoldKey(u, inner) == Singular(FoldKey(u, k))
              then NormalizeLegacy(u, plain) else Rejected
  {
    OneProcessed(inner, Arr(items));
    OneMember(u, k, Obj([Entry(inner, Arr(items))]));
    OneMember(u, k, Arr(items));
  }
}
