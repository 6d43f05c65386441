/**
 When a JSON parser recovers the normal form from the canonical text, for every
 choice of options: only undefined array items are lost in print.
 */
module ParseBack {
  import opened Sorting
  import opened Spelling
  import opened Values
  import opened Canonical
  import opened CanonicalText
  import opened AssertCanonical

  /** Some array of the payload, at any depth, holds an undefined item. */
  predicate HasUndefinedItem(v: Value) {
    match v
    case Arr(items) => exists i :: 0 <= i < |items| && (items[i].Undefined? || HasUndefinedItem(items[i]))
    case Obj(es) => exists i :: 0 <= i < |es| && HasUndefinedItem(es[i].value)
    case _ => false
  }

  /** Nothing of the value is lost in print. */
  ghost predicate Kept(v: Value) {
    Nulled(v) == v
  }

  ghost predicate AllKept(es: seq<Entry>) {
    forall x :: x in es ==> Kept(x.value)
  }

  lemma KeptItems(ws: seq<Value>)
    ensures Kept(Arr(ws)) <==> forall i :: 0 <= i < |ws| ==> Kept(ws[i])
  {
    NulledArr(ws);
    assert NulledItems(ws) == ws <==> forall i :: 0 <= i < |ws| ==> Kept(ws[i]);
  }

  lemma KeptObject(es: seq<Entry>)
    ensures Kept(Obj(es)) <==> AllKept(es)
  {
    NulledObj(es);
    if AllKept(es) {
      forall i | 0 <= i < |es| ensures NulledMembers(es)[i] == es[i] { assert es[i] in es; }
      assert NulledMembers(es) == es;
    }
    if Kept(Obj(es)) {
      forall x | x in es ensures Kept(x.value) {
        var i :| 0 <= i < |es| && es[i] == x;
        assert NulledMembers(es)[i] == es[i];
      }
    }
  }

  lemma ArrangedKept(es: seq<Entry>)
    ensures AllKept(Arrange(es)) <==> AllKept(es)
  {
    ArrangeKeepsEntries(es);
    forall x ensures x in Arrange(es) <==> x in es {
      assert x in multiset(Arrange(es)) <==> x in multiset(es);
    }
  }

  /** The normal form of the member loses nothing exactly when the member has no undefined item. */
  ghost predicate MemberAgrees(u: Unicode, o: Options, e: Entry) {
    Kept(NormalEntry(u, o)(e).value) <==> !e.value.Undefined? && !HasUndefinedItem(e.value)
  }

  lemma DefinedMember(es: seq<Entry>, i: nat) returns (k: nat)
    requires i < |es| && !es[i].value.Undefined?
    ensures k < |Defined(es)| && Defined(es)[k] == es[i]
  {
    FilterMembers(es, IsUndefined, false, es[i]);
    k :| 0 <= k < |Defined(es)| && Defined(es)[k] == es[i];
  }

  ghost predicate MembersAgree(u: Unicode, o: Options, es: seq<Entry>) {
    forall i :: 0 <= i < |es| ==> MemberAgrees(u, o, es[i])
  }

  lemma KeptMembersHaveNone(u: Unicode, o: Options, es: seq<Entry>, i: nat)
    requires MembersAgree(u, o, es) && AllKept(Map(Defined(es), NormalEntry(u, o))) && i < |es|
    ensures !HasUndefinedItem(es[i].value)
  {
    if !es[i].value.Undefined? {
      var k := DefinedMember(es, i);
      assert Map(Defined(es), NormalEntry(u, o))[k] in Map(Defined(es), NormalEntry(u, o));
      assert MemberAgrees(u, o, es[i]);
    }
  }

  lemma MembersWithoutAreKept(u: Unicode, o: Options, es: seq<Entry>, k: nat)
    requires MembersAgree(u, o, es) && NoneIn(es) && k < |Defined(es)|
    ensures Kept(NormalEntry(u, o)(Defined(es)[k]).value)
  {
    var i := DefinedFrom(es, k);
    assert MemberAgrees(u, o, es[i]);
  }

  /** No member has an undefined item. */
  ghost predicate NoneIn(es: seq<Entry>) {
    forall i :: 0 <= i < |es| ==> !HasUndefinedItem(es[i].value)
  }

  lemma AllKeptMeansNone(u: Unicode, o: Options, es: seq<Entry>)
    requires MembersAgree(u, o, es) && AllKept(Map(Defined(es), NormalEntry(u, o)))
    ensures NoneIn(es)
  {
    forall i | 0 <= i < |es| ensures !HasUndefinedItem(es[i].value) { KeptMembersHaveNone(u, o, es, i); }
  }

  lemma NoneMeansAllKept(u: Unicode, o: Options, es: seq<Entry>)
    requires MembersAgree(u, o, es) && NoneIn(es)
    ensures AllKept(Map(Defined(es), NormalEntry(u, o)))
  {
    var ns := Map(Defined(es), NormalEntry(u, o));
    forall k | 0 <= k < |ns| ensures Kept(ns[k].value) { MembersWithoutAreKept(u, o, es, k); }
    KeptEverywhere(ns);
  }

  lemma KeptEverywhere(ns: seq<Entry>)
    requires forall k :: 0 <= k < |ns| ==> Kept(ns[k].value)
    ensures AllKept(ns)
  {
  }

  lemma MembersKept(u: Unicode, o: Options, es: seq<Entry>)
    requires MembersAgree(u, o, es)
    ensures AllKept(Map(Defined(es), NormalEntry(u, o))) <==> NoneIn(es)
  {
    if AllKept(Map(Defined(es), NormalEntry(u, o))) { AllKeptMeansNone(u, o, es); }
    if NoneIn(es) { NoneMeansAllKept(u, o, es); }
  }

  ghost predicate ItemAgrees(u: Unicode, o: Options, v: Value) {
    Normalize(u, o, v).Ok? && (Kept(Normalize(u, o, v).value) <==> !v.Undefined? && !HasUndefinedItem(v))
  }

  lemma ItemsKept(u: Unicode, o: Options, items: seq<Value>)
    requires ItemsOk(u, o, items) && forall i :: 0 <= i < |items| ==> ItemAgrees(u, o, items[i])
    ensures Kept(Arr(NormalItems(u, o, items))) <==> !HasUndefinedItem(Arr(items))
  {
    var ws := NormalItems(u, o, items);
    KeptItems(ws);
    forall i | 0 <= i < |items| ensures Kept(ws[i]) <==> !items[i].Undefined? && !HasUndefinedItem(items[i]) {
      assert ItemAgrees(u, o, items[i]);
    }
  }

  lemma PrimitivesKept(ws: seq<Value>)
    requires AllPrimitive(ws)
    ensures Kept(Arr(ws)) && Kept(Arr(Sort(ws, Print)))
  {
    NulledPrimitives(ws);
    NulledArr(ws);
    SortedPrimitives(ws);
    NulledArr(Sort(ws, Print));
  }

  lemma ArrayKeptIff(u: Unicode, o: Options, items: seq<Value>)
    requires ItemsOk(u, o, items) && forall i :: 0 <= i < |items| ==> ItemAgrees(u, o, items[i])
    ensures Kept(FinishArray(o, NormalItems(u, o, items))) <==> !HasUndefinedItem(Arr(items))
  {
    ItemsKept(u, o, items);
    if AllPrimitive(NormalItems(u, o, items)) { PrimitivesKept(NormalItems(u, o, items)); }
  }

  /** The normal form of a payload loses nothing in print exactly when the payload has no undefined item. */
  lemma {:induction false} KeptIff(u: Unicode, o: Options, v: Value)
    requires Normalize(u, o, v).Ok?
    ensures Kept(Normalize(u, o, v).value) <==> !v.Undefined? && !HasUndefinedItem(v)
    decreases v
  {
    match v
    case Arr(items) =>
      forall i | 0 <= i < |items| ensures ItemAgrees(u, o, items[i]) {
        KeptIff(u, o, items[i]);
      }
      ArrayKeptIff(u, o, items);
    case Obj(es) =>
      forall i | 0 <= i < |es| ensures MemberAgrees(u, o, es[i]) {
        KeptIff(u, o, es[i].value);
      }
      MembersKept(u, o, es);
      NormalObject(u, o, es);
      ArrangedKept(Map(Defined(es), NormalEntry(u, o)));
      KeptObject(Arrange(Map(Defined(es), NormalEntry(u, o))));
    case _ =>
  }

  /**
   For all options: the canonical text parses, and back to the normal form
   exactly when no array of the payload holds an undefined item.
   */
  lemma TextParsesBackIff(u: Unicode, o: Options, v: Value)
    requires Normalize(u, o, v).Ok? && !v.Undefined?
    ensures Canonicalize(u, o, v).value.Some?
    ensures ParseValue(Canonicalize(u, o, v).value.value) == Parsed(Nulled(Normalize(u, o, v).value), [])
    ensures ParseValue(Canonicalize(u, o, v).value.value) == Parsed(Normalize(u, o, v).value, [])
            <==> !HasUndefinedItem(v)
  {
    var w := Normalize(u, o, v).value;
    NormalizeGivesNormal(u, o, v);
    NulledIsJson(u, o, w);
    PrintNulled(u, o, w);
    RoundTrip(Nulled(w), []);
    assert Print(w) + [] == Print(w);
    PrintedTop(u, o, v);
    KeptIff(u, o, v);
  }

  /** Payloads without undefined items compare equal exactly when their normal forms are. */
  lemma EqualWithoutUndefinedItems(u: Unicode, o: Options, a: Value, b: Value)
    requires !HasUndefinedItem(a) && !HasUndefinedItem(b)
    ensures IsCanonicallyEqual(u, o, a, b) <==>
              Normalize(u, o, a).Ok? && Normalize(u, o, a) == Normalize(u, o, b)
  {
    EqualTextIff(u, o, a, b);
    if Normalize(u, o, a).Ok? && Normalize(u, o, b).Ok? {
      KeptIff(u, o, a);
      KeptIff(u, o, b);
      UndefinedStays(u, o, a);
      UndefinedStays(u, o, b);
    }
  }
}
