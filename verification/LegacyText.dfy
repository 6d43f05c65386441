/**
 Legacy and modern payloads meet in one canonical text: the dotted-path form of
 a nested object canonicalizes, through legacy normalization, to the text of
 the object itself.
 */
module LegacyText {
  import opened Wrappers
  import opened Text
  import opened Sorting
  import opened Spelling
  import opened Values
  import opened Canonical
  import opened CanonicalText
  import opened Respelling
  import opened Receipt
  import opened Legacy
  import opened LegacyFixed
  import opened LegacyFlatten

  // ---------------------------------------------------------------------
  // Normalization respects equality up to key order
  // ---------------------------------------------------------------------

  /** Distinct keys in every object, at any depth. */
  ghost predicate Tidy(v: Value) {
    match v
    case Arr(items) => forall i :: 0 <= i < |items| ==> Tidy(items[i])
    case Obj(es) => DistinctKeys(es, EntryKey) && forall i :: 0 <= i < |es| ==> Tidy(es[i].value)
    case _ => true
  }

  lemma {:induction false} SameJsonReflexive(v: Value)
    ensures SameJson(v, v)
    decreases v
  {
    match v
    case Arr(items) =>
      forall i | 0 <= i < |items| ensures SameJson(items[i], items[i]) { SameJsonReflexive(items[i]); }
    case Obj(es) =>
      forall i | 0 <= i < |es| ensures HasTwin(es[i], es) {
        SameJsonReflexive(es[i].value);
        TwinWitness(es[i], es, i);
      }
    case _ =>
  }

  lemma TwinWitness(e: Entry, es: seq<Entry>, j: nat)
    requires j < |es| && e.key == es[j].key && SameJson(e.value, es[j].value)
    ensures HasTwin(e, es)
  {
  }

  /** The twins of the members of `a`, in the order of `a`. */
  ghost predicate Twins(a: seq<Entry>, b: seq<Entry>, ts: seq<Entry>) {
    && |ts| == |a|
    && forall i :: 0 <= i < |a| ==>
         ts[i] in b && ts[i].key == a[i].key && SameJson(a[i].value, ts[i].value)
  }

  lemma {:induction false} FindTwins(a: seq<Entry>, b: seq<Entry>, n: nat) returns (ts: seq<Entry>)
    requires n <= |a| && forall i :: 0 <= i < |a| ==> HasTwin(a[i], b)
    ensures Twins(a[..n], b, ts)
    decreases n
  {
    if n == 0 {
      ts := [];
    } else {
      var front := FindTwins(a, b, n - 1);
      var j := TwinOf(a[n - 1], b);
      assert b[j] in b;
      ts := front + [b[j]];
      assert a[..n] == a[..n - 1] + [a[n - 1]];
    }
  }

  lemma TwinsPermute(a: seq<Entry>, b: seq<Entry>, ts: seq<Entry>)
    requires DistinctKeys(a, EntryKey) && |a| == |b| && Twins(a, b, ts)
    ensures multiset(ts) == multiset(b)
  {
    forall i, j | 0 <= i < j < |ts| ensures ts[i] != ts[j] {
      assert EntryKey(a[i]) != EntryKey(a[j]);
    }
    Permutes(ts, b);
  }

  /** Key order is irrelevant to normalization, at every depth at once. */
  lemma {:induction false} NormalizeRespectsOrder(u: Unicode, o: Options, a: Value, b: Value)
    requires Tidy(a) && SameJson(a, b)
    ensures Normalize(u, o, a) == Normalize(u, o, b)
    decreases a
  {
    if a.Arr? && b.Arr? {
      forall i | 0 <= i < |a.items| ensures Normalize(u, o, a.items[i]) == Normalize(u, o, b.items[i]) {
        NormalizeRespectsOrder(u, o, a.items[i], b.items[i]);
      }
      SameItems(u, o, a.items, b.items);
    } else if a.Obj? && b.Obj? {
      var ts := FindTwins(a.entries, b.entries, |a.entries|);
      assert a.entries[..|a.entries|] == a.entries;
      forall i | 0 <= i < |a.entries| ensures Normalize(u, o, a.entries[i].value) == Normalize(u, o, ts[i].value) {
        NormalizeRespectsOrder(u, o, a.entries[i].value, ts[i].value);
      }
      SameMembers(u, o, a.entries, ts);
      TwinsPermute(a.entries, b.entries, ts);
      ReorderedObject(u, o, ts, b.entries);
    }
  }

  // ---------------------------------------------------------------------
  // The same tree is the same value up to key order
  // ---------------------------------------------------------------------

  /** Distinct keys in every object of the tree; arrays and scalars are not looked into. */
  ghost predicate TidyTree(es: seq<Entry>) {
    DistinctKeys(es, EntryKey) && forall i :: 0 <= i < |es| ==> TidyMember(es[i])
  }

  ghost predicate TidyMember(e: Entry) {
    e.value.Obj? ==> TidyTree(e.value.entries)
  }

  lemma SubTree(a: seq<Entry>, b: seq<Entry>, k: Text)
    requires SameTree(a, b) && Has(a, k) && Has(b, k)
    requires Get(a, k).Obj? && Get(b, k).Obj? && Get(a, k).entries != [] && Get(b, k).entries != []
    ensures SameTree(Get(a, k).entries, Get(b, k).entries)
  {
    forall p: seq<Text> | p != []
      ensures ShapeIn(Get(a, k).entries, p) == ShapeIn(Get(b, k).entries, p)
    {
      var q := [k] + p;
      assert q[0] == k && q[1..] == p;
      assert ShapeIn(a, q) == ShapeIn(b, q);
    }
  }

  /** What is found at a key of the tree. */
  lemma TopShape(a: seq<Entry>, b: seq<Entry>, i: nat)
    requires SameTree(a, b) && DistinctKeys(a, EntryKey) && i < |a|
    ensures Has(b, a[i].key)
    ensures var v, w := a[i].value, Get(b, a[i].key);
            if v.Obj? && v.entries != [] then w.Obj? && w.entries != [] else w == v
  {
    DistinctIndex(a, i);
    var p := [a[i].key];
    assert p[0] == a[i].key && p[1..] == [];
    assert ShapeIn(a, p) == ShapeIn(b, p);
  }

  lemma {:induction false} SameTreeSameJson(a: seq<Entry>, b: seq<Entry>)
    requires TidyTree(a) && TidyTree(b) && SameTree(a, b)
    ensures SameJson(Obj(a), Obj(b))
    decreases a
  {
    forall i | 0 <= i < |a| ensures HasTwin(a[i], b) {
      TopShape(a, b, i);
      DistinctIndex(a, i);
      var j := IndexOf(b, a[i].key);
      if a[i].value.Obj? && a[i].value.entries != [] {
        SubTree(a, b, a[i].key);
        assert TidyMember(a[i]) && TidyMember(b[j]);
        SameTreeSameJson(a[i].value.entries, b[j].value.entries);
      } else {
        SameJsonReflexive(a[i].value);
      }
      TwinWitness(a[i], b, j);
    }
    SameSize(a, b);
  }

  lemma KeysWithin(a: seq<Entry>, b: seq<Entry>)
    requires DistinctKeys(a, EntryKey) && SameTree(a, b)
    ensures |a| <= |b|
  {
    var ks, ls := Map(a, EntryKey), Map(b, EntryKey);
    forall i, j | 0 <= i < j < |ks| ensures ks[i] != ks[j] {
      assert EntryKey(a[i]) != EntryKey(a[j]);
    }
    forall i | 0 <= i < |ks| ensures ks[i] in ls {
      TopShape(a, b, i);
      assert ls[IndexOf(b, a[i].key)] == ks[i];
    }
    NoLonger(ks, ls);
  }

  lemma SameSize(a: seq<Entry>, b: seq<Entry>)
    requires DistinctKeys(a, EntryKey) && DistinctKeys(b, EntryKey) && SameTree(a, b)
    ensures |a| == |b|
  {
    KeysWithin(a, b);
    KeysWithin(b, a);
  }

  // ---------------------------------------------------------------------
  // Clean objects
  // ---------------------------------------------------------------------

  lemma {:induction false} CleanIsNested(u: Unicode, es: seq<Entry>)
    requires Clean(u, Obj(es))
    ensures Nested(es) && TidyTree(es)
    decreases es
  {
    forall i | 0 <= i < |es| ensures NestedMember(es[i]) && TidyMember(es[i]) {
      assert Clean(u, es[i].value);
      if es[i].value.Obj? { CleanIsNested(u, es[i].value.entries); }
    }
  }

  lemma {:induction false} CleanIsTidy(u: Unicode, v: Value)
    requires Clean(u, v)
    ensures Tidy(v)
    decreases v
  {
    match v
    case Arr(items) => forall i | 0 <= i < |items| ensures Tidy(items[i]) { CleanIsTidy(u, items[i]); }
    case Obj(es) => forall i | 0 <= i < |es| ensures Tidy(es[i].value) { CleanIsTidy(u, es[i].value); }
    case _ =>
  }

  lemma {:induction false} LeafIsClean(u: Unicode, es: seq<Entry>, l: Leaf)
    requires Clean(u, Obj(es)) && l in Leaves(es)
    ensures Clean(u, l.value)
    decreases es
  {
    var i := LeafOrigin(es, l);
    var e := es[i];
    assert Clean(u, e.value);
    if e.value.Obj? && e.value.entries != [] {
      UnderMember(e.key, Leaves(e.value.entries), l);
      LeafIsClean(u, e.value.entries, Leaf(l.path[1..], l.value));
    }
  }

  /** Storing under one key keeps an object clean. */
  lemma SetClean(u: Unicode, es: seq<Entry>, k: Text, v: Value)
    requires Clean(u, Obj(es)) && DotFree(k) && Clean(u, v)
    ensures Clean(u, Obj(Set(es, k, v)))
  {
    SetCleanKeys(es, k, v);
    var r := Set(es, k, v);
    forall i | 0 <= i < |r| ensures Clean(u, r[i].value) {}
  }

  /** Storing a clean value at a free dot-free path keeps the tree clean. */
  lemma {:induction false} SetPathClean(u: Unicode, es: seq<Entry>, q: seq<Text>, x: Value)
    requires Clean(u, Obj(es)) && Clean(u, x)
    requires q != [] && Free(es, q) && forall i :: 0 <= i < |q| ==> DotFree(q[i])
    ensures Clean(u, Obj(SetPath(es, q, x)))
    decreases |q|
  {
    if |q| == 1 {
      assert q[1..] == [];
      assert !Has(es, q[0]);
      SetClean(u, es, q[0], x);
    } else {
      var c := Child(es, q[0]);
      FreeChild(es, q);
      ChildClean(u, es, q[0]);
      SetPathClean(u, c, q[1..], x);
      SetClean(u, es, q[0], Obj(SetPath(c, q[1..], x)));
    }
  }

  lemma ChildClean(u: Unicode, es: seq<Entry>, k: Text)
    requires Clean(u, Obj(es)) && (Has(es, k) ==> Get(es, k).Obj?)
    ensures Clean(u, Obj(Child(es, k)))
  {
    if Has(es, k) {
      assert Clean(u, es[IndexOf(es, k)].value);
      assert Obj(Child(es, k)) == Get(es, k);
    }
  }

  lemma {:induction false} UnflattenClean(u: Unicode, result: seq<Entry>, done: seq<Leaf>, todo: seq<Leaf>)
    requires Clean(u, Obj(result)) && Holds(result, done) && GoodLeaves(todo) && Antichain(done + todo)
    requires forall i :: 0 <= i < |todo| ==> Clean(u, todo[i].value)
    ensures Clean(u, Obj(UnflattenInto(result, Map(todo, DottedEntry))))
    decreases |todo|
  {
    if todo != [] {
      var l := todo[0];
      SplitDotted(l);
      assert (done + todo)[..|done| + 1] == done + [l];
      AntichainPrefix(done + todo, |done| + 1);
      NextPathIsFree(result, done, l);
      SetPathClean(u, result, l.path, l.value);
      StoreLeaf(result, done, l);
      assert (done + [l]) + todo[1..] == done + todo;
      assert Map(todo, DottedEntry)[1..] == Map(todo[1..], DottedEntry);
      UnflattenClean(u, SetPath(result, l.path, l.value), done + [l], todo[1..]);
    }
  }

  /** Unflattening the dotted form of a clean object gives a clean object. */
  lemma UnflattenedIsClean(u: Unicode, es: seq<Entry>, fs: seq<Entry>)
    requires Clean(u, Obj(es)) && multiset(fs) == multiset(Flatten(es))
    ensures Clean(u, Obj(Unflatten(fs)))
  {
    var ls := Leaves(es);
    CleanIsNested(u, es);
    LeavesAreGood(es);
    LeavesAntichain(es);
    var ms := Map(fs, PathLeaf);
    PathsOfFlatten(ls);
    MapMultiset(Flatten(es), fs, PathLeaf);
    GoodInAnyOrder(ls, ms);
    AntichainInAnyOrder(ls, ms);
    DottedPaths(ls, fs);
    forall i | 0 <= i < |ms| ensures Clean(u, ms[i].value) {
      var j := Find(ms, ls, i);
      LeafIsClean(u, es, ls[j]);
    }
    assert [] + ms == ms;
    EmptyHoldsNothing();
    UnflattenClean(u, [], [], ms);
  }

  // ---------------------------------------------------------------------
  // Wrappers survive reordering
  // ---------------------------------------------------------------------

  lemma WrapperTwin(a: Value, b: Value)
    requires SameJson(a, b) && IsWrapper(a)
    ensures IsWrapper(b)
  {
    var j := TwinOf(a.entries[0], b.entries);
  }

  lemma {:induction false} WrapperFreeTwin(a: Value, b: Value)
    requires SameJson(a, b) && WrapperFree(b)
    ensures WrapperFree(a)
    decreases a
  {
    if a.Arr? && b.Arr? {
      forall i | 0 <= i < |a.items| ensures WrapperFree(a.items[i]) {
        WrapperFreeTwin(a.items[i], b.items[i]);
      }
    } else if a.Obj? && b.Obj? {
      forall i | 0 <= i < |a.entries|
        ensures !IsWrapper(a.entries[i].value) && WrapperFree(a.entries[i].value)
      {
        var j := TwinOf(a.entries[i], b.entries);
        WrapperFreeTwin(a.entries[i].value, b.entries[j].value);
        if IsWrapper(a.entries[i].value) { WrapperTwin(a.entries[i].value, b.entries[j].value); }
      }
    }
  }

  // ---------------------------------------------------------------------
  // The two forms have one text
  // ---------------------------------------------------------------------

  function CanonicalizeLegacy(u: Unicode, o: Options, v: Value): Outcome<Option<Text>> {
    match NormalizeLegacy(u, v)
    case Ok(w) => Canonicalize(u, o, w)
    case Rejected => Rejected
  }

  /** A clean tree without wrappers is what legacy normalization makes of the members it came from. */
  lemma RebuiltAsIs(u: Unicode, fs: seq<Entry>)
    requires Clean(u, Obj(Unflatten(fs))) && AllBare(Unflatten(fs))
    ensures NormalizeLegacy(u, Obj(fs)) == Ok(Obj(Unflatten(fs)))
  {
    CleanMembersIff(u, Unflatten(fs));
    UnflattenDepth(fs);
  }

  lemma RebuiltIsSame(u: Unicode, es: seq<Entry>, fs: seq<Entry>)
    requires Clean(u, Obj(es)) && multiset(fs) == multiset(Flatten(es))
    ensures Clean(u, Obj(Unflatten(fs))) && SameJson(Obj(Unflatten(fs)), Obj(es))
  {
    CleanIsNested(u, es);
    UnflattenFlatten(es, fs);
    UnflattenedIsClean(u, es, fs);
    CleanIsNested(u, Unflatten(fs));
    SameTreeSameJson(Unflatten(fs), es);
  }

  /** Legacy normalization of the dotted form rebuilds the object, up to key order. */
  lemma LegacyRebuilds(u: Unicode, es: seq<Entry>, fs: seq<Entry>)
    requires Clean(u, Obj(es)) && WrapperFree(Obj(es)) && multiset(fs) == multiset(Flatten(es))
    ensures NormalizeLegacy(u, Obj(fs)) == Ok(Obj(Unflatten(fs)))
    ensures SameJson(Obj(Unflatten(fs)), Obj(es)) && Tidy(Obj(Unflatten(fs)))
  {
    RebuiltIsSame(u, es, fs);
    CleanIsTidy(u, Obj(Unflatten(fs)));
    WrapperFreeTwin(Obj(Unflatten(fs)), Obj(es));
    WrapperFreeObject(Unflatten(fs));
    RebuiltAsIs(u, fs);
  }

  /**
   For every object without boolean-like strings, dotted keys or array wrappers,
   the dotted-path form, in any order, has the object's own canonical text.
   */
  lemma LegacyFormIsCanonical(u: Unicode, o: Options, es: seq<Entry>, fs: seq<Entry>)
    requires Clean(u, Obj(es)) && WrapperFree(Obj(es)) && multiset(fs) == multiset(Flatten(es))
    ensures CanonicalizeLegacy(u, o, Obj(fs)) == Canonicalize(u, o, Obj(es))
  {
    LegacyRebuilds(u, es, fs);
    NormalizeRespectsOrder(u, o, Obj(Unflatten(fs)), Obj(es));
  }
}
