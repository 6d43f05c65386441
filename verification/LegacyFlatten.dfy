/**
 The dotted-path form of a nested object, and the round trip: unflattening it
 gives the object back, in whatever order the dotted keys are listed.
 */
module LegacyFlatten {
  import opened Text
  import opened Sorting
  import opened Values
  import opened Canonical
  import opened Legacy

  /** A nested object as legacy clients meant it: dot-free distinct keys at every level, no Date. */
  ghost predicate Nested(es: seq<Entry>) {
    && DistinctKeys(es, EntryKey)
    && forall i :: 0 <= i < |es| ==> NestedMember(es[i])
  }

  ghost predicate NestedMember(e: Entry) {
    && DotFree(e.key) && !e.value.Instant? && !e.value.BadDate?
    && (e.value.Obj? ==> Nested(e.value.entries))
  }

  /** A value that is not descended into, with the keys that lead to it. */
  datatype Leaf = Leaf(path: seq<Text>, value: Value)

  /** Values that unflattening stores as they are: scalars, arrays and the empty object. */
  predicate IsTip(v: Value) {
    !v.Instant? && !v.BadDate? && (v.Obj? ==> v.entries == [])
  }

  function Leaves(es: seq<Entry>): seq<Leaf>
    decreases es, 0
  {
    if es == [] then [] else LeavesOf(es[0]) + Leaves(es[1..])
  }

  function LeavesOf(e: Entry): seq<Leaf>
    decreases e, 0
  {
    if e.value.Obj? && e.value.entries != [] then Under(e.key, Leaves(e.value.entries))
    else [Leaf([e.key], e.value)]
  }

  function Under(k: Text, ls: seq<Leaf>): (r: seq<Leaf>)
    ensures |r| == |ls|
    ensures forall i :: 0 <= i < |ls| ==> r[i] == Leaf([k] + ls[i].path, ls[i].value)
  {
    seq(|ls|, i requires 0 <= i < |ls| => Leaf([k] + ls[i].path, ls[i].value))
  }

  function DottedEntry(l: Leaf): Entry {
    Entry(if l.path == [] then [] else JoinDots(l.path), l.value)
  }

  function PathLeaf(e: Entry): Leaf {
    Leaf(SplitDots(e.key), e.value)
  }

  /** `{ user: { name, id } }` becomes `{ "user.name", "user.id" }`. */
  function Flatten(es: seq<Entry>): seq<Entry> {
    Map(Leaves(es), DottedEntry)
  }

  // ---------------------------------------------------------------------
  // What is found at a path
  // ---------------------------------------------------------------------

  datatype Shape = Absent | Branch | Tip(value: Value)

  function ShapeAt(v: Value, p: seq<Text>): Shape
    decreases |p|
  {
    if p == [] then (if v.Obj? && v.entries != [] then Branch else Tip(v))
    else if v.Obj? && Has(v.entries, p[0]) then ShapeAt(Get(v.entries, p[0]), p[1..])
    else Absent
  }

  function ShapeIn(es: seq<Entry>, p: seq<Text>): Shape
    requires p != []
  {
    if Has(es, p[0]) then ShapeAt(Get(es, p[0]), p[1..]) else Absent
  }

  /** Equality up to the order of keys: the same thing is found at every path. */
  ghost predicate SameTree(a: seq<Entry>, b: seq<Entry>) {
    forall p: seq<Text> :: p != [] ==> ShapeIn(a, p) == ShapeIn(b, p)
  }

  lemma PrefixTail(p: seq<Text>, q: seq<Text>)
    requires p != [] && q != [] && p[0] == q[0]
    ensures p <= q <==> p[1..] <= q[1..]
  {
    if p <= q {
      assert q[1..][..|p| - 1] == q[..|p|][1..];
    }
    if p[1..] <= q[1..] {
      assert p == [p[0]] + q[1..][..|p| - 1] == q[..|p|];
    }
  }

  lemma PrefixCons(p: seq<Text>, q: seq<Text>)
    requires p != [] && q != []
    ensures p <= q <==> p[0] == q[0] && p[1..] <= q[1..]
    ensures p < q <==> p[0] == q[0] && p[1..] < q[1..]
    ensures p == q <==> p[0] == q[0] && p[1..] == q[1..]
  {
    if p[0] == q[0] { PrefixTail(p, q); }
    if p[0] == q[0] && p[1..] == q[1..] { assert p == [p[0]] + p[1..] && q == [q[0]] + q[1..]; }
  }

  // ---------------------------------------------------------------------
  // One step of the walk
  // ---------------------------------------------------------------------

  lemma SetPathNonempty(es: seq<Entry>, q: seq<Text>, x: Value)
    requires q != []
    ensures SetPath(es, q, x) != []
  {
  }

  /** Nothing at `q` yet and no tip on the way. */
  ghost predicate Free(es: seq<Entry>, q: seq<Text>)
    requires q != []
  {
    && ShapeIn(es, q) == Absent
    && forall p: seq<Text> :: p != [] && p < q ==> !ShapeIn(es, p).Tip?
  }

  lemma FreeChild(es: seq<Entry>, q: seq<Text>)
    requires |q| > 1 && Free(es, q)
    ensures Free(Child(es, q[0]), q[1..])
    ensures Has(es, q[0]) ==> Get(es, q[0]).Obj?
  {
    var c := Child(es, q[0]);
    PrefixCons([q[0]], q);
    assert [q[0]][0] == q[0] && [q[0]][1..] == [];
    assert [q[0]] < q;
    assert !ShapeIn(es, [q[0]]).Tip?;
    forall p: seq<Text> | p != [] && p < q[1..] ensures !ShapeIn(c, p).Tip? {
      var p' := [q[0]] + p;
      PrefixCons(p', q);
      assert p'[0] == q[0] && p'[1..] == p;
      assert !ShapeIn(es, p').Tip?;
    }
  }

  /** What is found at any path after storing `x` at the free path `q`. */
  lemma {:induction false} SetPathShape(es: seq<Entry>, q: seq<Text>, x: Value, p: seq<Text>)
    requires q != [] && p != [] && Free(es, q) && IsTip(x)
    ensures ShapeIn(SetPath(es, q, x), p) ==
            if p == q then Tip(x) else if p < q then Branch else if q < p then Absent else ShapeIn(es, p)
    decreases |q|
  {
    if |q| == 1 {
      SetLastShape(es, q, x, p);
    } else {
      var c := Child(es, q[0]);
      FreeChild(es, q);
      if p[0] == q[0] && p[1..] != [] {
        SetPathShape(c, q[1..], x, p[1..]);
      }
      DescendShape(es, q, x, p);
      PrefixCons(p, q);
      PrefixCons(q, p);
    }
  }

  lemma SetLastShape(es: seq<Entry>, q: seq<Text>, x: Value, p: seq<Text>)
    requires |q| == 1 && p != [] && Free(es, q) && IsTip(x)
    ensures ShapeIn(SetPath(es, q, x), p) ==
            if p == q then Tip(x) else if p < q then Branch else if q < p then Absent else ShapeIn(es, p)
  {
    PrefixCons(p, q);
    PrefixCons(q, p);
    assert q[1..] == [];
    assert !Has(es, q[0]);
    GetSet(es, q[0], x, p[0]);
  }

  /** One level down the walk, the rest of the path is stored in the child. */
  lemma DescendShape(es: seq<Entry>, q: seq<Text>, x: Value, p: seq<Text>)
    requires |q| > 1 && p != []
    ensures var sub := SetPath(Child(es, q[0]), q[1..], x);
            ShapeIn(SetPath(es, q, x), p) ==
            if p[0] != q[0] then ShapeIn(es, p)
            else if p[1..] == [] then Branch
            else ShapeIn(sub, p[1..])
  {
    var sub := SetPath(Child(es, q[0]), q[1..], x);
    GetSet(es, q[0], Obj(sub), p[0]);
    SetPathNonempty(Child(es, q[0]), q[1..], x);
  }

  // ---------------------------------------------------------------------
  // The tree built from a list of leaves
  // ---------------------------------------------------------------------

  ghost predicate LeafAt(ls: seq<Leaf>, p: seq<Text>, x: Value) {
    Leaf(p, x) in ls
  }

  ghost predicate OnTheWay(ls: seq<Leaf>, p: seq<Text>) {
    exists i :: 0 <= i < |ls| && p < ls[i].path
  }

  /** `es` holds exactly these leaves. */
  ghost predicate Holds(es: seq<Entry>, ls: seq<Leaf>) {
    forall p: seq<Text> :: p != [] ==> HoldsAt(es, ls, p)
  }

  ghost predicate HoldsAt(es: seq<Entry>, ls: seq<Leaf>, p: seq<Text>)
    requires p != []
  {
    && (forall x :: ShapeIn(es, p) == Tip(x) <==> LeafAt(ls, p, x))
    && (ShapeIn(es, p) == Branch <==> OnTheWay(ls, p))
  }

  lemma HoldsDetermines(a: seq<Entry>, b: seq<Entry>, ls: seq<Leaf>)
    requires Holds(a, ls) && Holds(b, ls)
    ensures SameTree(a, b)
  {
    forall p: seq<Text> | p != [] ensures ShapeIn(a, p) == ShapeIn(b, p) {
      assert HoldsAt(a, ls, p) && HoldsAt(b, ls, p);
      assert ShapeIn(a, p).Tip? ==> LeafAt(ls, p, ShapeIn(a, p).value);
      assert ShapeIn(b, p).Tip? ==> LeafAt(ls, p, ShapeIn(b, p).value);
    }
  }

  /** No path is a prefix of another. */
  ghost predicate Antichain(ls: seq<Leaf>) {
    forall i, j :: 0 <= i < |ls| && 0 <= j < |ls| && i != j ==> !(ls[i].path <= ls[j].path)
  }

  ghost predicate GoodLeaves(ls: seq<Leaf>) {
    forall i :: 0 <= i < |ls| ==> GoodLeaf(ls[i])
  }

  ghost predicate GoodLeaf(l: Leaf) {
    l.path != [] && IsTip(l.value) && forall i :: 0 <= i < |l.path| ==> DotFree(l.path[i])
  }

  lemma AppendLeaf(ls: seq<Leaf>, l: Leaf, p: seq<Text>)
    ensures OnTheWay(ls + [l], p) <==> OnTheWay(ls, p) || p < l.path
    ensures forall x :: LeafAt(ls + [l], p, x) <==> LeafAt(ls, p, x) || l == Leaf(p, x)
  {
    var all := ls + [l];
    assert all[|ls|] == l && forall i :: 0 <= i < |ls| ==> all[i] == ls[i];
  }

  /** Above, below or at the new leaf there is no old one. */
  lemma Incomparable(ls: seq<Leaf>, l: Leaf, p: seq<Text>)
    requires Antichain(ls + [l]) && (p <= l.path || l.path <= p)
    ensures forall x :: !LeafAt(ls, p, x)
    ensures l.path <= p ==> !OnTheWay(ls, p)
  {
    var all := ls + [l];
    assert all[|ls|] == l && forall i :: 0 <= i < |ls| ==> all[i] == ls[i];
    forall i | 0 <= i < |ls| ensures ls[i].path != p && (l.path <= p ==> !(p < ls[i].path)) {
      assert !(all[i].path <= all[|ls|].path) && !(all[|ls|].path <= all[i].path);
    }
    forall x ensures !LeafAt(ls, p, x) {
      assert forall i :: 0 <= i < |ls| ==> ls[i] != Leaf(p, x);
    }
  }

  lemma NextPathIsFree(es: seq<Entry>, ls: seq<Leaf>, l: Leaf)
    requires Holds(es, ls) && l.path != [] && Antichain(ls + [l])
    ensures Free(es, l.path)
  {
    Incomparable(ls, l, l.path);
    TipIsLeaf(es, ls, l.path);
    forall p: seq<Text> | p != [] && p < l.path ensures !ShapeIn(es, p).Tip? {
      Incomparable(ls, l, p);
      TipIsLeaf(es, ls, p);
    }
  }

  lemma TipIsLeaf(es: seq<Entry>, ls: seq<Leaf>, p: seq<Text>)
    requires Holds(es, ls) && p != []
    ensures ShapeIn(es, p).Tip? ==> LeafAt(ls, p, ShapeIn(es, p).value)
    ensures ShapeIn(es, p).Branch? ==> OnTheWay(ls, p)
  {
    assert HoldsAt(es, ls, p);
    if ShapeIn(es, p).Tip? {
      assert ShapeIn(es, p) == Tip(ShapeIn(es, p).value);
    }
  }

  lemma StoreLeaf(es: seq<Entry>, ls: seq<Leaf>, l: Leaf)
    requires Holds(es, ls) && GoodLeaf(l) && Antichain(ls + [l])
    ensures Holds(SetPath(es, l.path, l.value), ls + [l])
  {
    var r := SetPath(es, l.path, l.value);
    NextPathIsFree(es, ls, l);
    forall p: seq<Text> | p != [] ensures HoldsAt(r, ls + [l], p) {
      SetPathShape(es, l.path, l.value, p);
      AppendLeaf(ls, l, p);
      assert HoldsAt(es, ls, p);
      if p <= l.path || l.path <= p { Incomparable(ls, l, p); }
    }
  }

  lemma SplitDotted(l: Leaf)
    requires GoodLeaf(l)
    ensures SplitDots(DottedEntry(l).key) == l.path && Processed(DottedEntry(l).value) == l.value
  {
    SplitJoin(l.path);
  }

  /** Unflattening dotted entries stores their leaves, one after the other. */
  lemma {:induction false} UnflattenHolds(result: seq<Entry>, done: seq<Leaf>, todo: seq<Leaf>)
    requires Holds(result, done) && GoodLeaves(todo) && Antichain(done + todo)
    ensures Holds(UnflattenInto(result, Map(todo, DottedEntry)), done + todo)
    decreases |todo|
  {
    var fs := Map(todo, DottedEntry);
    if todo == [] {
      assert done + todo == done;
    } else {
      var l := todo[0];
      SplitDotted(l);
      assert (done + todo)[..|done| + 1] == done + [l];
      AntichainPrefix(done + todo, |done| + 1);
      StoreLeaf(result, done, l);
      assert (done + [l]) + todo[1..] == done + todo;
      assert fs[1..] == Map(todo[1..], DottedEntry);
      UnflattenHolds(SetPath(result, l.path, l.value), done + [l], todo[1..]);
    }
  }

  lemma AntichainPrefix(ls: seq<Leaf>, n: nat)
    requires Antichain(ls) && n <= |ls|
    ensures Antichain(ls[..n])
  {
  }

  // ---------------------------------------------------------------------
  // The leaves of a nested object
  // ---------------------------------------------------------------------

  lemma {:induction false} LeafOrigin(es: seq<Entry>, l: Leaf) returns (i: nat)
    requires l in Leaves(es)
    ensures i < |es| && l in LeavesOf(es[i])
  {
    if l in LeavesOf(es[0]) {
      i := 0;
    } else {
      assert l in Leaves(es[1..]);
      var j := LeafOrigin(es[1..], l);
      i := j + 1;
    }
  }

  lemma {:induction false} LeafIncluded(es: seq<Entry>, i: nat, l: Leaf)
    requires i < |es| && l in LeavesOf(es[i])
    ensures l in Leaves(es)
  {
    if i > 0 { LeafIncluded(es[1..], i - 1, l); }
  }

  lemma UnderMember(k: Text, ls: seq<Leaf>, l: Leaf)
    ensures l in Under(k, ls) <==> l.path != [] && l.path[0] == k && Leaf(l.path[1..], l.value) in ls
  {
    var r := Under(k, ls);
    if l in r {
      var i :| 0 <= i < |r| && r[i] == l;
      assert l.path[1..] == ls[i].path;
      assert ls[i] == Leaf(l.path[1..], l.value);
    }
    if l.path != [] && l.path[0] == k && Leaf(l.path[1..], l.value) in ls {
      var i :| 0 <= i < |ls| && ls[i] == Leaf(l.path[1..], l.value);
      assert [k] + l.path[1..] == l.path;
      assert r[i] == l;
    }
  }

  lemma DistinctIndex(es: seq<Entry>, i: nat)
    requires DistinctKeys(es, EntryKey) && i < |es|
    ensures Has(es, es[i].key) && IndexOf(es, es[i].key) == i && Get(es, es[i].key) == es[i].value
  {
    var j := IndexOf(es, es[i].key);
    assert j < i ==> EntryKey(es[j]) != EntryKey(es[i]);
  }

  /** Leaves are the tips. */
  lemma {:induction false} LeavesAreTips(es: seq<Entry>, p: seq<Text>, x: Value)
    requires Nested(es) && p != []
    ensures LeafAt(Leaves(es), p, x) <==> ShapeIn(es, p) == Tip(x)
    decreases |p|
  {
    if LeafAt(Leaves(es), p, x) {
      var i := LeafOrigin(es, Leaf(p, x));
      MemberTips(es[i], p, x);
      assert p[0] == es[i].key;
      DistinctIndex(es, i);
    }
    if ShapeIn(es, p) == Tip(x) {
      var i := IndexOf(es, p[0]);
      MemberTips(es[i], p, x);
      LeafIncluded(es, i, Leaf(p, x));
    }
  }

  lemma {:induction false} MemberTips(e: Entry, p: seq<Text>, x: Value)
    requires NestedMember(e) && p != []
    ensures Leaf(p, x) in LeavesOf(e) <==> p[0] == e.key && ShapeAt(e.value, p[1..]) == Tip(x)
    decreases |p|, 0
  {
    if e.value.Obj? && e.value.entries != [] {
      UnderMember(e.key, Leaves(e.value.entries), Leaf(p, x));
      if |p| == 1 {
        assert p[1..] == [];
        NoEmptyPath(e.value.entries, x);
      } else {
        LeavesAreTips(e.value.entries, p[1..], x);
      }
    } else {
      assert p == [p[0]] + p[1..];
      assert Leaf(p, x) in LeavesOf(e) <==> p == [e.key] && x == e.value;
      assert p == [e.key] <==> p[0] == e.key && p[1..] == [];
    }
  }

  lemma {:induction false} NoEmptyPath(es: seq<Entry>, x: Value)
    ensures Leaf([], x) !in Leaves(es)
  {
    if Leaf([], x) in Leaves(es) {
      var i := LeafOrigin(es, Leaf([], x));
      if es[i].value.Obj? && es[i].value.entries != [] {
        UnderMember(es[i].key, Leaves(es[i].value.entries), Leaf([], x));
      }
    }
  }

  /** A nonempty object has a leaf. */
  lemma {:induction false} SomeLeaf(es: seq<Entry>) returns (l: Leaf)
    requires es != []
    ensures l in Leaves(es) && l.path != []
    decreases es
  {
    var e := es[0];
    if e.value.Obj? && e.value.entries != [] {
      var m := SomeLeaf(e.value.entries);
      l := Leaf([e.key] + m.path, m.value);
      assert l.path[1..] == m.path;
      UnderMember(e.key, Leaves(e.value.entries), l);
    } else {
      l := Leaf([e.key], e.value);
      assert l in LeavesOf(e);
    }
    LeafIncluded(es, 0, l);
  }

  lemma OnTheWayWitness(ls: seq<Leaf>, p: seq<Text>, l: Leaf)
    requires l in ls && p < l.path
    ensures OnTheWay(ls, p)
  {
    var i :| 0 <= i < |ls| && ls[i] == l;
  }

  /** Branches are the proper prefixes of leaves. */
  lemma {:induction false} BranchHasLeaf(es: seq<Entry>, p: seq<Text>) returns (l: Leaf)
    requires Nested(es) && p != [] && ShapeIn(es, p) == Branch
    ensures l in Leaves(es) && p < l.path
    decreases |p|
  {
    var i := IndexOf(es, p[0]);
    var sub := es[i].value.entries;
    var m;
    if |p| == 1 {
      assert p[1..] == [];
      m := SomeLeaf(sub);
    } else {
      m := BranchHasLeaf(sub, p[1..]);
    }
    l := Leaf([p[0]] + m.path, m.value);
    assert l.path[0] == p[0] && l.path[1..] == m.path;
    UnderMember(p[0], Leaves(sub), l);
    LeafIncluded(es, i, l);
    PrefixCons(p, l.path);
  }

  lemma {:induction false} LeafBelowBranch(es: seq<Entry>, p: seq<Text>, l: Leaf)
    requires Nested(es) && p != [] && l in Leaves(es) && p < l.path
    ensures ShapeIn(es, p) == Branch
    decreases |p|
  {
    var i := LeafOrigin(es, l);
    var e := es[i];
    PrefixCons(p, l.path);
    if e.value.Obj? && e.value.entries != [] {
      UnderMember(e.key, Leaves(e.value.entries), l);
      DistinctIndex(es, i);
      if |p| == 1 {
        assert p[1..] == [];
      } else {
        LeafBelowBranch(e.value.entries, p[1..], Leaf(l.path[1..], l.value));
      }
    } else {
      assert false;
    }
  }

  lemma HoldsOwnLeaves(es: seq<Entry>)
    requires Nested(es)
    ensures Holds(es, Leaves(es))
  {
    forall p: seq<Text> | p != [] ensures HoldsAt(es, Leaves(es), p) {
      forall x ensures ShapeIn(es, p) == Tip(x) <==> LeafAt(Leaves(es), p, x) { LeavesAreTips(es, p, x); }
      if ShapeIn(es, p) == Branch {
        var l := BranchHasLeaf(es, p);
        OnTheWayWitness(Leaves(es), p, l);
      }
      if OnTheWay(Leaves(es), p) {
        var i :| 0 <= i < |Leaves(es)| && p < Leaves(es)[i].path;
        LeafBelowBranch(es, p, Leaves(es)[i]);
      }
    }
  }

  // ---------------------------------------------------------------------
  // Leaves are good, pairwise incomparable, and listed once
  // ---------------------------------------------------------------------

  lemma {:induction false} LeavesAreGood(es: seq<Entry>)
    requires Nested(es)
    ensures GoodLeaves(Leaves(es))
    decreases es, 1
  {
    var ls := Leaves(es);
    forall j | 0 <= j < |ls| ensures GoodLeaf(ls[j]) {
      var i := LeafOrigin(es, ls[j]);
      MemberLeavesAreGood(es[i], ls[j]);
    }
  }

  lemma {:induction false} MemberLeavesAreGood(e: Entry, l: Leaf)
    requires NestedMember(e) && l in LeavesOf(e)
    ensures GoodLeaf(l) && l.path[0] == e.key
    decreases e, 2
  {
    if e.value.Obj? && e.value.entries != [] {
      UnderMember(e.key, Leaves(e.value.entries), l);
      LeavesAreGood(e.value.entries);
      var m := Leaf(l.path[1..], l.value);
      var j :| 0 <= j < |Leaves(e.value.entries)| && Leaves(e.value.entries)[j] == m;
      assert GoodLeaf(m);
      assert forall i :: 0 < i < |l.path| ==> l.path[i] == m.path[i - 1];
    }
  }

  lemma AntichainConcat(a: seq<Leaf>, b: seq<Leaf>)
    requires Antichain(a) && Antichain(b)
    requires forall i, j :: 0 <= i < |a| && 0 <= j < |b| ==>
      !(a[i].path <= b[j].path) && !(b[j].path <= a[i].path)
    ensures Antichain(a + b)
  {
    var r := a + b;
    forall i, j | 0 <= i < |r| && 0 <= j < |r| && i != j ensures !(r[i].path <= r[j].path) {
      if i < |a| && j >= |a| { assert r[j] == b[j - |a|]; }
      if i >= |a| && j < |a| { assert r[i] == b[i - |a|]; }
      if i >= |a| && j >= |a| { assert r[i] == b[i - |a|] && r[j] == b[j - |a|]; }
    }
  }

  lemma AntichainUnder(k: Text, ls: seq<Leaf>)
    requires Antichain(ls)
    ensures Antichain(Under(k, ls))
  {
    var r := Under(k, ls);
    forall i, j | 0 <= i < |r| && 0 <= j < |r| && i != j ensures !(r[i].path <= r[j].path) {
      assert r[i].path[1..] == ls[i].path && r[j].path[1..] == ls[j].path;
      PrefixCons(r[i].path, r[j].path);
    }
  }

  lemma {:induction false} LeavesAntichain(es: seq<Entry>)
    requires Nested(es)
    ensures Antichain(Leaves(es))
    decreases es, 1
  {
    if es != [] {
      var rest := es[1..];
      assert Nested(rest) by {
        forall i, j | 0 <= i < j < |rest| ensures EntryKey(rest[i]) != EntryKey(rest[j]) {
          assert EntryKey(es[i + 1]) != EntryKey(es[j + 1]);
        }
      }
      LeavesAntichain(rest);
      if es[0].value.Obj? && es[0].value.entries != [] {
        LeavesAntichain(es[0].value.entries);
        AntichainUnder(es[0].key, Leaves(es[0].value.entries));
      }
      var a, b := LeavesOf(es[0]), Leaves(rest);
      forall i, j | 0 <= i < |a| && 0 <= j < |b|
        ensures !(a[i].path <= b[j].path) && !(b[j].path <= a[i].path)
      {
        MemberLeavesAreGood(es[0], a[i]);
        var o := LeafOrigin(rest, b[j]);
        MemberLeavesAreGood(rest[o], b[j]);
        assert EntryKey(es[0]) != EntryKey(es[o + 1]);
        PrefixCons(a[i].path, b[j].path);
        PrefixCons(b[j].path, a[i].path);
      }
      AntichainConcat(a, b);
    }
  }

  lemma AntichainIsDistinct(ls: seq<Leaf>)
    requires Antichain(ls)
    ensures Distinct(ls)
  {
  }

  lemma AntichainInAnyOrder(a: seq<Leaf>, b: seq<Leaf>)
    requires multiset(a) == multiset(b) && Antichain(a)
    ensures Antichain(b)
  {
    AntichainIsDistinct(a);
    DistinctInAnyOrder(a, b);
    forall i, j | 0 <= i < |b| && 0 <= j < |b| && i != j ensures !(b[i].path <= b[j].path) {
      var i' := Find(b, a, i);
      var j' := Find(b, a, j);
      assert b[i] != b[j] by { if i < j {} else {} }
    }
  }

  lemma GoodInAnyOrder(a: seq<Leaf>, b: seq<Leaf>)
    requires multiset(a) == multiset(b) && GoodLeaves(a)
    ensures GoodLeaves(b)
  {
    forall i | 0 <= i < |b| ensures GoodLeaf(b[i]) {
      var j := Find(b, a, i);
    }
  }

  lemma HoldsInAnyOrder(es: seq<Entry>, a: seq<Leaf>, b: seq<Leaf>)
    requires multiset(a) == multiset(b) && Holds(es, a)
    ensures Holds(es, b)
  {
    forall p: seq<Text> | p != [] ensures HoldsAt(es, b, p) {
      assert HoldsAt(es, a, p);
      forall x ensures LeafAt(a, p, x) <==> LeafAt(b, p, x) {
        assert Leaf(p, x) in multiset(a) <==> Leaf(p, x) in multiset(b);
      }
      if OnTheWay(a, p) {
        var i :| 0 <= i < |a| && p < a[i].path;
        var j := Find(a, b, i);
      }
      if OnTheWay(b, p) {
        var i :| 0 <= i < |b| && p < b[i].path;
        var j := Find(b, a, i);
      }
    }
  }

  /**
   Unflattening the dotted form of a nested object gives the object back,
   whatever the order of the dotted keys.
   */
  lemma UnflattenFlatten(es: seq<Entry>, fs: seq<Entry>)
    requires Nested(es) && multiset(fs) == multiset(Flatten(es))
    ensures SameTree(Unflatten(fs), es)
  {
    var ls := Leaves(es);
    LeavesAreGood(es);
    LeavesAntichain(es);
    HoldsOwnLeaves(es);
    var ms := Map(fs, PathLeaf);
    PathsOfFlatten(ls);
    MapMultiset(Flatten(es), fs, PathLeaf);
    GoodInAnyOrder(ls, ms);
    AntichainInAnyOrder(ls, ms);
    HoldsInAnyOrder(es, ls, ms);
    DottedPaths(ls, fs);
    assert [] + ms == ms;
    EmptyHoldsNothing();
    UnflattenHolds([], [], ms);
    HoldsDetermines(Unflatten(fs), es, ms);
  }

  lemma EmptyHoldsNothing()
    ensures Holds([], [])
  {
  }

  lemma PathsOfFlatten(ls: seq<Leaf>)
    requires GoodLeaves(ls)
    ensures Map(Map(ls, DottedEntry), PathLeaf) == ls
  {
    forall i | 0 <= i < |ls| ensures Map(Map(ls, DottedEntry), PathLeaf)[i] == ls[i] {
      SplitDotted(ls[i]);
    }
  }

  lemma DottedPaths(ls: seq<Leaf>, fs: seq<Entry>)
    requires GoodLeaves(ls) && multiset(fs) == multiset(Map(ls, DottedEntry))
    ensures Map(Map(fs, PathLeaf), DottedEntry) == fs
  {
    forall i | 0 <= i < |fs| ensures Map(Map(fs, PathLeaf), DottedEntry)[i] == fs[i] {
      var j := Find(fs, Map(ls, DottedEntry), i);
      SplitDotted(ls[j]);
    }
  }
}
