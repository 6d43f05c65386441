/**
 The stable sort of `Array.prototype.sort` with a code-unit comparison of keys,
 and the fact every caller relies on: the outcome is fixed by the multiset of
 elements as soon as distinct elements have distinct keys.
 */
module Sorting {
  import opened Text

  ghost predicate Sorted<T>(s: seq<T>, key: T -> Text) {
    forall i, j :: 0 <= i < j < |s| ==> LexLeq(key(s[i]), key(s[j]))
  }

  ghost predicate KeyInjective<T>(s: seq<T>, key: T -> Text) {
    forall i, j :: 0 <= i < |s| && 0 <= j < |s| && key(s[i]) == key(s[j]) ==> s[i] == s[j]
  }

  /** The first position whose key is not below that of `x`. */
  function Place<T>(x: T, s: seq<T>, key: T -> Text): (n: nat)
    ensures n <= |s|
    ensures n < |s| ==> LexLeq(key(x), key(s[n]))
    ensures forall i :: 0 <= i < n ==> !LexLeq(key(x), key(s[i]))
  {
    if s == [] || LexLeq(key(x), key(s[0])) then 0 else 1 + Place(x, s[1..], key)
  }

  function Insert<T>(x: T, s: seq<T>, key: T -> Text): seq<T> {
    var n := Place(x, s, key);
    s[..n] + [x] + s[n..]
  }

  function Sort<T>(s: seq<T>, key: T -> Text): (r: seq<T>)
    ensures |r| == |s|
  {
    if s == [] then [] else Insert(s[0], Sort(s[1..], key), key)
  }

  lemma InsertedAt<T>(x: T, s: seq<T>, n: nat)
    requires n <= |s|
    ensures var r := s[..n] + [x] + s[n..];
            && |r| == |s| + 1 && r[n] == x
            && (forall i :: 0 <= i < n ==> r[i] == s[i])
            && (forall i :: n < i < |r| ==> r[i] == s[i - 1])
            && multiset(r) == multiset(s) + multiset{x}
  {
    assert s == s[..n] + s[n..];
  }

  lemma InsertSorted<T>(x: T, s: seq<T>, key: T -> Text)
    requires Sorted(s, key)
    ensures Sorted(Insert(x, s, key), key)
    ensures multiset(Insert(x, s, key)) == multiset(s) + multiset{x}
  {
    var n := Place(x, s, key);
    var r := Insert(x, s, key);
    InsertedAt(x, s, n);
    forall i, j | 0 <= i < j < |r| ensures LexLeq(key(r[i]), key(r[j])) {
      if j == n {
        LexTotal(key(x), key(s[i]));
      } else if i == n && j > n + 1 {
        LexTransitive(key(x), key(s[n]), key(s[j - 1]));
      }
    }
  }

  lemma {:induction false} SortSorts<T>(s: seq<T>, key: T -> Text)
    ensures Sorted(Sort(s, key), key)
    ensures multiset(Sort(s, key)) == multiset(s)
  {
    if s != [] {
      SortSorts(s[1..], key);
      InsertSorted(s[0], Sort(s[1..], key), key);
      assert s == [s[0]] + s[1..];
    }
  }

  /** A member of one arrangement is found in any other. */
  lemma Find<T>(a: seq<T>, b: seq<T>, i: nat) returns (j: nat)
    requires multiset(a) == multiset(b) && i < |a|
    ensures j < |b| && b[j] == a[i]
  {
    assert a[i] in multiset(a);
    assert a[i] in multiset(b);
    assert a[i] in b;
    j :| 0 <= j < |b| && b[j] == a[i];
  }

  lemma SameLength<T>(a: seq<T>, b: seq<T>)
    requires multiset(a) == multiset(b)
    ensures |a| == |b|
  {
    assert |multiset(a)| == |multiset(b)|;
  }

  lemma TailMultiset<T>(a: seq<T>)
    requires a != []
    ensures multiset(a[1..]) == multiset(a) - multiset{a[0]}
  {
    assert a == [a[0]] + a[1..];
  }

  lemma HeadsAgree<T>(a: seq<T>, b: seq<T>, key: T -> Text)
    requires multiset(a) == multiset(b) && a != [] && b != []
    requires Sorted(a, key) && Sorted(b, key) && KeyInjective(a, key)
    ensures a[0] == b[0]
  {
    var i := Find(a, b, 0);
    var j := Find(b, a, 0);
    LexReflexive(key(a[0]));
    LexAntisymmetric(key(a[0]), key(b[0]));
  }

  lemma {:induction false} SortedUnique<T>(a: seq<T>, b: seq<T>, key: T -> Text)
    requires multiset(a) == multiset(b)
    requires Sorted(a, key) && Sorted(b, key) && KeyInjective(a, key)
    ensures a == b
  {
    SameLength(a, b);
    if a != [] {
      HeadsAgree(a, b, key);
      TailMultiset(a);
      TailMultiset(b);
      SortedUnique(a[1..], b[1..], key);
      assert a == [a[0]] + a[1..] && b == [b[0]] + b[1..];
    }
  }

  lemma InjectiveInAnyOrder<T>(a: seq<T>, b: seq<T>, key: T -> Text)
    requires multiset(a) == multiset(b) && KeyInjective(a, key)
    ensures KeyInjective(b, key)
  {
    forall i, j | 0 <= i < |b| && 0 <= j < |b| && key(b[i]) == key(b[j]) ensures b[i] == b[j] {
      var i' := Find(b, a, i);
      var j' := Find(b, a, j);
    }
  }

  /** Order of arrival is irrelevant. */
  lemma SortIgnoresOrder<T>(a: seq<T>, b: seq<T>, key: T -> Text)
    requires multiset(a) == multiset(b) && KeyInjective(a, key)
    ensures Sort(a, key) == Sort(b, key)
  {
    SortSorts(a, key);
    SortSorts(b, key);
    InjectiveInAnyOrder(a, Sort(a, key), key);
    SortedUnique(Sort(a, key), Sort(b, key), key);
  }

  lemma SortedIsFixed<T>(a: seq<T>, key: T -> Text)
    requires Sorted(a, key) && KeyInjective(a, key)
    ensures Sort(a, key) == a
  {
    SortSorts(a, key);
    SortedUnique(a, Sort(a, key), key);
  }

  // ---------------------------------------------------------------------
  // Repetition-free sequences, filters and maps
  // ---------------------------------------------------------------------

  ghost predicate Distinct<T>(s: seq<T>) {
    forall i, j :: 0 <= i < j < |s| ==> s[i] != s[j]
  }

  lemma {:induction false} DistinctCounts<T>(s: seq<T>, x: T)
    requires Distinct(s)
    ensures multiset(s)[x] <= 1
  {
    if s != [] {
      var n := |s| - 1;
      assert s == s[..n] + [s[n]];
      DistinctCounts(s[..n], x);
      assert x in multiset(s[..n]) <==> x in s[..n];
    }
  }

  lemma DistinctInAnyOrder<T>(a: seq<T>, b: seq<T>)
    requires multiset(a) == multiset(b) && Distinct(a)
    ensures Distinct(b)
  {
    forall i, j | 0 <= i < j < |b| ensures b[i] != b[j] {
      DistinctCounts(a, b[i]);
      assert b == b[..j] + b[j..];
      assert b[i] in b[..j] && b[j] in b[j..];
      assert multiset(b)[b[i]] == multiset(b[..j])[b[i]] + multiset(b[j..])[b[i]];
    }
  }

  /** The elements that satisfy `p`, or those that do not, in order. */
  function Filter<T>(s: seq<T>, p: T -> bool, want: bool): (r: seq<T>)
    ensures forall i :: 0 <= i < |r| ==> r[i] in s && p(r[i]) == want
  {
    if s == [] then []
    else if p(s[0]) == want then [s[0]] + Filter(s[1..], p, want)
    else Filter(s[1..], p, want)
  }

  lemma {:induction false} FilterSplits<T>(s: seq<T>, p: T -> bool)
    ensures multiset(Filter(s, p, true)) + multiset(Filter(s, p, false)) == multiset(s)
  {
    if s != [] {
      FilterSplits(s[1..], p);
      assert s == [s[0]] + s[1..];
    }
  }

  lemma {:induction false} FilterAppend<T>(a: seq<T>, b: seq<T>, p: T -> bool, want: bool)
    ensures Filter(a + b, p, want) == Filter(a, p, want) + Filter(b, p, want)
  {
    if a == [] {
      assert a + b == b;
    } else {
      FilterAppend(a[1..], b, p, want);
      assert (a + b)[1..] == a[1..] + b && (a + b)[0] == a[0];
    }
  }

  /** How often `x` survives the filter. */
  lemma {:induction false} FilterCounts<T>(s: seq<T>, p: T -> bool, want: bool, x: T)
    ensures multiset(Filter(s, p, want))[x] == if p(x) == want then multiset(s)[x] else 0
  {
    if s != [] {
      FilterCounts(s[1..], p, want, x);
      assert s == [s[0]] + s[1..];
    }
  }

  lemma FilterMembers<T>(s: seq<T>, p: T -> bool, want: bool, x: T)
    ensures x in Filter(s, p, want) <==> x in s && p(x) == want
  {
    FilterCounts(s, p, want, x);
    assert x in multiset(Filter(s, p, want)) <==> x in multiset(s) && p(x) == want;
  }

  lemma FilterMultiset<T>(a: seq<T>, b: seq<T>, p: T -> bool, want: bool)
    requires multiset(a) == multiset(b)
    ensures multiset(Filter(a, p, want)) == multiset(Filter(b, p, want))
  {
    forall x ensures multiset(Filter(a, p, want))[x] == multiset(Filter(b, p, want))[x] {
      FilterCounts(a, p, want, x);
      FilterCounts(b, p, want, x);
    }
  }

  lemma {:induction false} FilterKeepsAll<T>(s: seq<T>, p: T -> bool, want: bool)
    requires forall i :: 0 <= i < |s| ==> p(s[i]) == want
    ensures Filter(s, p, want) == s
  {
    if s != [] {
      FilterKeepsAll(s[1..], p, want);
      assert s == [s[0]] + s[1..];
    }
  }

  lemma {:induction false} FilterSorted<T>(s: seq<T>, p: T -> bool, want: bool, key: T -> Text)
    requires Sorted(s, key)
    ensures Sorted(Filter(s, p, want), key)
  {
    if s != [] {
      FilterSorted(s[1..], p, want, key);
      var r := Filter(s[1..], p, want);
      forall i | 0 <= i < |r| ensures LexLeq(key(s[0]), key(r[i])) {
        assert r[i] in s[1..];
      }
    }
  }

  lemma {:induction false} FilterDistinct<T>(s: seq<T>, p: T -> bool, want: bool)
    requires Distinct(s)
    ensures Distinct(Filter(s, p, want))
  {
    if s != [] {
      FilterDistinct(s[1..], p, want);
      var r := Filter(s[1..], p, want);
      forall i | 0 <= i < |r| ensures s[0] != r[i] {
        assert r[i] in s[1..];
      }
    }
  }

  /** Distinct positions hold distinct keys. */
  ghost predicate DistinctKeys<T>(s: seq<T>, key: T -> Text) {
    forall i, j :: 0 <= i < j < |s| ==> key(s[i]) != key(s[j])
  }

  lemma DistinctKeysSplit<T>(s: seq<T>, key: T -> Text)
    ensures DistinctKeys(s, key) <==> Distinct(s) && KeyInjective(s, key)
  {
    if Distinct(s) && KeyInjective(s, key) {
      forall i, j | 0 <= i < j < |s| ensures key(s[i]) != key(s[j]) {}
    }
  }

  lemma DistinctKeysInAnyOrder<T>(a: seq<T>, b: seq<T>, key: T -> Text)
    requires multiset(a) == multiset(b) && DistinctKeys(a, key)
    ensures DistinctKeys(b, key)
  {
    DistinctKeysSplit(a, key);
    DistinctInAnyOrder(a, b);
    InjectiveInAnyOrder(a, b, key);
    DistinctKeysSplit(b, key);
  }

  lemma FilterDistinctKeys<T>(s: seq<T>, p: T -> bool, want: bool, key: T -> Text)
    requires DistinctKeys(s, key)
    ensures DistinctKeys(Filter(s, p, want), key)
  {
    DistinctKeysSplit(s, key);
    FilterDistinct(s, p, want);
    var r := Filter(s, p, want);
    forall i, j | 0 <= i < |r| && 0 <= j < |r| && key(r[i]) == key(r[j]) ensures r[i] == r[j] {
      assert r[i] in s && r[j] in s;
    }
    DistinctKeysSplit(r, key);
  }

  function Map<S, T>(s: seq<S>, f: S -> T): (r: seq<T>)
    ensures |r| == |s|
    ensures forall i :: 0 <= i < |s| ==> r[i] == f(s[i])
  {
    seq(|s|, i requires 0 <= i < |s| => f(s[i]))
  }

  lemma {:induction false} PlaceOfMapped<S, T>(x: S, s: seq<S>, f: S -> T, key: S -> Text, key': T -> Text)
    requires forall y :: key'(f(y)) == key(y)
    ensures Place(f(x), Map(s, f), key') == Place(x, s, key)
  {
    if s != [] {
      PlaceOfMapped(x, s[1..], f, key, key');
      assert Map(s, f)[1..] == Map(s[1..], f);
    }
  }

  lemma InsertOfMapped<S, T>(x: S, s: seq<S>, f: S -> T, key: S -> Text, key': T -> Text)
    requires forall y :: key'(f(y)) == key(y)
    ensures Insert(f(x), Map(s, f), key') == Map(Insert(x, s, key), f)
  {
    PlaceOfMapped(x, s, f, key, key');
    var n := Place(x, s, key);
    assert Map(s[..n] + [x] + s[n..], f) == Map(s, f)[..n] + [f(x)] + Map(s, f)[n..];
  }

  /** Sorting commutes with a map that keeps the keys. */
  lemma {:induction false} SortOfMapped<S, T>(s: seq<S>, f: S -> T, key: S -> Text, key': T -> Text)
    requires forall y :: key'(f(y)) == key(y)
    ensures Sort(Map(s, f), key') == Map(Sort(s, key), f)
  {
    if s != [] {
      SortOfMapped(s[1..], f, key, key');
      assert Map(s, f)[1..] == Map(s[1..], f);
      InsertOfMapped(s[0], Sort(s[1..], key), f, key, key');
    }
  }

  lemma MapConcat<S, T>(a: seq<S>, b: seq<S>, f: S -> T)
    ensures Map(a + b, f) == Map(a, f) + Map(b, f)
  {
  }

  /** Filtering commutes with a map that keeps the property. */
  lemma {:induction false} FilterOfMapped<S, T>(s: seq<S>, f: S -> T, p: S -> bool, p': T -> bool, want: bool)
    requires forall y :: p'(f(y)) == p(y)
    ensures Filter(Map(s, f), p', want) == Map(Filter(s, p, want), f)
  {
    if s != [] {
      var r := Filter(s[1..], p, want);
      FilterOfMapped(s[1..], f, p, p', want);
      assert Map(s, f)[1..] == Map(s[1..], f) && Map(s, f)[0] == f(s[0]);
      if p(s[0]) == want { MapConcat([s[0]], r, f); }
    }
  }

  lemma Without<T>(b: seq<T>, j: nat)
    requires j < |b|
    ensures multiset(b) == multiset(b[..j] + b[j + 1..]) + multiset{b[j]}
  {
    assert b == b[..j] + [b[j]] + b[j + 1..];
  }

  lemma MapWithout<S, T>(b: seq<S>, j: nat, f: S -> T)
    requires j < |b|
    ensures multiset(Map(b, f)) == multiset(Map(b[..j] + b[j + 1..], f)) + multiset{f(b[j])}
  {
    Without(Map(b, f), j);
    assert Map(b[..j] + b[j + 1..], f) == Map(b, f)[..j] + Map(b, f)[j + 1..];
  }

  lemma MapHead<S, T>(a: seq<S>, f: S -> T)
    requires a != []
    ensures multiset(Map(a, f)) == multiset(Map(a[1..], f)) + multiset{f(a[0])}
  {
    MapWithout(a, 0, f);
    assert a[..0] + a[0 + 1..] == a[1..];
  }

  lemma RestMatches<T>(a: seq<T>, b: seq<T>, j: nat)
    requires multiset(a) == multiset(b) && a != [] && j < |b| && b[j] == a[0]
    ensures multiset(a[1..]) == multiset(b[..j] + b[j + 1..])
  {
    Without(b, j);
    TailMultiset(a);
  }

  lemma {:induction false} MapMultiset<S, T>(a: seq<S>, b: seq<S>, f: S -> T)
    requires multiset(a) == multiset(b)
    ensures multiset(Map(a, f)) == multiset(Map(b, f))
  {
    if a == [] {
      SameLength(a, b);
    } else {
      var j := Find(a, b, 0);
      RestMatches(a, b, j);
      MapMultiset(a[1..], b[..j] + b[j + 1..], f);
      MapWithout(b, j, f);
      MapHead(a, f);
    }
  }

  /** A repetition-free sequence inside another of the same length is a permutation of it. */
  lemma {:induction false} Permutes<T>(a: seq<T>, b: seq<T>)
    requires |a| == |b| && Distinct(a) && forall i :: 0 <= i < |a| ==> a[i] in b
    ensures multiset(a) == multiset(b)
  {
    if a != [] {
      var j :| 0 <= j < |b| && b[j] == a[0];
      var b' := b[..j] + b[j + 1..];
      forall i | 0 <= i < |a[1..]| ensures a[1..][i] in b' {
        StaysIn(b, j, a[i + 1]);
      }
      Permutes(a[1..], b');
      Without(b, j);
      TailMultiset(a);
    }
  }

  lemma StaysIn<T>(b: seq<T>, j: nat, x: T)
    requires j < |b| && x in b && x != b[j]
    ensures x in b[..j] + b[j + 1..]
  {
    var k :| 0 <= k < |b| && b[k] == x;
    var r := b[..j] + b[j + 1..];
    assert r[if k < j then k else k - 1] == x;
  }

  /** Repetition-free sequences with the same members are permutations of each other. */
  lemma SameMembersPermute<T>(a: seq<T>, b: seq<T>)
    requires Distinct(a) && Distinct(b)
    requires forall x :: x in a <==> x in b
    ensures multiset(a) == multiset(b)
  {
    NoLonger(a, b);
    NoLonger(b, a);
    Permutes(a, b);
  }

  lemma {:induction false} NoLonger<T>(a: seq<T>, b: seq<T>)
    requires Distinct(a) && forall i :: 0 <= i < |a| ==> a[i] in b
    ensures |a| <= |b|
  {
    if a != [] {
      var j :| 0 <= j < |b| && b[j] == a[0];
      forall i | 0 <= i < |a[1..]| ensures a[1..][i] in b[..j] + b[j + 1..] {
        StaysIn(b, j, a[i + 1]);
      }
      NoLonger(a[1..], b[..j] + b[j + 1..]);
    }
  }
}
