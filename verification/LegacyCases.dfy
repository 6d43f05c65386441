/**
 Legacy payloads case by case: booleans spelled as strings, Dates, the names of
 array wrappers, and what is found in the tree when dotted keys and objects say
 different things about the same place.
 */
module LegacyCases {
  import opened Wrappers
  import opened Text
  import opened Sorting
  import opened Spelling
  import opened Values
  import opened Canonical
  import opened JsonText
  import opened Legacy
  import opened LegacyFixed

  // ---------------------------------------------------------------------
  // Scalars
  // ---------------------------------------------------------------------

  /** A string that reads true or false, in any case and between any blanks, becomes that boolean; no other does. */
  lemma StringsBecome(u: Unicode, s: Text)
    ensures u.lower(Trim(s)) == Ascii("true") ==> NormalizeLegacy(u, Str(s)) == Ok(Bool(true))
    ensures u.lower(Trim(s)) == Ascii("false") ==> NormalizeLegacy(u, Str(s)) == Ok(Bool(false))
    ensures u.lower(Trim(s)) !in {Ascii("true"), Ascii("false")} ==> NormalizeLegacy(u, Str(s)) == Ok(Str(s))
  {
    LiteralTexts(0);
  }

  /** A Date becomes an empty object; every other scalar stays. */
  lemma ScalarsBecome(u: Unicode, v: Value)
    ensures v.Instant? || v.BadDate? ==> NormalizeLegacy(u, v) == Ok(Obj([]))
    ensures !v.Str? && !v.Arr? && !v.Obj? && !v.Instant? && !v.BadDate? ==> NormalizeLegacy(u, v) == Ok(v)
  {
    if ObjectLike(v) { assert LegacyMembers(u, []) == Ok([]); }
  }

  // ---------------------------------------------------------------------
  // Wrappers
  // ---------------------------------------------------------------------

  const LETTER_S: Unit := 0x73

  /** The name is the other one, or the other one with an s behind it. */
  predicate Plural(name: Text, one: Text) {
    if name != [] && name[|name| - 1] == LETTER_S then name == one + [LETTER_S] else name == one
  }

  lemma SingularIff(name: Text, one: Text)
    ensures Singular(name) == one <==> Plural(name, one)
  {
    if name != [] && name[|name| - 1] == LETTER_S {
      assert name == name[..|name| - 1] + [LETTER_S];
      assert (one + [LETTER_S])[..|one|] == one;
    }
  }

  /** An array wrapper is its array when it is named "item" or its parent is named in the plural; else it is refused. */
  lemma WrapperByName(u: Unicode, k: Text, inner: Text, items: seq<Value>)
    requires DotFree(k) && DotFree(inner)
    ensures var wrapped, plain := Obj([Entry(k, Obj([Entry(inner, Arr(items))]))]), Obj([Entry(k, Arr(items))]);
            NormalizeLegacy(u, wrapped) ==
              if u.lower(Trim(inner)) == Ascii("item") || Plural(u.lower(Trim(k)), u.lower(Trim(inner)))
              then NormalizeLegacy(u, plain) else Rejected
  {
    assert ITEM == Ascii("item");
    SingularIff(FoldKey(u, k), FoldKey(u, inner));
    WrapperMeansItsArray(u, k, inner, items);
  }

  // ---------------------------------------------------------------------
  // What is found at a path
  // ---------------------------------------------------------------------

  function At(v: Value, p: seq<Text>): Option<Value>
    decreases |p|
  {
    if p == [] then Some(v)
    else if v.Obj? && Has(v.entries, p[0]) then At(Get(v.entries, p[0]), p[1..])
    else None
  }

  lemma OnePart(parts: seq<Text>, v: Value)
    requires |parts| == 1
    ensures SetPath([], parts, v) == [Entry(parts[0], v)]
  {
    assert !Has([], parts[0]);
  }

  lemma TwoParts(parts: seq<Text>, v: Value)
    requires |parts| == 2
    ensures SetPath([], parts, v) == [Entry(parts[0], Obj([Entry(parts[1], v)]))]
  {
    assert !Has([], parts[0]);
    OnePart(parts[1..], v);
    assert Child([], parts[0]) == [];
  }

  /** A key with one dot names a member of an object. */
  lemma DottedKeyNests(a: Text, b: Text, v: Value, es: seq<Entry>)
    requires DotFree(a) && DotFree(b) && !v.Obj? && !v.Instant? && !v.BadDate?
    requires |es| == 1 && es[0] == Entry(a + ([0x2E] + b), v)
    ensures Unflatten(es) == [Entry(a, Obj([Entry(b, v)]))]
  {
    SplitFirst(a, b);
    DotFreeHasNoDots(b);
    var parts := SplitDots(es[0].key);
    assert DOT == 0x2E && parts == [a] + [b];
    TwoParts(parts, v);
    UnflattenStep([], es, 0);
    assert es[0..] == es && es[1..] == [];
    assert UnflattenInto(SetPath([], parts, v), []) == SetPath([], parts, v);
  }

  /** A scalar stored at a path is found there, whatever was in the way. */
  lemma {:induction false} StoredIsFound(es: seq<Entry>, q: seq<Text>, x: Value)
    requires q != [] && !x.Obj? && !x.Arr?
    ensures At(Obj(SetPath(es, q, x)), q) == Some(x)
    decreases |q|
  {
    if |q| == 1 {
      GetSet(es, q[0], x, q[0]);
      assert q[1..] == [];
    } else {
      StoredIsFound(Child(es, q[0]), q[1..], x);
      GetSet(es, q[0], Obj(SetPath(Child(es, q[0]), q[1..], x)), q[0]);
    }
  }

  /** Storing touches the first key of the path and no other. */
  lemma OtherKeysStay(es: seq<Entry>, q: seq<Text>, x: Value, k: Text)
    requires q != [] && k != q[0]
    ensures Has(SetPath(es, q, x), k) <==> Has(es, k)
    ensures Has(es, k) ==> Get(SetPath(es, q, x), k) == Get(es, k)
  {
    if |q| == 1 {
      GetSet(es, q[0], x, k);
      if Has(es, q[0]) && (Get(es, q[0]).Obj? || Get(es, q[0]).Arr?) && (x.Obj? || x.Arr?) {
        GetSet(es, q[0], Assign(Get(es, q[0]), x), k);
      }
    } else {
      GetSet(es, q[0], Obj(SetPath(Child(es, q[0]), q[1..], x)), k);
    }
  }

  // ---------------------------------------------------------------------
  // Merging
  // ---------------------------------------------------------------------

  lemma TailHas(more: seq<Entry>, k: Text)
    requires more != [] && DistinctKeys(more, EntryKey)
    ensures DistinctKeys(more[1..], EntryKey) && !Has(more[1..], more[0].key)
    ensures Has(more, k) <==> k == more[0].key || Has(more[1..], k)
    ensures Has(more, k) ==> Get(more, k) == if k == more[0].key then more[0].value else Get(more[1..], k)
  {
    forall i, j | 0 <= i < j < |more[1..]| ensures EntryKey(more[1..][i]) != EntryKey(more[1..][j]) {
      assert EntryKey(more[i + 1]) != EntryKey(more[j + 1]);
    }
    var i := IndexOf(more[1..], more[0].key);
    assert i < |more[1..]| ==> EntryKey(more[0]) != EntryKey(more[i + 1]);
  }

  /** Copying members over others: the copied ones win, the others stay. */
  lemma {:induction false} LaterMembersWin(es: seq<Entry>, more: seq<Entry>, k: Text)
    requires DistinctKeys(more, EntryKey)
    ensures Has(SetAll(es, more), k) <==> Has(es, k) || Has(more, k)
    ensures Has(SetAll(es, more), k) ==>
              Get(SetAll(es, more), k) == if Has(more, k) then Get(more, k) else Get(es, k)
    decreases |more|
  {
    if more != [] {
      TailHas(more, k);
      GetSet(es, more[0].key, more[0].value, k);
      LaterMembersWin(Set(es, more[0].key, more[0].value), more[1..], k);
    }
  }

  /** An object stored where there is one already is merged into it, the later members winning. */
  lemma ObjectsMerge(es: seq<Entry>, k: Text, first: seq<Entry>, more: seq<Entry>, j: Text)
    requires Has(es, k) && Get(es, k) == Obj(first) && DistinctKeys(more, EntryKey)
    ensures var r := SetPath(es, [k], Obj(more));
            Has(r, k) && Get(r, k).Obj?
            && (Has(Get(r, k).entries, j) <==> Has(first, j) || Has(more, j))
            && (Has(Get(r, k).entries, j) ==>
                  Get(Get(r, k).entries, j) == if Has(more, j) then Get(more, j) else Get(first, j))
  {
    LaterMembersWin(first, more, j);
    GetSet(es, k, Obj(SetAll(first, more)), k);
  }

  predicate Structure(v: Value) {
    v.Obj? || v.Arr?
  }

  /** What is found under a key after storing there: two structures are merged, anything else replaces what was there. */
  lemma StoredUnderKey(es: seq<Entry>, q: seq<Text>, v: Value)
    requires |q| == 1
    ensures Has(SetPath(es, q, v), q[0])
    ensures Get(SetPath(es, q, v), q[0]) ==
            if Has(es, q[0]) && Structure(Get(es, q[0])) && Structure(v) then Assign(Get(es, q[0]), v) else v
  {
    GetSet(es, q[0], v, q[0]);
    if Has(es, q[0]) && Structure(Get(es, q[0])) && Structure(v) {
      GetSet(es, q[0], Assign(Get(es, q[0]), v), q[0]);
    }
  }

  lemma {:induction false} DecimalTellsApart(m: nat, n: nat)
    ensures Decimal(m) == Decimal(n) <==> m == n
  {
    DecimalRoundTrip(m);
    DecimalRoundTrip(n);
  }

  /** An array stored over an object becomes members named by their positions. */
  lemma ItemsBecomeMembers(es: seq<Entry>, items: seq<Value>, k: Text)
    ensures Assign(Obj(es), Arr(items)).Obj?
    ensures var r := Assign(Obj(es), Arr(items)).entries;
            forall i :: 0 <= i < |items| && k == Decimal(i) ==> Has(r, k) && Get(r, k) == items[i]
    ensures var r := Assign(Obj(es), Arr(items)).entries;
            (forall i :: 0 <= i < |items| ==> k != Decimal(i)) ==>
              (Has(r, k) <==> Has(es, k)) && (Has(r, k) ==> Get(r, k) == Get(es, k))
  {
    var more := IndexMembers(items);
    forall i, j | 0 <= i < j < |more| ensures EntryKey(more[i]) != EntryKey(more[j]) { DecimalTellsApart(i, j); }
    LaterMembersWin(es, more, k);
    forall i | 0 <= i < |items| && k == Decimal(i) ensures Has(more, k) && Get(more, k) == items[i] {
      assert more[i].key == k;
      DecimalTellsApart(IndexOf(more, k), i);
    }
  }

  /** An array stored over an array replaces its first items. */
  lemma ArraysOverlay(items: seq<Value>, more: seq<Value>, i: nat)
    requires i < |items| || i < |more|
    ensures var r := Assign(Arr(items), Arr(more));
            && r.Arr? && |r.items| == (if |items| < |more| then |more| else |items|)
            && r.items[i] == if i < |more| then more[i] else items[i]
  {
  }

  /** Members of an object stored over an array replace the items they name by index. */
  lemma {:induction false} IndexMembersReplace(items: seq<Value>, more: seq<Entry>, i: nat)
    requires DistinctKeys(more, EntryKey) && i < |items| <= 4_294_967_295
    ensures SetItems(items, more)[i] == if Has(more, Decimal(i)) then Get(more, Decimal(i)) else items[i]
    decreases |more|
  {
    if more != [] {
      var k := more[0].key;
      var hit := IsIndex(k) && DigitsValue(k) < |items|;
      TailHas(more, Decimal(i));
      IndexIff(Decimal(i));
      DecimalRoundTrip(i);
      if IsIndex(k) { DigitsAreDecimal(k); }
      IndexMembersReplace(if hit then items[DigitsValue(k) := more[0].value] else items, more[1..], i);
    }
  }
}
