/**
 The receipt printer of CheckoutReceiptModal.jsx: `stableStringify` and the
 digest it falls back to without WebCrypto.
 */
module Receipt {
  import opened Text
  import opened Sorting
  import opened Values
  import opened Canonical

  // ---------------------------------------------------------------------
  // stableStringify
  // ---------------------------------------------------------------------

  datatype Part = Part(key: Text, text: Text)

  function PartKey(p: Part): Text {
    p.key
  }

  function StableStringify(v: Value): Text
    decreases v, 1
  {
    match v
    case Arr(items) => [0x5B] + StableItems(items, false) + [0x5D]
    case Obj(es) => [0x7B] + JoinParts(Sort(StableParts(es), PartKey), false) + [0x7D]
    case _ => Print(v)
  }

  function StableItems(items: seq<Value>, comma: bool): Text
    decreases items, 0
  {
    if items == [] then []
    else Separator(comma) + StableStringify(items[0]) + StableItems(items[1..], true)
  }

  function StableParts(es: seq<Entry>): (r: seq<Part>)
    ensures |r| == |es|
    decreases es, 0
  {
    seq(|es|, i requires 0 <= i < |es| => Part(es[i].key, StableStringify(es[i].value)))
  }

  function JoinParts(ps: seq<Part>, comma: bool): Text {
    if ps == [] then []
    else Separator(comma) + (Quote(ps[0].key) + [0x3A] + ps[0].text) + JoinParts(ps[1..], true)
  }

  // ---------------------------------------------------------------------
  // Equality up to key order
  // ---------------------------------------------------------------------

  /** JSON data whose objects have distinct keys, at every depth. */
  ghost predicate Proper(v: Value) {
    match v
    case Null => true
    case Bool(_) => true
    case Num(n) => -MAX_MAGNITUDE <= n <= MAX_MAGNITUDE
    case Str(_) => true
    case Arr(items) => forall i :: 0 <= i < |items| ==> Proper(items[i])
    case Obj(es) => DistinctKeys(es, EntryKey) && forall i :: 0 <= i < |es| ==> Proper(es[i].value)
    case _ => false
  }

  ghost predicate SameJson(a: Value, b: Value)
    decreases a
  {
    if a.Arr? && b.Arr? then
      |a.items| == |b.items| && forall i :: 0 <= i < |a.items| ==> SameJson(a.items[i], b.items[i])
    else if a.Obj? && b.Obj? then
      && |a.entries| == |b.entries|
      && forall i :: 0 <= i < |a.entries| ==> HasTwin(a.entries[i], b.entries)
    else a == b
  }

  /** Some member with the same key and an equal value. */
  ghost predicate HasTwin(e: Entry, es: seq<Entry>)
    decreases e
  {
    exists j :: 0 <= j < |es| && e.key == es[j].key && SameJson(e.value, es[j].value)
  }

  /** The value with the members of every object sorted by key. */
  function SortDeep(v: Value): Value
    decreases v, 1
  {
    match v
    case Arr(items) => Arr(SortItems(items))
    case Obj(es) => Obj(Sort(SortMembers(es), EntryKey))
    case _ => v
  }

  function SortItems(items: seq<Value>): (r: seq<Value>)
    ensures |r| == |items|
    decreases items, 0
  {
    seq(|items|, i requires 0 <= i < |items| => SortDeep(items[i]))
  }

  function SortMembers(es: seq<Entry>): (r: seq<Entry>)
    ensures |r| == |es|
    decreases es, 0
  {
    seq(|es|, i requires 0 <= i < |es| => Entry(es[i].key, SortDeep(es[i].value)))
  }

  // ---------------------------------------------------------------------
  // stableStringify prints the sorted value
  // ---------------------------------------------------------------------

  function PrintPart(e: Entry): Part {
    Part(e.key, Print(e.value))
  }

  lemma {:induction false} JoinIsPrint(es: seq<Entry>, comma: bool)
    requires forall i :: 0 <= i < |es| ==> !Omitted(es[i].value)
    ensures JoinParts(Map(es, PrintPart), comma) == PrintMembers(es, comma)
  {
    if es != [] {
      JoinIsPrint(es[1..], true);
      assert Map(es, PrintPart)[1..] == Map(es[1..], PrintPart);
    }
  }

  lemma {:induction false} SortDeepIsJson(v: Value)
    requires Proper(v)
    ensures IsJson(SortDeep(v))
    decreases v
  {
    match v
    case Arr(items) =>
      forall i | 0 <= i < |items| ensures IsJson(SortItems(items)[i]) { SortDeepIsJson(items[i]); }
    case Obj(es) =>
      forall i | 0 <= i < |es| ensures IsJson(SortMembers(es)[i].value) { SortDeepIsJson(es[i].value); }
      SortedStaysJson(SortMembers(es));
    case _ =>
  }

  lemma SortedStaysJson(es: seq<Entry>)
    requires forall i :: 0 <= i < |es| ==> IsJson(es[i].value)
    ensures forall i :: 0 <= i < |es| ==> IsJson(Sort(es, EntryKey)[i].value)
  {
    SortSorts(es, EntryKey);
    forall i | 0 <= i < |es| ensures IsJson(Sort(es, EntryKey)[i].value) {
      var j := Find(Sort(es, EntryKey), es, i);
    }
  }

  lemma {:induction false} StableIsPrint(v: Value)
    requires Proper(v)
    ensures StableStringify(v) == Print(SortDeep(v))
    decreases v, 1
  {
    match v
    case Arr(items) => StableItemsArePrinted(items, false);
    case Obj(es) =>
      forall i | 0 <= i < |es|
        ensures StableStringify(es[i].value) == Print(SortDeep(es[i].value)) && IsJson(SortDeep(es[i].value))
      {
        StableIsPrint(es[i].value);
        SortDeepIsJson(es[i].value);
      }
      StableMembersArePrinted(es);
    case _ =>
  }

  lemma StableMembersArePrinted(es: seq<Entry>)
    requires forall i :: 0 <= i < |es| ==>
      StableStringify(es[i].value) == Print(SortDeep(es[i].value)) && IsJson(SortDeep(es[i].value))
    ensures JoinParts(Sort(StableParts(es), PartKey), false) == PrintMembers(Sort(SortMembers(es), EntryKey), false)
  {
    var ms := SortMembers(es);
    assert StableParts(es) == Map(ms, PrintPart);
    SortOfMapped(ms, PrintPart, EntryKey, PartKey);
    SortedStaysJson(ms);
    JoinIsPrint(Sort(ms, EntryKey), false);
  }

  lemma {:induction false} StableItemsArePrinted(items: seq<Value>, comma: bool)
    requires forall i :: 0 <= i < |items| ==> Proper(items[i])
    ensures StableItems(items, comma) == PrintItems(SortItems(items), comma)
    decreases items, 0
  {
    if items != [] {
      StableIsPrint(items[0]);
      StableItemsArePrinted(items[1..], true);
      assert SortItems(items)[1..] == SortItems(items[1..]);
    }
  }

  // ---------------------------------------------------------------------
  // Sorted values are equal exactly when the values are, up to key order
  // ---------------------------------------------------------------------

  lemma SortMembersAreDistinct(es: seq<Entry>)
    requires DistinctKeys(es, EntryKey)
    ensures DistinctKeys(SortMembers(es), EntryKey)
  {
    var ms := SortMembers(es);
    forall i, j | 0 <= i < j < |ms| ensures EntryKey(ms[i]) != EntryKey(ms[j]) {
      assert EntryKey(es[i]) != EntryKey(es[j]);
    }
  }

  lemma {:induction false} SortDeepIff(a: Value, b: Value)
    requires Proper(a) && Proper(b)
    ensures SortDeep(a) == SortDeep(b) <==> SameJson(a, b)
    decreases a
  {
    if a.Arr? && b.Arr? {
      forall i | 0 <= i < |a.items| && i < |b.items|
        ensures SortDeep(a.items[i]) == SortDeep(b.items[i]) <==> SameJson(a.items[i], b.items[i])
      {
        SortDeepIff(a.items[i], b.items[i]);
      }
      SortItemsIff(a.items, b.items);
    } else if a.Obj? && b.Obj? {
      forall i, j | 0 <= i < |a.entries| && 0 <= j < |b.entries| ensures Agree(a.entries[i], b.entries[j]) {
        SortDeepIff(a.entries[i].value, b.entries[j].value);
      }
      if SortDeep(a) == SortDeep(b) { SortedTwins(a.entries, b.entries); }
      if SameJson(a, b) { TwinsSorted(a.entries, b.entries); }
    }
  }

  /** On the values of these members, sorting tells apart what is different. */
  ghost predicate Agree(x: Entry, y: Entry) {
    SortDeep(x.value) == SortDeep(y.value) <==> SameJson(x.value, y.value)
  }

  lemma SortedTwins(a: seq<Entry>, b: seq<Entry>)
    requires forall i, j :: 0 <= i < |a| && 0 <= j < |b| ==> Agree(a[i], b[j])
    requires Sort(SortMembers(a), EntryKey) == Sort(SortMembers(b), EntryKey)
    ensures SameJson(Obj(a), Obj(b))
  {
    SortSorts(SortMembers(a), EntryKey);
    SortSorts(SortMembers(b), EntryKey);
    SameLength(SortMembers(a), SortMembers(b));
    forall i | 0 <= i < |a| ensures HasTwin(a[i], b) {
      var j := FindMember(a, b, i);
      assert Agree(a[i], b[j]);
    }
  }

  lemma TwinsSorted(a: seq<Entry>, b: seq<Entry>)
    requires forall i, j :: 0 <= i < |a| && 0 <= j < |b| ==> Agree(a[i], b[j])
    requires DistinctKeys(a, EntryKey) && SameJson(Obj(a), Obj(b))
    ensures Sort(SortMembers(a), EntryKey) == Sort(SortMembers(b), EntryKey)
  {
    forall i | 0 <= i < |a| ensures SortMembers(a)[i] in SortMembers(b) {
      var j := TwinOf(a[i], b);
      assert Agree(a[i], b[j]);
      assert SortMembers(a)[i] == SortMembers(b)[j];
    }
    SortMembersBackward(a, b);
  }

  lemma TwinOf(e: Entry, es: seq<Entry>) returns (j: nat)
    requires HasTwin(e, es)
    ensures j < |es| && e.key == es[j].key && SameJson(e.value, es[j].value)
  {
    j :| 0 <= j < |es| && e.key == es[j].key && SameJson(e.value, es[j].value);
  }

  lemma SortItemsIff(a: seq<Value>, b: seq<Value>)
    requires forall i :: 0 <= i < |a| && i < |b| ==> (SortDeep(a[i]) == SortDeep(b[i]) <==> SameJson(a[i], b[i]))
    ensures SortItems(a) == SortItems(b) <==> SameJson(Arr(a), Arr(b))
  {
    if SortItems(a) == SortItems(b) {
      forall i | 0 <= i < |a| ensures SameJson(a[i], b[i]) {
        assert SortItems(a)[i] == SortItems(b)[i];
      }
    }
  }

  lemma FindMember(a: seq<Entry>, b: seq<Entry>, i: nat) returns (j: nat)
    requires multiset(SortMembers(a)) == multiset(SortMembers(b)) && i < |a|
    ensures j < |b| && a[i].key == b[j].key && SortDeep(a[i].value) == SortDeep(b[j].value)
  {
    j := Find(SortMembers(a), SortMembers(b), i);
    assert SortMembers(a)[i] == Entry(a[i].key, SortDeep(a[i].value));
    assert SortMembers(b)[j] == Entry(b[j].key, SortDeep(b[j].value));
  }

  lemma SortMembersBackward(a: seq<Entry>, b: seq<Entry>)
    requires DistinctKeys(a, EntryKey) && |a| == |b|
    requires forall i :: 0 <= i < |a| ==> SortMembers(a)[i] in SortMembers(b)
    ensures Sort(SortMembers(a), EntryKey) == Sort(SortMembers(b), EntryKey)
  {
    var x, y := SortMembers(a), SortMembers(b);
    SortMembersAreDistinct(a);
    DistinctKeysSplit(x, EntryKey);
    Permutes(x, y);
    SortIgnoresOrder(x, y, EntryKey);
  }

  /** Equal texts exactly for values that are equal up to key order. */
  lemma StableStringifyIff(a: Value, b: Value)
    requires Proper(a) && Proper(b)
    ensures StableStringify(a) == StableStringify(b) <==> SameJson(a, b)
  {
    StableIsPrint(a);
    StableIsPrint(b);
    SortDeepIsJson(a);
    SortDeepIsJson(b);
    SortDeepIff(a, b);
    if Print(SortDeep(a)) == Print(SortDeep(b)) {
      PrintInjective(SortDeep(a), SortDeep(b));
    }
  }

  // ---------------------------------------------------------------------
  // The fallback digest
  // ---------------------------------------------------------------------

  const WORD := 0x1_0000_0000

  function Pow31(n: nat): nat {
    if n == 0 then 1 else 31 * Pow31(n - 1)
  }

  /** The text read as the digits of a base-31 number, most significant first. */
  function Polynomial(t: Text): nat {
    if t == [] then 0 else t[0] as nat * Pow31(|t| - 1) + Polynomial(t[1..])
  }

  lemma {:induction false} PolynomialAppend(t: Text, c: Unit)
    ensures Polynomial(t + [c]) == Polynomial(t) * 31 + c as nat
  {
    if t == [] {
      assert (t + [c])[1..] == [];
      assert Pow31(0) == 1;
    } else {
      PolynomialAppend(t[1..], c);
      assert (t + [c])[1..] == t[1..] + [c];
      assert Pow31(|t|) == 31 * Pow31(|t| - 1);
      Distribute(t[0] as nat, Pow31(|t| - 1));
    }
  }

  lemma Distribute(a: nat, p: nat)
    ensures a * (31 * p) == (a * p) * 31
  {
  }

  lemma WrapStep(p: nat, c: nat)
    ensures (p % WORD * 31 + c) % WORD == (p * 31 + c) % WORD
  {
    var q, r := p / WORD, p % WORD;
    var s := r * 31 + c;
    Remainder(p * 31 + c, q * 31 + s / WORD, s % WORD);
  }

  lemma Remainder(x: nat, q: nat, r: nat)
    requires x == WORD * q + r && r < WORD
    ensures x % WORD == r
  {
  }

  function HexText(n: nat): (t: Text)
    ensures t != []
    ensures forall i :: 0 <= i < |t| ==> HexValue(t[i]) >= 0
  {
    if n < 16 then [HexDigit(n)] else HexText(n / 16) + [HexDigit(n % 16)]
  }

  /** `padStart(8, "0")`. */
  function Pad8(t: Text): (r: Text)
    ensures |t| <= 8 ==> |r| == 8
    decreases 8 - |t|
  {
    if |t| >= 8 then t else Pad8([0x30] + t)
  }

  function HexNumber(t: Text): int {
    if t == [] then 0 else HexNumber(t[..|t| - 1]) * 16 + HexValue(t[|t| - 1])
  }

  lemma {:induction false} HexTextRoundTrip(n: nat)
    ensures HexNumber(HexText(n)) == n
  {
    if n >= 16 {
      HexTextRoundTrip(n / 16);
      HexDigitRoundTrip(n % 16);
      assert HexText(n)[..|HexText(n)| - 1] == HexText(n / 16);
    } else {
      HexDigitRoundTrip(n);
      assert HexText(n)[..0] == [];
    }
  }

  lemma {:induction false} HexTextLength(n: nat, k: nat, bound: nat)
    requires k >= 1 && n < bound && bound == Pow16(k)
    ensures |HexText(n)| <= k
    decreases k
  {
    if n >= 16 {
      assert k > 1 by { assert Pow16(1) == 16 * Pow16(0); }
      HexTextLength(n / 16, k - 1, Pow16(k - 1));
    }
  }

  function Pow16(k: nat): nat {
    if k == 0 then 1 else 16 * Pow16(k - 1)
  }

  lemma {:induction false} LeadingZero(t: Text)
    ensures HexNumber([0x30] + t) == HexNumber(t)
  {
    var z := [0x30] + t;
    if t == [] {
      assert z[..0] == [];
    } else {
      LeadingZero(t[..|t| - 1]);
      assert z[..|z| - 1] == [0x30] + t[..|t| - 1];
    }
  }

  lemma {:induction false} PadKeeps(t: Text)
    requires forall i :: 0 <= i < |t| ==> HexValue(t[i]) >= 0
    ensures HexNumber(Pad8(t)) == HexNumber(t)
    ensures forall i :: 0 <= i < |Pad8(t)| ==> HexValue(Pad8(t)[i]) >= 0
    decreases 8 - |t|
  {
    if |t| < 8 {
      LeadingZero(t);
      PadKeeps([0x30] + t);
    }
  }

  /** The digits of the fallback digest: exactly eight, spelling the polynomial modulo 2^32. */
  method FallbackDigest(t: Text) returns (digest: Text)
    ensures |digest| == 8
    ensures forall i :: 0 <= i < 8 ==> HexValue(digest[i]) >= 0
    ensures HexNumber(digest) == Polynomial(t) % WORD
  {
    var hash: nat := 0;
    for index := 0 to |t|
      invariant hash == Polynomial(t[..index]) % WORD
    {
      WrapStep(Polynomial(t[..index]), t[index] as nat);
      PolynomialAppend(t[..index], t[index]);
      assert t[..index + 1] == t[..index] + [t[index]];
      hash := (hash * 31 + t[index] as nat) % WORD;
    }
    assert t[..|t|] == t;
    HexTextRoundTrip(hash);
    assert WORD == Pow16(8);
    HexTextLength(hash, 8, WORD);
    PadKeeps(HexText(hash));
    return Pad8(HexText(hash));
  }
}
