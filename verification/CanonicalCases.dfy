/**
 What canonicalization makes of scalars, blanks and keys, case by case: numbers
 by their bounds, strings by their blanks, objects by their trimmed and
 lower-cased keys, which are refused when repeated.
 */
module CanonicalCases {
  import opened Wrappers
  import opened Text
  import opened Sorting
  import opened Spelling
  import opened Values
  import opened Canonical
  import opened CanonicalText
  import opened Respelling
  import opened JsonText
  import opened KeyOrder

  // ---------------------------------------------------------------------
  // Scalars
  // ---------------------------------------------------------------------

  /** Numbers and bigints up to 2^53 - 1 in magnitude are the number; anything that is no such number is refused. */
  lemma NumbersBecome(u: Unicode, o: Options, n: int)
    ensures -9_007_199_254_740_991 <= n <= 9_007_199_254_740_991 ==>
              Normalize(u, o, Num(n)) == Ok(Num(n)) && Normalize(u, o, Big(n)) == Ok(Num(n))
    ensures n < -9_007_199_254_740_991 || n > 9_007_199_254_740_991 ==>
              Normalize(u, o, Num(n)) == Rejected && Normalize(u, o, Big(n)) == Rejected
    ensures Normalize(u, o, NegZero) == Ok(Num(0)) && Normalize(u, o, NonFinite) == Rejected
  {
  }

  /** A valid Date is its ISO text; functions, symbols, foreign objects and invalid Dates are refused. */
  lemma OthersBecome(u: Unicode, o: Options, iso: Iso)
    ensures Normalize(u, o, Instant(iso)) == Ok(Str(iso))
    ensures Normalize(u, o, BadDate) == Rejected && Normalize(u, o, Opaque) == Rejected
    ensures Normalize(u, o, Undefined) == (if o.dropUndefined then Ok(Undefined) else Rejected)
  {
  }

  predicate AllBlank(w: Text) {
    forall i :: 0 <= i < |w| ==> w[i] in BLANKS
  }

  lemma BlanksAreWhite(w: Text)
    requires AllBlank(w)
    ensures forall i :: 0 <= i < |w| ==> White(w[i])
  {
    forall i | 0 <= i < |w| ensures White(w[i]) { WhiteIff(w[i]); }
  }

  /** Blanks around two words go, and those between them become one space. */
  lemma BlanksBecomeOneSpace(u: Unicode, before: Text, a: Text, between: Text, b: Text, after: Text)
    requires IsWord(a) && IsWord(b) && between != [] && AllBlank(before) && AllBlank(between) && AllBlank(after)
    requires var s := before + (a + (between + (b + after))); u.nfc(s) == s
    ensures NormalizeString(u, before + (a + (between + (b + after)))) == a + [0x20] + b
  {
    var tail := b + after;
    var rest := between + tail;
    var s := before + (a + rest);
    BlanksAreWhite(before);
    BlanksAreWhite(between);
    BlanksAreWhite(after);
    NormalizeStringJoinsWords(u, s);
    BlankPrefix(before, a + rest);
    WordsOfWord(a, rest);
    BlankPrefix(between, tail);
    WordsOfWord(b, after);
    BlankPrefix(after, []);
    assert after + [] == after;
    assert Words(s) == [a] + [b];
    JoinCons(a, [b]);
  }

  lemma BlankPrefix(w: Text, s: Text)
    requires forall i :: 0 <= i < |w| ==> White(w[i])
    ensures Words(w + s) == Words(s)
  {
    SkipBlanks(w + s, |w|);
    assert (w + s)[|w|..] == s;
  }

  // ---------------------------------------------------------------------
  // Keys
  // ---------------------------------------------------------------------

  /** The two keys fall together. */
  predicate SameKey(u: Unicode, j: Text, k: Text) {
    u.lower(Trim(j)) == u.lower(Trim(k))
  }

  /** Objects that differ only in case and outer blanks of their keys normalize alike. */
  lemma KeysInAnyCase(u: Unicode, o: Options, a: seq<Entry>, b: seq<Entry>)
    requires |a| == |b|
    requires forall i :: 0 <= i < |a| ==> SameKey(u, a[i].key, b[i].key) && a[i].value == b[i].value
    ensures Normalize(u, o, Obj(a)) == Normalize(u, o, Obj(b))
  {
    SameMembers(u, o, a, b);
  }

  /** No two keys of the object fall together. */
  ghost predicate NoSameKey(u: Unicode, es: seq<Entry>) {
    forall i, j :: 0 <= i < j < |es| ==> !SameKey(u, es[i].key, es[j].key)
  }

  /** An object is accepted exactly when its values are and no two of its keys fall together, dropped members included. */
  lemma ObjectAcceptedIff(u: Unicode, o: Options, es: seq<Entry>)
    ensures Normalize(u, o, Obj(es)).Ok? <==>
              NoSameKey(u, es) && forall i :: 0 <= i < |es| ==> Normalize(u, o, es[i].value).Ok?
  {
    assert NoSameKey(u, es) <==> DistinctFolds(u, es);
    assert MembersOk(u, o, es) <==> forall i :: 0 <= i < |es| ==> Normalize(u, o, es[i].value).Ok?;
  }

  /** Two keys that fall together are enough for a refusal, whatever their values and the rest of the object. */
  lemma RepeatedKeyIsRefused(u: Unicode, o: Options, es: seq<Entry>, i: nat, j: nat)
    requires i < j < |es| && u.lower(Trim(es[i].key)) == u.lower(Trim(es[j].key))
    ensures Normalize(u, o, Obj(es)) == Rejected
  {
    ObjectAcceptedIff(u, o, es);
  }

  /** The member as it comes out. */
  function Folded(u: Unicode, o: Options, e: Entry): Entry
    requires Normalize(u, o, e.value).Ok?
  {
    Entry(u.lower(Trim(e.key)), Normalize(u, o, e.value).value)
  }

  /**
   An accepted object holds each of its defined members once, under the trimmed
   and lower-cased key, and nothing else.
   */
  lemma ObjectHolds(u: Unicode, o: Options, es: seq<Entry>, x: Entry)
    requires Normalize(u, o, Obj(es)).Ok?
    ensures Normalize(u, o, Obj(es)).value.Obj?
    ensures DistinctKeys(Normalize(u, o, Obj(es)).value.entries, EntryKey)
    ensures x in Normalize(u, o, Obj(es)).value.entries <==>
              exists i :: 0 <= i < |es| && !es[i].value.Undefined?
                          && Normalize(u, o, es[i].value).Ok? && Folded(u, o, es[i]) == x
  {
    var kept := KeptMembers(u, o, es);
    KeptAreDistinct(u, o, es);
    ArrangeKeepsEntries(kept);
    DistinctKeysInAnyOrder(kept, Arrange(kept), EntryKey);
    SameEntries(Arrange(kept), kept);
    if x in kept {
      var i := KeptFrom(u, o, es, x);
      assert Folded(u, o, es[i]) == x;
    }
    if i :| 0 <= i < |es| && !es[i].value.Undefined? && Normalize(u, o, es[i].value).Ok? && Folded(u, o, es[i]) == x {
      KeptMember(u, o, es, i);
    }
  }

  const NAME: Text := [0x6E, 0x61, 0x6D, 0x65]
  const CAPITAL_NAME: Text := [0x4E, 0x61, 0x6D, 0x65]

  lemma LoweredName(u: Unicode, k: Text)
    requires |k| == 4 && (k[0] == 0x4E || k[0] == 0x6E) && k[1..] == [0x61, 0x6D, 0x65]
    ensures u.lower(Trim(k)) == NAME
  {
    assert k[1] == k[1..][0] && k[2] == k[1..][1] && k[3] == k[1..][2];
    PlainKeyIsLowered(u, k);
    assert AsciiLower(k) == NAME;
  }

  lemma NamesFold(u: Unicode)
    ensures u.lower(Trim(NAME)) == NAME && u.lower(Trim(CAPITAL_NAME)) == NAME
  {
    LoweredName(u, NAME);
    LoweredName(u, CAPITAL_NAME);
  }

  /** A to Z are lowered one by one, every other ASCII unit stays. */
  lemma LettersLowered(i: nat, c: Unit)
    requires i < 26
    ensures AsciiLower([(0x41 + i) as Unit]) == [(0x61 + i) as Unit]
    ensures c < 0x41 || c > 0x5A ==> AsciiLower([c]) == [c]
  {
  }

  /** "Name" and "name" cannot stand together. */
  lemma NamesCollide(u: Unicode, o: Options, es: seq<Entry>)
    requires |es| == 2 && es[0].key == CAPITAL_NAME && es[1].key == NAME
    ensures Normalize(u, o, Obj(es)) == Rejected
  {
    NamesFold(u);
    RepeatedKeyIsRefused(u, o, es, 0, 1);
  }

  lemma SingleFinished(ns: seq<Entry>)
    requires |ns| == 1 && !ns[0].value.Undefined?
    ensures FinishObject(ns) == Obj(ns)
  {
    FilterKeepsAll(ns, IsUndefined, false);
    InOrderIff(ns);
  }

  lemma SingleMember(u: Unicode, o: Options, es: seq<Entry>, w: Value)
    requires |es| == 1 && Normalize(u, o, es[0].value) == Ok(w) && !w.Undefined?
    ensures Normalize(u, o, Obj(es)) == Ok(Obj([Entry(u.lower(Trim(es[0].key)), w)]))
  {
    var ns := NormalMembers(u, o, es);
    assert ns == [Entry(FoldKey(u, es[0].key), w)];
    SingleFinished(ns);
    AcceptedObject(u, o, es);
  }

  /** The text {"name":1}. */
  const NAME_TEXT: Text := [0x7B, 0x22, 0x6E, 0x61, 0x6D, 0x65, 0x22, 0x3A, 0x31, 0x7D]

  lemma PrintedSingle(e: Entry, es: seq<Entry>)
    requires |es| == 1 && es[0] == e && !Omitted(e.value)
    ensures Print(Obj(es)) == [0x7B] + PrintMember(e) + [0x7D]
  {
    assert PrintMembers(es[1..], true) == [];
    assert PrintMembers(es, false) == Separator(false) + PrintMember(e) + [] == PrintMember(e);
  }

  lemma PrintedName(e: Entry)
    requires e == Entry(NAME, Num(1))
    ensures [0x7B] + PrintMember(e) + [0x7D] == NAME_TEXT
  {
    OrdinaryTextIsKept(NAME);
    assert Print(Num(1)) == [0x31];
    Pieces([0x22] + NAME + [0x22], PrintMember(e));
  }

  lemma Pieces(quoted: Text, member: Text)
    requires quoted == [0x22] + NAME + [0x22] && member == quoted + [0x3A] + [0x31]
    ensures [0x7B] + member + [0x7D] == NAME_TEXT
  {
  }

  /** The canonical text of an object with the member "Name" of value 1. */
  lemma NameComesOutLowered(u: Unicode, o: Options, es: seq<Entry>)
    requires |es| == 1 && es[0] == Entry(CAPITAL_NAME, Num(1))
    ensures Canonicalize(u, o, Obj(es)) == Ok(Some(NAME_TEXT))
  {
    NamesFold(u);
    SingleMember(u, o, es, Num(1));
    PrintedSingle(Entry(NAME, Num(1)), [Entry(NAME, Num(1))]);
    PrintedName(Entry(NAME, Num(1)));
  }
}
