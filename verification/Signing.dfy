/**
 Signing payloads (src/lib/signing.js): a body wrapped with a domain and a
 version tag, normalized three times on the way to the text that is signed.
 */
module Signing {
  import opened Wrappers
  import opened Text
  import opened Sorting
  import opened Spelling
  import opened Values
  import opened Canonical
  import opened CanonicalText

  const DOMAIN: Text := [0x64, 0x6F, 0x6D, 0x61, 0x69, 0x6E]
  const VERSION: Text := [0x76, 0x65, 0x72, 0x73, 0x69, 0x6F, 0x6E]
  const BODY: Text := [0x62, 0x6F, 0x64, 0x79]

  /** What `typeof body === "object"`, neither null nor an array, lets through. */
  predicate IsBody(body: Value) {
    body.Obj? || body.Instant? || body.BadDate? || body.Opaque?
  }

  function Envelope(domain: Text, version: Text, body: Value): Value {
    Obj(Members(domain, version, body))
  }

  function CreateCanonicalPayload(u: Unicode, o: Options, domain: Text, version: Text, body: Value): Outcome<Value> {
    if !IsBody(body) then Rejected
    else
      match Normalize(u, o, body)
      case Rejected => Rejected
      case Ok(b) => Normalize(u, o, Envelope(NormalizeString(u, domain), NormalizeString(u, version), b))
  }

  function CanonicalizePayload(u: Unicode, o: Options, domain: Text, version: Text, body: Value)
    : Outcome<Option<Text>>
  {
    match CreateCanonicalPayload(u, o, domain, version, body)
    case Rejected => Rejected
    case Ok(p) => Canonicalize(u, o, p)
  }

  /** A record of three members, as it is written and as it is normalized. */
  function Three(k1: Text, v1: Value, k2: Text, v2: Value, k3: Text, v3: Value): seq<Entry> {
    [Entry(k1, v1), Entry(k2, v2), Entry(k3, v3)]
  }

  lemma ThreeDistinct(u: Unicode, es: seq<Entry>)
    requires |es| == 3
    requires FoldKey(u, es[0].key) != FoldKey(u, es[1].key)
    requires FoldKey(u, es[0].key) != FoldKey(u, es[2].key)
    requires FoldKey(u, es[1].key) != FoldKey(u, es[2].key)
    ensures DistinctFolds(u, es)
  {
  }

  ghost predicate NormalizesTo(u: Unicode, o: Options, e: Entry, n: Entry) {
    Normalize(u, o, e.value) == Ok(n.value) && FoldKey(u, e.key) == n.key
  }

  lemma ThreeMembers(u: Unicode, o: Options, es: seq<Entry>, ns: seq<Entry>)
    requires |es| == |ns| == 3
    requires NormalizesTo(u, o, es[0], ns[0]) && NormalizesTo(u, o, es[1], ns[1]) && NormalizesTo(u, o, es[2], ns[2])
    ensures MembersOk(u, o, es) && NormalMembers(u, o, es) == ns
  {
  }

  lemma ThreeNormalize(u: Unicode, o: Options, es: seq<Entry>, ns: seq<Entry>)
    requires |es| == |ns| == 3
    requires NormalizesTo(u, o, es[0], ns[0]) && NormalizesTo(u, o, es[1], ns[1]) && NormalizesTo(u, o, es[2], ns[2])
    requires ns[0].key != ns[1].key && ns[0].key != ns[2].key && ns[1].key != ns[2].key
    ensures Normalize(u, o, Obj(es)) == Ok(FinishObject(ns))
  {
    ThreeDistinct(u, es);
    ThreeMembers(u, o, es, ns);
  }

  lemma LastRejected(u: Unicode, o: Options, es: seq<Entry>)
    requires |es| == 3 && Normalize(u, o, es[2].value).Rejected?
    ensures Normalize(u, o, Obj(es)) == Rejected
  {
    assert !MembersOk(u, o, es);
  }

  lemma ThreeAgree(x: seq<Entry>, y: seq<Entry>)
    requires |x| == |y| == 3 && FinishObject(x) == FinishObject(y)
    requires x[0].key == y[0].key && x[1].key == y[1].key && x[2].key == y[2].key
    requires x[0].key != x[1].key && x[0].key != x[2].key && x[1].key != x[2].key
    requires forall i :: 0 <= i < 3 ==> !IsUndefined(x[i]) && !IsUndefined(y[i])
    ensures x[0] == y[0] && x[1] == y[1] && x[2] == y[2]
  {
    SameEntries(x, y);
    ThreePairs(x, y);
  }

  lemma ThreePairs(x: seq<Entry>, y: seq<Entry>)
    requires multiset(x) == multiset(y) && |x| == |y| == 3
    requires x[0].key == y[0].key && x[1].key == y[1].key && x[2].key == y[2].key
    requires x[0].key != x[1].key && x[0].key != x[2].key && x[1].key != x[2].key
    ensures x[0] == y[0] && x[1] == y[1] && x[2] == y[2]
  {
    SameUnderKey(x, y, 0);
    SameUnderKey(x, y, 1);
    SameUnderKey(x, y, 2);
  }

  lemma SameUnderKey(x: seq<Entry>, y: seq<Entry>, i: nat)
    requires multiset(x) == multiset(y) && i < |x| == |y|
    requires forall j :: 0 <= j < |y| && j != i ==> y[j].key != x[i].key
    ensures x[i] == y[i]
  {
    var j := Find(x, y, i);
  }

  lemma SameEntries(x: seq<Entry>, y: seq<Entry>)
    requires forall i :: 0 <= i < |x| ==> !IsUndefined(x[i])
    requires forall i :: 0 <= i < |y| ==> !IsUndefined(y[i])
    requires FinishObject(x) == FinishObject(y)
    ensures multiset(x) == multiset(y)
  {
    FilterKeepsAll(x, IsUndefined, false);
    FilterKeepsAll(y, IsUndefined, false);
    ArrangeKeepsEntries(x);
    ArrangeKeepsEntries(y);
  }

  function Members(domain: Text, version: Text, b: Value): seq<Entry> {
    Three(DOMAIN, Str(domain), VERSION, Str(version), BODY, b)
  }

  /** Three distinct keys that folding leaves alone. */
  ghost predicate Tags(u: Unicode, k1: Text, k2: Text, k3: Text) {
    && FoldKey(u, k1) == k1 && FoldKey(u, k2) == k2 && FoldKey(u, k3) == k3
    && k1 != k2 && k1 != k3 && k2 != k3
  }

  lemma RecordNormalizes(u: Unicode, o: Options, k1: Text, s1: Text, k2: Text, s2: Text, k3: Text, body: Value)
    requires Tags(u, k1, k2, k3)
    ensures Normalize(u, o, Obj(Three(k1, Str(s1), k2, Str(s2), k3, body))) ==
            if Normalize(u, o, body).Ok?
            then Ok(FinishObject(Three(k1, Str(NormalizeString(u, s1)), k2, Str(NormalizeString(u, s2)),
                                       k3, Normalize(u, o, body).value)))
            else Rejected
  {
    var es := Three(k1, Str(s1), k2, Str(s2), k3, body);
    if Normalize(u, o, body).Ok? {
      ThreeNormalize(u, o, es, Three(k1, Str(NormalizeString(u, s1)), k2, Str(NormalizeString(u, s2)),
                                     k3, Normalize(u, o, body).value));
    } else {
      LastRejected(u, o, es);
    }
  }

  lemma RecordsAgree(u: Unicode, k1: Text, k2: Text, k3: Text,
                     s1: Text, s2: Text, n: Value, t1: Text, t2: Text, m: Value)
    requires Tags(u, k1, k2, k3) && !n.Undefined? && !m.Undefined?
    requires FinishObject(Three(k1, Str(s1), k2, Str(s2), k3, n)) == FinishObject(Three(k1, Str(t1), k2, Str(t2), k3, m))
    ensures s1 == t1 && s2 == t2 && n == m
  {
    ThreeAgree(Three(k1, Str(s1), k2, Str(s2), k3, n), Three(k1, Str(t1), k2, Str(t2), k3, m));
  }

  lemma EnvelopeNormalizes(u: Unicode, o: Options, domain: Text, version: Text, body: Value)
    ensures Normalize(u, o, Envelope(domain, version, body)) ==
            if Normalize(u, o, body).Ok?
            then Ok(FinishObject(Members(NormalizeString(u, domain), NormalizeString(u, version),
                                         Normalize(u, o, body).value)))
            else Rejected
  {
    TagsFold(u);
    RecordNormalizes(u, o, DOMAIN, domain, VERSION, version, BODY, body);
  }

  lemma DomainFolds(u: Unicode)
    ensures FoldKey(u, DOMAIN) == DOMAIN
  {
    PlainKeyFolds(u, DOMAIN);
  }

  lemma VersionFolds(u: Unicode)
    ensures FoldKey(u, VERSION) == VERSION
  {
    PlainKeyFolds(u, VERSION);
  }

  lemma BodyFolds(u: Unicode)
    ensures FoldKey(u, BODY) == BODY
  {
    PlainKeyFolds(u, BODY);
  }

  lemma TagsFold(u: Unicode)
    ensures Tags(u, DOMAIN, VERSION, BODY)
  {
    DomainFolds(u);
    VersionFolds(u);
    BodyFolds(u);
    assert |DOMAIN| == 6 && |VERSION| == 7 && |BODY| == 4;
  }

  /** The three normalizations of the signing path amount to one. */
  lemma SigningIsOneCanonicalization(u: Unicode, o: Options, domain: Text, version: Text, body: Value)
    ensures CanonicalizePayload(u, o, domain, version, body) ==
            if IsBody(body) then Canonicalize(u, o, Envelope(domain, version, body)) else Rejected
  {
    EnvelopeNormalizes(u, o, domain, version, body);
    if IsBody(body) && Normalize(u, o, body).Ok? {
      var b := Normalize(u, o, body).value;
      Idempotent(u, o, body);
      NormalizeStringIdempotent(u, domain);
      NormalizeStringIdempotent(u, version);
      EnvelopeNormalizes(u, o, NormalizeString(u, domain), NormalizeString(u, version), b);
      Idempotent(u, o, Envelope(domain, version, body));
    }
  }

  function NulledEntry(e: Entry): Entry {
    Entry(e.key, Nulled(e.value))
  }

  lemma NulledOwnOrder(es: seq<Entry>)
    ensures Map(OwnOrder(es), NulledEntry) == OwnOrder(Map(es, NulledEntry))
  {
    var indices, others := Filter(es, HasIndexKey, true), Filter(es, HasIndexKey, false);
    FilterOfMapped(es, NulledEntry, HasIndexKey, HasIndexKey, true);
    FilterOfMapped(es, NulledEntry, HasIndexKey, HasIndexKey, false);
    SortOfMapped(indices, NulledEntry, IndexRank, IndexRank);
    MapConcat(Sort(indices, IndexRank), others, NulledEntry);
  }

  /** Reading `undefined` items as null commutes with arranging the members. */
  lemma NulledArrange(es: seq<Entry>)
    ensures Map(Arrange(es), NulledEntry) == Arrange(Map(es, NulledEntry))
  {
    SortOfMapped(es, NulledEntry, EntryKey, EntryKey);
    NulledOwnOrder(Sort(es, EntryKey));
  }

  lemma NulledObjectIsMapped(es: seq<Entry>)
    ensures Nulled(Obj(es)) == Obj(Map(es, NulledEntry))
  {
    assert Nulled(Obj(es)) == Obj(NulledMembers(es));
    assert NulledMembers(es) == Map(es, NulledEntry);
  }

  lemma NulledObject(es: seq<Entry>)
    requires forall i :: 0 <= i < |es| ==> !IsUndefined(es[i]) && !IsUndefined(NulledEntry(es[i]))
    ensures Nulled(FinishObject(es)) == FinishObject(Map(es, NulledEntry))
  {
    FilterKeepsAll(es, IsUndefined, false);
    FilterKeepsAll(Map(es, NulledEntry), IsUndefined, false);
    NulledArrange(es);
    NulledObjectIsMapped(Arrange(es));
  }

  lemma NulledThree(k1: Text, s1: Text, k2: Text, s2: Text, k3: Text, n: Value)
    requires !n.Undefined? && !Nulled(n).Undefined?
    ensures Nulled(FinishObject(Three(k1, Str(s1), k2, Str(s2), k3, n))) ==
            FinishObject(Three(k1, Str(s1), k2, Str(s2), k3, Nulled(n)))
  {
    var es := Three(k1, Str(s1), k2, Str(s2), k3, n);
    var ns := Three(k1, Str(s1), k2, Str(s2), k3, Nulled(n));
    MapThree(es, ns);
    forall i | 0 <= i < 3 ensures !IsUndefined(es[i]) && !IsUndefined(NulledEntry(es[i])) {}
    NulledObject(es);
  }

  lemma MapThree(es: seq<Entry>, ns: seq<Entry>)
    requires |es| == |ns| == 3
    requires ns[0] == NulledEntry(es[0]) && ns[1] == NulledEntry(es[1]) && ns[2] == NulledEntry(es[2])
    ensures Map(es, NulledEntry) == ns
  {
  }

  lemma BodyIsKept(u: Unicode, o: Options, body: Value)
    requires IsBody(body) && Normalize(u, o, body).Ok?
    ensures !Normalize(u, o, body).value.Undefined? && !Nulled(Normalize(u, o, body).value).Undefined?
  {
  }

  lemma SigningMembersAgree(u: Unicode, d1: Text, v1: Text, n1: Value, d2: Text, v2: Text, n2: Value)
    requires !n1.Undefined? && !n2.Undefined? && !Nulled(n1).Undefined? && !Nulled(n2).Undefined?
    ensures Nulled(FinishObject(Members(d1, v1, n1))) == Nulled(FinishObject(Members(d2, v2, n2)))
            <==> d1 == d2 && v1 == v2 && Nulled(n1) == Nulled(n2)
  {
    NulledThree(DOMAIN, d1, VERSION, v1, BODY, n1);
    NulledThree(DOMAIN, d2, VERSION, v2, BODY, n2);
    TagsFold(u);
    if FinishObject(Members(d1, v1, Nulled(n1))) == FinishObject(Members(d2, v2, Nulled(n2))) {
      RecordsAgree(u, DOMAIN, VERSION, BODY, d1, v1, Nulled(n1), d2, v2, Nulled(n2));
    }
  }

  lemma TagNames()
    ensures DOMAIN == Ascii("domain") && VERSION == Ascii("version") && BODY == Ascii("body")
  {
  }

  lemma EnvelopeByName(domain: Text, version: Text, body: Value, es: seq<Entry>)
    requires |es| == 3 && es[0] == Entry(Ascii("domain"), Str(domain))
    requires es[1] == Entry(Ascii("version"), Str(version)) && es[2] == Entry(Ascii("body"), body)
    ensures Envelope(domain, version, body) == Obj(es)
  {
    TagNames();
    assert Members(domain, version, body) == es;
  }

  /** What is no object is refused, and so are an invalid Date and objects of other kinds. */
  lemma OtherBodiesAreRefused(u: Unicode, o: Options, domain: Text, version: Text, body: Value)
    requires !body.Obj? && !body.Instant?
    ensures CanonicalizePayload(u, o, domain, version, body) == Rejected
  {
    if IsBody(body) { assert Normalize(u, o, body) == Rejected; }
  }

  /** The text that is signed is the canonical text of an object with the members domain, version and body. */
  lemma SigningTextIs(u: Unicode, o: Options, domain: Text, version: Text, body: Value, es: seq<Entry>)
    requires |es| == 3 && es[0] == Entry(Ascii("domain"), Str(domain))
    requires es[1] == Entry(Ascii("version"), Str(version)) && es[2] == Entry(Ascii("body"), body)
    requires body.Obj? || body.Instant?
    ensures CanonicalizePayload(u, o, domain, version, body) == Canonicalize(u, o, Obj(es))
  {
    EnvelopeByName(domain, version, body, es);
    SigningIsOneCanonicalization(u, o, domain, version, body);
  }

  /**
   Signatures cannot move between contexts: two signing texts coincide exactly
   when the bodies have the same canonical text and domain and version hold the
   same words.
   */
  lemma DomainSeparation(u: Unicode, o: Options,
                         d1: Text, v1: Text, b1: Value, d2: Text, v2: Text, b2: Value)
    requires CanonicalizePayload(u, o, d1, v1, b1).Ok? && CanonicalizePayload(u, o, d2, v2, b2).Ok?
    ensures CanonicalizePayload(u, o, d1, v1, b1) == CanonicalizePayload(u, o, d2, v2, b2) <==>
            && IsCanonicallyEqual(u, o, b1, b2)
            && Words(u.nfc(d1)) == Words(u.nfc(d2))
            && Words(u.nfc(v1)) == Words(u.nfc(v2))
  {
    SigningIsOneCanonicalization(u, o, d1, v1, b1);
    SigningIsOneCanonicalization(u, o, d2, v2, b2);
    EqualTextIff(u, o, Envelope(d1, v1, b1), Envelope(d2, v2, b2));
    EqualTextIff(u, o, b1, b2);
    EnvelopeNormalizes(u, o, d1, v1, b1);
    EnvelopeNormalizes(u, o, d2, v2, b2);
    BodyIsKept(u, o, b1);
    BodyIsKept(u, o, b2);
    SameSpellingIff(u, d1, d2);
    SameSpellingIff(u, v1, v2);
    SigningMembersAgree(u, NormalizeString(u, d1), NormalizeString(u, v1), Normalize(u, o, b1).value,
                        NormalizeString(u, d2), NormalizeString(u, v2), Normalize(u, o, b2).value);
  }

  // ---------------------------------------------------------------------
  // Comparing signatures
  // ---------------------------------------------------------------------

  predicate Visible(u: Unit) {
    !White(u)
  }

  /** `trim`, drop every whitespace unit, lower-case. */
  function NormalizeSignature(u: Unicode, s: Text): Text {
    u.lower(Filter(Trim(s), Visible, true))
  }

  /** Bitwise exclusive or. */
  function Xor(a: nat, b: nat): nat {
    if a == 0 && b == 0 then 0 else 2 * Xor(a / 2, b / 2) + (if a % 2 == b % 2 then 0 else 1)
  }

  /** Bitwise or. */
  function Or(a: nat, b: nat): nat {
    if a == 0 && b == 0 then 0 else 2 * Or(a / 2, b / 2) + (if a % 2 == 0 && b % 2 == 0 then 0 else 1)
  }

  lemma {:induction false} XorIsZero(a: nat, b: nat)
    ensures Xor(a, b) == 0 <==> a == b
  {
    if a != 0 || b != 0 { XorIsZero(a / 2, b / 2); }
  }

  lemma {:induction false} OrIsZero(a: nat, b: nat)
    ensures Or(a, b) == 0 <==> a == 0 && b == 0
  {
    if a != 0 || b != 0 { OrIsZero(a / 2, b / 2); }
  }

  lemma {:induction false} BlanksFilterAway(w: Text)
    requires forall i :: 0 <= i < |w| ==> White(w[i])
    ensures Filter(w, Visible, true) == []
  {
    if w != [] { BlanksFilterAway(w[1..]); }
  }

  predicate NotBlank(c: Unit) {
    c !in BLANKS
  }

  lemma FilterMiddle(lead: Text, middle: Text, tail: Text)
    requires Filter(lead, Visible, true) == [] && Filter(tail, Visible, true) == []
    ensures Filter(lead + middle + tail, Visible, true) == Filter(middle, Visible, true)
  {
    FilterAppend(lead + middle, tail, Visible, true);
    FilterAppend(lead, middle, Visible, true);
    var m := Filter(middle, Visible, true);
    assert [] + m + [] == m;
  }

  /** A normalized signature is the units that are not blank, in lower case; trimming first makes no difference. */
  lemma SignatureUnits(u: Unicode, s: Text)
    ensures NormalizeSignature(u, s) == u.lower(Filter(s, NotBlank, true))
  {
    var lead, tail := TrimSplits(s);
    BlanksFilterAway(lead);
    BlanksFilterAway(tail);
    FilterMiddle(lead, Trim(s), tail);
    SameFilter(s);
  }

  lemma {:induction false} SameFilter(s: Text)
    ensures Filter(s, Visible, true) == Filter(s, NotBlank, true)
  {
    if s != [] {
      SameFilter(s[1..]);
      WhiteIff(s[0]);
    }
  }

  /** The accumulating comparison answers exactly equality of the normalized signatures. */
  method SignatureMatches(u: Unicode, a: Text, b: Text) returns (r: bool)
    ensures r <==> NormalizeSignature(u, a) == NormalizeSignature(u, b)
  {
    var left, right := NormalizeSignature(u, a), NormalizeSignature(u, b);
    if |left| != |right| { return false; }
    var diff: nat := 0;
    for i := 0 to |left|
      invariant diff == 0 <==> left[..i] == right[..i]
    {
      var x: nat, y: nat := left[i] as int, right[i] as int;
      XorIsZero(x, y);
      OrIsZero(diff, Xor(x, y));
      diff := Or(diff, Xor(x, y));
      assert left[..i + 1] == left[..i] + [left[i]] && right[..i + 1] == right[..i] + [right[i]];
    }
    assert left[..|left|] == left && right[..|right|] == right;
    return diff == 0;
  }
}
