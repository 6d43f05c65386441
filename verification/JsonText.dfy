/**
 The shape of the printed text, beyond what a parser can tell: which units are
 escaped and how, no leading zeros, the literal names, and array-index keys as
 the decimal forms of the numbers below 2^32 - 1.
 */
module JsonText {
  import opened Text
  import opened Values
  import opened Canonical

  // ---------------------------------------------------------------------
  // Strings
  // ---------------------------------------------------------------------

  const QUOTATION_MARK: Unit := 0x22
  const BACKSLASH: Unit := 0x5C

  /** Units with a two-character escape, and the character that follows the backslash. */
  const SHORT_ESCAPES: map<Unit, Unit> :=
    map[0x08 := 0x62, 0x09 := 0x74, 0x0A := 0x6E, 0x0C := 0x66, 0x0D := 0x72, 0x22 := 0x22, 0x5C := 0x5C]

  /**
   A unit on its own: a short escape where there is one, \\u and four digits for
   any other control character and for a lone surrogate, otherwise itself.
   */
  lemma EscapedUnit(c: Unit)
    ensures c in SHORT_ESCAPES ==> Escape([c]) == [BACKSLASH, SHORT_ESCAPES[c]]
    ensures c !in SHORT_ESCAPES && (c < 0x20 || 0xD800 <= c <= 0xDFFF) ==>
              |Escape([c])| == 6 && Escape([c])[0] == BACKSLASH && Escape([c])[1] == 0x75
    ensures c !in SHORT_ESCAPES && !(c < 0x20 || 0xD800 <= c <= 0xDFFF) ==> Escape([c]) == [c]
  {
    assert [c][1..] == [];
    assert Escape([c]) == EscapeUnit(c) + [] == EscapeUnit(c);
  }

  /** Hexadecimal digits are lower case. */
  lemma HexDigitIs(d: nat)
    requires d < 16
    ensures d < 10 ==> HexDigit(d) as int == 0x30 + d
    ensures d >= 10 ==> HexDigit(d) == [0x61, 0x62, 0x63, 0x64, 0x65, 0x66][d - 10]
  {
  }

  /** A surrogate pair is left as it is. */
  lemma PairIsKept(h: Unit, l: Unit)
    requires 0xD800 <= h <= 0xDBFF && 0xDC00 <= l <= 0xDFFF
    ensures Escape([h, l]) == [h, l]
  {
    assert [h, l][2..] == [];
  }

  /** No surrogate pair is cut at the seam. */
  predicate CutsNoPair(a: Text, b: Text) {
    !(a != [] && b != [] && 0xD800 <= a[|a| - 1] <= 0xDBFF && 0xDC00 <= b[0] <= 0xDFFF)
  }

  lemma HeadPair(s: Text)
    requires |s| >= 2 && High(s[0]) && Low(s[1])
    ensures Escape(s) == s[..2] + Escape(s[2..])
  {
    assert s[..2] == [s[0], s[1]];
  }

  lemma HeadUnit(s: Text)
    requires s != [] && !(|s| >= 2 && High(s[0]) && Low(s[1]))
    ensures Escape(s) == EscapeUnit(s[0]) + Escape(s[1..])
  {
  }

  lemma TailOfConcat(a: Text, b: Text, n: nat)
    requires n <= |a|
    ensures (a + b)[n..] == a[n..] + b && (a + b)[..n] == a[..n]
  {
  }

  lemma Associative(a: Text, b: Text, c: Text)
    ensures a + (b + c) == (a + b) + c
  {
  }

  /** Everything but a pair is escaped piece by piece. */
  lemma {:induction false} EscapeConcat(a: Text, b: Text)
    requires CutsNoPair(a, b)
    ensures Escape(a + b) == Escape(a) + Escape(b)
  {
    if a == [] {
      assert a + b == b;
    } else if |a| >= 2 && High(a[0]) && Low(a[1]) {
      EscapeConcat(a[2..], b);
      TailOfConcat(a, b, 2);
      HeadPair(a);
      HeadPair(a + b);
      Associative(a[..2], Escape(a[2..]), Escape(b));
    } else {
      EscapeConcat(a[1..], b);
      TailOfConcat(a, b, 1);
      HeadUnit(a);
      HeadUnit(a + b);
      Associative(EscapeUnit(a[0]), Escape(a[1..]), Escape(b));
    }
  }

  predicate Ordinary(c: Unit) {
    0x20 <= c < 0x7F && c != 0x22 && c != 0x5C
  }

  lemma {:induction false} OrdinaryTextIsKept(s: Text)
    requires forall i :: 0 <= i < |s| ==> Ordinary(s[i])
    ensures Escape(s) == s
  {
    if s != [] {
      OrdinaryTextIsKept(s[1..]);
      assert s == [s[0]] + s[1..];
    }
  }

  // ---------------------------------------------------------------------
  // Numbers, names, brackets
  // ---------------------------------------------------------------------

  /** No leading zeros. */
  lemma {:induction false} NoLeadingZero(n: nat)
    ensures Decimal(n)[0] == 0x30 <==> n == 0
    ensures n == 0 ==> Decimal(n) == [0x30]
  {
    if n >= 10 { NoLeadingZero(n / 10); }
  }

  lemma LiteralTexts(n: int)
    ensures Print(Null) == Ascii("null") && Print(Bool(true)) == Ascii("true") && Print(Bool(false)) == Ascii("false")
    ensures Print(Num(n)) == if n < 0 then Ascii("-") + Decimal(-n) else Decimal(n)
    ensures Print(NegZero) == [0x30] && Print(Arr([])) == Ascii("[]") && Print(Obj([])) == Ascii("{}")
  {
  }

  /** Undefined, functions and symbols leave no member; as items they are null, like what is no number or date. */
  lemma NothingToPrint(v: Value, k: Text, es: seq<Entry>, comma: bool)
    requires v in {Undefined, Opaque}
    ensures es != [] && es[0] == Entry(k, v) ==> PrintMembers(es, comma) == PrintMembers(es[1..], comma)
    ensures Print(v) == Ascii("null") && Print(NonFinite) == Ascii("null") && Print(BadDate) == Ascii("null")
  {
  }

  // ---------------------------------------------------------------------
  // Array indices
  // ---------------------------------------------------------------------

  /** Digits without a leading zero are the decimal form of their value. */
  lemma {:induction false} DigitsAreDecimal(k: Text)
    requires k != [] && forall i :: 0 <= i < |k| ==> IsDigit(k[i])
    requires |k| > 1 ==> k[0] != 0x30
    ensures k == Decimal(DigitsValue(k))
    ensures |k| > 1 ==> DigitsValue(k) >= 10
  {
    var n := |k| - 1;
    assert k == k[..n] + [k[n]];
    if n > 0 {
      DigitsAreDecimal(k[..n]);
      PositiveValue(k[..n]);
      LastDigit(DigitsValue(k[..n]), DigitValue(k[n]));
    } else {
      assert k[..0] == [];
      assert DigitsValue(k) == DigitValue(k[0]);
    }
  }

  lemma PositiveValue(k: Text)
    requires k != [] && (forall i :: 0 <= i < |k| ==> IsDigit(k[i])) && k[0] != 0x30
    requires k == Decimal(DigitsValue(k))
    ensures DigitsValue(k) >= 1
  {
    NoLeadingZero(DigitsValue(k));
  }

  lemma LastDigit(q: nat, d: nat)
    requires q >= 1 && d < 10
    ensures Decimal(q * 10 + d) == Decimal(q) + [(0x30 + d) as Unit]
  {
    assert (q * 10 + d) / 10 == q && (q * 10 + d) % 10 == d;
  }

  lemma {:induction false} DecimalLength(n: nat, k: nat)
    requires k >= 1 && n < Pow10(k)
    ensures |Decimal(n)| <= k
    decreases k
  {
    if n >= 10 {
      assert k > 1 by { assert Pow10(1) == 10 * Pow10(0); }
      DecimalLength(n / 10, k - 1);
    }
  }

  lemma TenDigits()
    ensures Pow10(10) == 10_000_000_000
  {
    assert Pow10(2) == 100;
    assert Pow10(4) == 10_000;
    assert Pow10(6) == 1_000_000;
    assert Pow10(8) == 100_000_000;
  }

  /** The array indices are the decimal forms of 0 to 2^32 - 2. */
  lemma IndexIff(k: Text)
    ensures IsIndex(k) <==> exists n: nat :: n < 4_294_967_295 && k == Decimal(n)
  {
    if IsIndex(k) {
      DigitsAreDecimal(k);
      assert DigitsValue(k) < 4_294_967_295;
    }
    if n: nat :| n < 4_294_967_295 && k == Decimal(n) {
      TenDigits();
      DecimalLength(n, 10);
      DecimalRoundTrip(n);
      NoLeadingZero(n);
    }
  }
}
