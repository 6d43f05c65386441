/**
 Strings as the source sees them: sequences of 16-bit code units, with the
 code-unit order used by `<` and by `Array.prototype.sort`, and the whitespace
 class shared by `\s` and `String.prototype.trim`.
 */
module Text {

  newtype Unit = x: int | 0 <= x < 0x1_0000

  type Text = seq<Unit>

  const SPACE: Unit := 0x20
  const DOT: Unit := 0x2E

  /** The code units of an ASCII literal. */
  function Ascii(s: string): (t: Text)
    requires forall i :: 0 <= i < |s| ==> s[i] as int < 128
    ensures |t| == |s|
    ensures forall i :: 0 <= i < |s| ==> t[i] as int == s[i] as int
  {
    seq(|s|, i requires 0 <= i < |s| => s[i] as int as Unit)
  }

  // ---------------------------------------------------------------------
  // Code-unit order
  // ---------------------------------------------------------------------

  predicate LexLeq(a: Text, b: Text) {
    a == [] || (b != [] && (a[0] < b[0] || (a[0] == b[0] && LexLeq(a[1..], b[1..]))))
  }

  lemma {:induction false} LexReflexive(a: Text)
    ensures LexLeq(a, a)
  {
    if a != [] { LexReflexive(a[1..]); }
  }

  lemma {:induction false} LexTotal(a: Text, b: Text)
    ensures LexLeq(a, b) || LexLeq(b, a)
  {
    if a != [] && b != [] { LexTotal(a[1..], b[1..]); }
  }

  lemma {:induction false} LexAntisymmetric(a: Text, b: Text)
    requires LexLeq(a, b) && LexLeq(b, a)
    ensures a == b
  {
    if a != [] {
      LexAntisymmetric(a[1..], b[1..]);
      assert a == [a[0]] + a[1..] && b == [b[0]] + b[1..];
    }
  }

  lemma {:induction false} LexTransitive(a: Text, b: Text, c: Text)
    requires LexLeq(a, b) && LexLeq(b, c)
    ensures LexLeq(a, c)
  {
    if a != [] && a[0] == b[0] == c[0] { LexTransitive(a[1..], b[1..], c[1..]); }
  }

  // ---------------------------------------------------------------------
  // Whitespace
  // ---------------------------------------------------------------------

  /** WhiteSpace and LineTerminator of ECMAScript: what `\s` matches and `trim` strips. */
  predicate White(u: Unit) {
    0x09 <= u <= 0x0D || u == 0x20 || u == 0xA0 || u == 0x1680 || 0x2000 <= u <= 0x200A
    || u == 0x2028 || u == 0x2029 || u == 0x202F || u == 0x205F || u == 0x3000 || u == 0xFEFF
  }

  /** Number of leading whitespace units. */
  function Blank(s: Text): (n: nat)
    ensures n <= |s|
    ensures forall i :: 0 <= i < n ==> White(s[i])
    ensures n < |s| ==> !White(s[n])
  {
    if s != [] && White(s[0]) then 1 + Blank(s[1..]) else 0
  }

  /** Number of leading units that are not whitespace. */
  function Solid(s: Text): (n: nat)
    ensures n <= |s|
    ensures forall i :: 0 <= i < n ==> !White(s[i])
    ensures n < |s| ==> White(s[n])
  {
    if s != [] && !White(s[0]) then 1 + Solid(s[1..]) else 0
  }

  function TrimStart(s: Text): Text {
    s[Blank(s)..]
  }

  function TrimEnd(s: Text): Text {
    if s != [] && White(s[|s| - 1]) then TrimEnd(s[..|s| - 1]) else s
  }

  function Trim(s: Text): Text {
    TrimEnd(TrimStart(s))
  }

  /** No whitespace at either end. */
  predicate Trimmed(s: Text) {
    s == [] || (!White(s[0]) && !White(s[|s| - 1]))
  }

  lemma {:induction false} TrimEndKeepsHead(s: Text)
    ensures TrimEnd(s) <= s
    ensures TrimEnd(s) == [] || !White(TrimEnd(s)[|TrimEnd(s)| - 1])
    ensures s != [] && !White(s[0]) ==> TrimEnd(s) != []
  {
    if s != [] && White(s[|s| - 1]) { TrimEndKeepsHead(s[..|s| - 1]); }
  }

  lemma TrimTrims(s: Text)
    ensures Trimmed(Trim(s))
    ensures Trimmed(s) ==> Trim(s) == s
  {
    TrimEndKeepsHead(TrimStart(s));
  }

  lemma {:induction false} TrimEndSplits(s: Text) returns (tail: Text)
    ensures s == TrimEnd(s) + tail && forall i :: 0 <= i < |tail| ==> White(tail[i])
  {
    if s != [] && White(s[|s| - 1]) {
      var rest := TrimEndSplits(s[..|s| - 1]);
      tail := rest + [s[|s| - 1]];
      assert s == s[..|s| - 1] + [s[|s| - 1]];
    } else {
      tail := [];
    }
  }

  /** Trimming takes away blanks at the two ends, all of them and nothing else. */
  lemma TrimSplits(s: Text) returns (lead: Text, tail: Text)
    ensures s == lead + Trim(s) + tail && Trimmed(Trim(s))
    ensures (forall i :: 0 <= i < |lead| ==> White(lead[i])) && forall i :: 0 <= i < |tail| ==> White(tail[i])
  {
    lead := s[..Blank(s)];
    tail := TrimEndSplits(TrimStart(s));
    TrimTrims(s);
    Joined(s, Blank(s), Trim(s), tail);
  }

  lemma Joined(s: Text, n: nat, middle: Text, tail: Text)
    requires n <= |s| && s[n..] == middle + tail
    ensures s == s[..n] + middle + tail
  {
    assert s == s[..n] + s[n..];
    assert s[..n] + (middle + tail) == s[..n] + middle + tail;
  }

  /** WhiteSpace and LineTerminator of ECMAScript, code point by code point. */
  const BLANKS: seq<Unit> := [
    0x0009, 0x000A, 0x000B, 0x000C, 0x000D, 0x0020, 0x00A0, 0x1680,
    0x2000, 0x2001, 0x2002, 0x2003, 0x2004, 0x2005, 0x2006, 0x2007, 0x2008, 0x2009, 0x200A,
    0x2028, 0x2029, 0x202F, 0x205F, 0x3000, 0xFEFF]

  lemma WhiteIff(u: Unit)
    ensures White(u) <==> u in BLANKS
  {
    if White(u) {
      var i := if u <= 0x0D then u as int - 0x09
               else if u == 0x20 then 5 else if u == 0xA0 then 6 else if u == 0x1680 then 7
               else if u <= 0x200A then u as int - 0x2000 + 8
               else if u == 0x2028 then 19 else if u == 0x2029 then 20 else if u == 0x202F then 21
               else if u == 0x205F then 22 else if u == 0x3000 then 23 else 24;
      assert BLANKS[i] == u;
    }
  }
}
