/**
 Spelling of string values and object keys (`normalizeString` and the key
 folding of `normalizeValue`), with an independent description of the result:
 the words of the text joined by single spaces.
 */
module Spelling {
  import opened Text

  const CR: Unit := 0x0D
  const LF: Unit := 0x0A

  /** The Unicode tables behind `normalize("NFC")` and `toLowerCase`. */
  datatype Tables = Tables(nfc: Text -> Text, lower: Text -> Text)

  /** The facts about those tables that canonicalization rests on. */
  ghost predicate Lawful(u: Tables) {
    forall s: Text :: TableLaws(u, s)
  }

  ghost predicate TableLaws(u: Tables, s: Text) {
    && (Plain(s) ==> u.nfc(s) == s)
    && u.nfc(JoinWords(Words(u.nfc(s)))) == JoinWords(Words(u.nfc(s)))
    && (Trimmed(s) ==> Trimmed(u.lower(s)) && u.lower(u.lower(s)) == u.lower(s))
    && (Plain(s) ==> u.lower(s) == AsciiLower(s))
  }

  type Unicode = u: Tables | Lawful(u) ghost witness Tables((s: Text) => s, (s: Text) => AsciiLower(s))

  /** ASCII only. */
  predicate Plain(s: Text) {
    forall i :: 0 <= i < |s| ==> s[i] < 128
  }

  predicate NoCapital(s: Text) {
    forall i :: 0 <= i < |s| ==> !(0x41 <= s[i] <= 0x5A)
  }

  /** A to Z become a to z; nothing else changes. */
  function AsciiLower(s: Text): (r: Text)
    ensures |r| == |s|
    ensures forall i :: 0 <= i < |s| ==> r[i] == if 0x41 <= s[i] <= 0x5A then s[i] + 0x20 else s[i]
  {
    seq(|s|, i requires 0 <= i < |s| => if 0x41 <= s[i] <= 0x5A then s[i] + 0x20 else s[i])
  }

  // ---------------------------------------------------------------------
  // The pipeline of `normalizeString`, replacement by replacement
  // ---------------------------------------------------------------------

  function ReplaceCrLf(s: Text): Text {
    if |s| >= 2 && s[0] == CR && s[1] == LF then [LF] + ReplaceCrLf(s[2..])
    else if s == [] then []
    else [s[0]] + ReplaceCrLf(s[1..])
  }

  function ReplaceCr(s: Text): Text {
    if s == [] then [] else [if s[0] == CR then LF else s[0]] + ReplaceCr(s[1..])
  }

  function CollapseRuns(s: Text): Text
    decreases |s|
  {
    if s == [] then []
    else if White(s[0]) then [SPACE] + CollapseRuns(s[Blank(s)..])
    else [s[0]] + CollapseRuns(s[1..])
  }

  function NormalizeString(u: Unicode, s: Text): Text {
    Trim(CollapseRuns(ReplaceCr(ReplaceCrLf(u.nfc(s)))))
  }

  function FoldKey(u: Unicode, k: Text): Text {
    u.lower(Trim(k))
  }

  // ---------------------------------------------------------------------
  // Words: the independent description
  // ---------------------------------------------------------------------

  /** The maximal runs without whitespace, in order. */
  function Words(s: Text): seq<Text>
    decreases |s|
  {
    if s == [] then []
    else if White(s[0]) then Words(s[1..])
    else [s[..Solid(s)]] + Words(s[Solid(s)..])
  }

  function JoinWords(ws: seq<Text>): Text {
    if ws == [] then [] else if |ws| == 1 then ws[0] else ws[0] + [SPACE] + JoinWords(ws[1..])
  }

  predicate IsWord(w: Text) {
    w != [] && forall i :: 0 <= i < |w| ==> !White(w[i])
  }

  predicate AllWords(ws: seq<Text>) {
    forall i :: 0 <= i < |ws| ==> IsWord(ws[i])
  }

  lemma {:induction false} WordsAreWords(s: Text)
    ensures AllWords(Words(s))
    decreases |s|
  {
    if s != [] {
      if White(s[0]) { WordsAreWords(s[1..]); } else { WordsAreWords(s[Solid(s)..]); }
    }
  }

  /** A word followed by nothing or by whitespace is the first word. */
  lemma WordsOfWord(w: Text, rest: Text)
    requires IsWord(w) && (rest == [] || White(rest[0]))
    ensures Words(w + rest) == [w] + Words(rest)
  {
    var s := w + rest;
    var n := Solid(s);
    assert forall i :: 0 <= i < |w| ==> s[i] == w[i];
    assert rest != [] ==> s[|w|] == rest[0];
    assert s[..n] == w && s[n..] == rest;
  }

  lemma {:induction false} WordsOfJoin(ws: seq<Text>)
    requires AllWords(ws)
    ensures Words(JoinWords(ws)) == ws
  {
    if |ws| == 1 {
      WordsOfWord(ws[0], []);
      assert ws[0] + [] == ws[0];
    } else if |ws| > 1 {
      var rest := [SPACE] + JoinWords(ws[1..]);
      WordsOfJoin(ws[1..]);
      WordsOfWord(ws[0], rest);
      assert rest[1..] == JoinWords(ws[1..]);
      assert JoinWords(ws) == ws[0] + rest;
    }
  }

  lemma {:induction false} SkipBlanks(s: Text, n: nat)
    requires n <= |s| && forall i :: 0 <= i < n ==> White(s[i])
    ensures Words(s) == Words(s[n..])
  {
    if n > 0 {
      SkipBlanks(s[1..], n - 1);
      assert s[1..][n - 1..] == s[n..];
    } else {
      assert s[0..] == s;
    }
  }

  // ---------------------------------------------------------------------
  // The pipeline computes the words
  // ---------------------------------------------------------------------

  /** Words only depend on where whitespace is, so line endings may be unified first. */
  lemma {:induction false} CrKeepsWords(s: Text)
    ensures |ReplaceCr(s)| == |s|
    ensures forall i :: 0 <= i < |s| ==> ReplaceCr(s)[i] == if s[i] == CR then LF else s[i]
  {
    if s != [] { CrKeepsWords(s[1..]); }
  }

  lemma {:induction false} SameWords(s: Text, t: Text)
    requires |s| == |t|
    requires forall i :: 0 <= i < |s| ==> if White(s[i]) then White(t[i]) else t[i] == s[i]
    ensures Words(s) == Words(t)
    decreases |s|
  {
    if s != [] {
      if White(s[0]) {
        SameWords(s[1..], t[1..]);
      } else {
        var n := Solid(s);
        assert Solid(t) == n;
        SameWords(s[n..], t[n..]);
        assert s[..n] == t[..n];
      }
    }
  }

  lemma {:induction false} CrLfKeepsWords(s: Text)
    ensures Words(ReplaceCrLf(s)) == Words(s)
    ensures s != [] ==> ReplaceCrLf(s) != [] && White(ReplaceCrLf(s)[0]) == White(s[0])
    decreases |s|
  {
    if |s| >= 2 && s[0] == CR && s[1] == LF {
      CrLfKeepsWords(s[2..]);
      SkipBlanks(s, 2);
      assert ReplaceCrLf(s)[1..] == ReplaceCrLf(s[2..]);
    } else if s != [] {
      if White(s[0]) {
        CrLfKeepsWords(s[1..]);
        assert ReplaceCrLf(s)[1..] == ReplaceCrLf(s[1..]);
      } else {
        var n := Solid(s);
        CrLfPassesSolid(s, n);
        CrLfKeepsWords(s[n..]);
        assert ReplaceCrLf(s)[0] == s[0];
        WordsOfWord(s[..n], ReplaceCrLf(s[n..]));
      }
    }
  }

  lemma {:induction false} CrLfPassesSolid(s: Text, n: nat)
    requires n <= |s| && forall i :: 0 <= i < n ==> !White(s[i])
    ensures ReplaceCrLf(s) == s[..n] + ReplaceCrLf(s[n..])
  {
    if n > 0 {
      CrLfPassesSolid(s[1..], n - 1);
      assert s[1..][n - 1..] == s[n..] && [s[0]] + s[1..][..n - 1] == s[..n];
    } else {
      assert s[0..] == s;
    }
  }

  lemma {:induction false} CollapsePassesSolid(s: Text, n: nat)
    requires n <= |s| && forall i :: 0 <= i < n ==> !White(s[i])
    ensures CollapseRuns(s) == s[..n] + CollapseRuns(s[n..])
  {
    if n > 0 {
      CollapsePassesSolid(s[1..], n - 1);
      assert s[1..][n - 1..] == s[n..] && [s[0]] + s[1..][..n - 1] == s[..n];
    } else {
      assert s[0..] == s;
    }
  }

  function TrailingSpace(s: Text): Text {
    if s != [] && White(s[|s| - 1]) then [SPACE] else []
  }

  lemma JoinCons(w: Text, ws: seq<Text>)
    ensures JoinWords([w] + ws) == if ws == [] then w else w + [SPACE] + JoinWords(ws)
  {
    assert ([w] + ws)[1..] == ws;
  }

  lemma {:induction false} CollapseJoins(s: Text)
    requires s == [] || !White(s[0])
    ensures CollapseRuns(s) == JoinWords(Words(s)) + TrailingSpace(s)
    decreases |s|
  {
    if s == [] { return; }
    var n := Solid(s);
    var w, rest := s[..n], s[n..];
    CollapsePassesSolid(s, n);
    assert Words(s) == [w] + Words(rest);
    if rest == [] {
      JoinCons(w, []);
    } else {
      var r := rest[Blank(rest)..];
      SkipBlanks(rest, Blank(rest));
      CollapseJoins(r);
      JoinCons(w, Words(r));
      TrailingSpaceOfRest(s, rest, r);
      CollapseConcat(w, JoinWords(Words(r)), TrailingSpace(r), r == []);
    }
  }

  lemma TrailingSpaceOfRest(s: Text, rest: Text, r: Text)
    requires |rest| <= |s| && rest == s[|s| - |rest|..] && rest != [] && r == rest[Blank(rest)..]
    ensures TrailingSpace(s) == if r == [] then [SPACE] else TrailingSpace(r)
  {
    assert s[|s| - 1] == rest[|rest| - 1];
    if r != [] { assert r[|r| - 1] == rest[|rest| - 1]; }
  }

  lemma CollapseConcat(w: Text, j: Text, t: Text, last: bool)
    requires last ==> j == [] && t == []
    ensures w + ([SPACE] + (j + t)) == if last then w + [SPACE] else (w + [SPACE] + j) + t
  {
  }

  lemma {:induction false} JoinIsTrimmed(ws: seq<Text>)
    requires AllWords(ws)
    ensures Trimmed(JoinWords(ws))
    ensures ws != [] ==> JoinWords(ws) != []
  {
    if |ws| > 1 {
      JoinIsTrimmed(ws[1..]);
      var t, rest := JoinWords(ws), JoinWords(ws[1..]);
      assert t[0] == ws[0][0] && t[|t| - 1] == rest[|rest| - 1];
    }
  }

  /** Trimming removes the spaces that collapsing left around the joined words. */
  lemma TrimAround(j: Text, lead: Text, tail: Text)
    requires j != [] && Trimmed(j) && (lead == [] || lead == [SPACE]) && (tail == [] || tail == [SPACE])
    ensures Trim(lead + (j + tail)) == j
  {
    var c := lead + (j + tail);
    assert c[|lead|] == j[0];
    assert Blank(c) == |lead|;
    assert TrimStart(c) == j + tail;
    TrimTail(j, tail);
  }

  lemma TrimTail(j: Text, tail: Text)
    requires j != [] && Trimmed(j) && (tail == [] || tail == [SPACE])
    ensures TrimEnd(j + tail) == j
  {
    if tail == [] {
      assert j + tail == j;
    } else {
      assert (j + tail)[..|j + tail| - 1] == j;
    }
  }

  /** Leading whitespace collapses to one space. */
  lemma CollapseLead(s: Text)
    ensures CollapseRuns(s) == (if Blank(s) > 0 then [SPACE] else []) + CollapseRuns(s[Blank(s)..])
  {
    if Blank(s) == 0 { assert s[0..] == s; }
  }

  lemma TrimOfCollapse(s: Text)
    ensures Trim(CollapseRuns(s)) == JoinWords(Words(s))
  {
    var r := s[Blank(s)..];
    SkipBlanks(s, Blank(s));
    CollapseLead(s);
    CollapseJoins(r);
    WordsAreWords(r);
    JoinIsTrimmed(Words(r));
    if r == [] {
      var c := CollapseRuns(s);
      assert c == if Blank(s) > 0 then [SPACE] else [];
      assert c != [] ==> c[1..] == [];
    } else {
      TrimAround(JoinWords(Words(r)), if Blank(s) > 0 then [SPACE] else [], TrailingSpace(r));
    }
  }

  /** `normalizeString` is: the words of the NFC text, joined by single spaces. */
  lemma NormalizeStringJoinsWords(u: Unicode, s: Text)
    ensures NormalizeString(u, s) == JoinWords(Words(u.nfc(s)))
  {
    var a := u.nfc(s);
    var b := ReplaceCrLf(a);
    var c := ReplaceCr(b);
    CrLfKeepsWords(a);
    CrKeepsWords(b);
    SameWords(b, c);
    TrimOfCollapse(c);
  }

  /** Two strings are spelled alike exactly when they hold the same words. */
  lemma SameSpellingIff(u: Unicode, s: Text, t: Text)
    ensures NormalizeString(u, s) == NormalizeString(u, t) <==> Words(u.nfc(s)) == Words(u.nfc(t))
  {
    NormalizeStringJoinsWords(u, s);
    NormalizeStringJoinsWords(u, t);
    WordsAreWords(u.nfc(s));
    WordsAreWords(u.nfc(t));
    WordsOfJoin(Words(u.nfc(s)));
    WordsOfJoin(Words(u.nfc(t)));
  }

  lemma NormalizeStringIdempotent(u: Unicode, s: Text)
    ensures NormalizeString(u, NormalizeString(u, s)) == NormalizeString(u, s)
  {
    assert TableLaws(u, s);
    NormalizeStringJoinsWords(u, s);
    var t := NormalizeString(u, s);
    NormalizeStringJoinsWords(u, t);
    WordsAreWords(u.nfc(s));
    WordsOfJoin(Words(u.nfc(s)));
  }

  /** An ASCII text that is one word is left alone; ISO timestamps are such texts. */
  lemma PlainWordIsNormal(u: Unicode, s: Text)
    requires Plain(s) && IsWord(s)
    ensures NormalizeString(u, s) == s
  {
    assert TableLaws(u, s);
    NormalizeStringJoinsWords(u, s);
    WordsOfWord(s, []);
    assert s + [] == s;
  }

  lemma FoldKeyIdempotent(u: Unicode, k: Text)
    ensures FoldKey(u, FoldKey(u, k)) == FoldKey(u, k)
  {
    assert TableLaws(u, Trim(k));
    TrimTrims(k);
    TrimTrims(FoldKey(u, k));
  }

  /** An ASCII key without outer blanks is folded letter by letter. */
  lemma PlainKeyIsLowered(u: Unicode, k: Text)
    requires Plain(k) && Trimmed(k)
    ensures FoldKey(u, k) == AsciiLower(k)
  {
    assert TableLaws(u, k);
    TrimTrims(k);
  }

  /** A lower-case ASCII word is left alone as a key. */
  lemma PlainKeyFolds(u: Unicode, k: Text)
    requires Plain(k) && NoCapital(k) && IsWord(k)
    ensures FoldKey(u, k) == k
  {
    PlainKeyIsLowered(u, k);
    assert AsciiLower(k) == k;
  }
}
