/**
 JavaScript values as the canonicalizer meets them, the text `JSON.stringify`
 gives them, and a parser for that text. The grammar is that of sections 4
 (objects), 5 (arrays), 6 (numbers) and 7 (strings) of RFC 8259, without
 insignificant whitespace.
 */
module Values {
  import opened Text
  import opened Spelling

  const MAX_MAGNITUDE := 9_007_199_254_740_991

  /** What `Date.prototype.toISOString` can return: one ASCII word. */
  type Iso = s: Text | Plain(s) && IsWord(s) witness [0x30]

  datatype Entry = Entry(key: Text, value: Value)

  datatype Value =
    | Null
    | Undefined
    | Opaque                      // a function, a symbol or an object that is not plain
    | Bool(b: bool)
    | Num(n: int)                 // an integral double
    | NegZero
    | NonFinite                   // NaN or an infinity
    | Big(n: int)                 // a bigint
    | Str(s: Text)
    | Instant(iso: Iso)           // a valid Date
    | BadDate
    | Arr(items: seq<Value>)
    | Obj(entries: seq<Entry>)    // own properties in enumeration order

  /** JSON data with exactly representable integers. */
  predicate IsJson(v: Value) {
    match v
    case Null => true
    case Bool(_) => true
    case Num(n) => -MAX_MAGNITUDE <= n <= MAX_MAGNITUDE
    case Str(_) => true
    case Arr(items) => forall i :: 0 <= i < |items| ==> IsJson(items[i])
    case Obj(es) => forall i :: 0 <= i < |es| ==> IsJson(es[i].value)
    case _ => false
  }

  // ---------------------------------------------------------------------
  // Numbers
  // ---------------------------------------------------------------------

  function Decimal(n: nat): (t: Text)
    ensures t != []
    ensures forall i :: 0 <= i < |t| ==> IsDigit(t[i])
  {
    if n < 10 then [(0x30 + n) as Unit] else Decimal(n / 10) + [(0x30 + n % 10) as Unit]
  }

  predicate IsDigit(u: Unit) {
    0x30 <= u <= 0x39
  }

  function DigitValue(u: Unit): nat
    requires IsDigit(u)
  {
    (u - 0x30) as int
  }

  function DigitsValue(t: Text): nat
    requires forall i :: 0 <= i < |t| ==> IsDigit(t[i])
  {
    if t == [] then 0
    else
      DigitsValue(t[..|t| - 1]) * 10 + DigitValue(t[|t| - 1])
  }

  lemma {:induction false} DecimalRoundTrip(n: nat)
    ensures DigitsValue(Decimal(n)) == n
  {
    if n >= 10 {
      DecimalRoundTrip(n / 10);
      assert Decimal(n)[..|Decimal(n)| - 1] == Decimal(n / 10);
    } else {
      assert Decimal(n)[..0] == [];
    }
  }

  function DigitSpan(t: Text): (n: nat)
    ensures n <= |t|
    ensures forall i :: 0 <= i < n ==> IsDigit(t[i])
    ensures n < |t| ==> !IsDigit(t[n])
  {
    if t != [] && IsDigit(t[0]) then 1 + DigitSpan(t[1..]) else 0
  }

  function PrintInt(n: int): Text {
    if n < 0 then [0x2D] + Decimal(-n) else Decimal(n)
  }

  // ---------------------------------------------------------------------
  // Strings
  // ---------------------------------------------------------------------

  predicate High(u: Unit) { 0xD800 <= u <= 0xDBFF }

  predicate Low(u: Unit) { 0xDC00 <= u <= 0xDFFF }

  function HexDigit(d: int): Unit
    requires 0 <= d < 16
  {
    if d < 10 then (0x30 + d) as Unit else (0x57 + d) as Unit
  }

  function Hex4(u: Unit): Text {
    var n := u as int;
    [HexDigit(n / 4096), HexDigit(n / 256 % 16), HexDigit(n / 16 % 16), HexDigit(n % 16)]
  }

  function EscapeUnit(u: Unit): Text {
    if u == 0x22 || u == 0x5C then [0x5C, u]
    else if u == 0x08 then [0x5C, 0x62]
    else if u == 0x09 then [0x5C, 0x74]
    else if u == 0x0A then [0x5C, 0x6E]
    else if u == 0x0C then [0x5C, 0x66]
    else if u == 0x0D then [0x5C, 0x72]
    else if u < 0x20 || High(u) || Low(u) then [0x5C, 0x75] + Hex4(u)
    else [u]
  }

  /** Well-formed `JSON.stringify`: a surrogate pair is kept, a lone surrogate is escaped. */
  function Escape(s: Text): Text {
    if s == [] then []
    else if |s| >= 2 && High(s[0]) && Low(s[1]) then [s[0], s[1]] + Escape(s[2..])
    else EscapeUnit(s[0]) + Escape(s[1..])
  }

  function Quote(s: Text): Text {
    [0x22] + Escape(s) + [0x22]
  }

  // ---------------------------------------------------------------------
  // JSON.stringify
  // ---------------------------------------------------------------------

  const NULL_TEXT: Text := [0x6E, 0x75, 0x6C, 0x6C]
  const TRUE_TEXT: Text := [0x74, 0x72, 0x75, 0x65]
  const FALSE_TEXT: Text := [0x66, 0x61, 0x6C, 0x73, 0x65]

  /** Object members with such values are left out; array items are printed as null. */
  predicate Omitted(v: Value) {
    v.Undefined? || v.Opaque?
  }

  /**
   The text of a value. A bigint makes `JSON.stringify` throw and an omitted
   value at the top gives no text; callers test for both.
   */
  function Print(v: Value): Text
    decreases v, 1
  {
    match v
    case Bool(b) => if b then TRUE_TEXT else FALSE_TEXT
    case Num(n) => PrintInt(n)
    case NegZero => Decimal(0)
    case Str(s) => Quote(s)
    case Instant(iso) => Quote(iso)
    case Arr(items) => [0x5B] + PrintItems(items, false) + [0x5D]
    case Obj(es) => [0x7B] + PrintMembers(es, false) + [0x7D]
    case _ => NULL_TEXT
  }

  function PrintItems(items: seq<Value>, comma: bool): Text
    decreases items, 0
  {
    if items == [] then []
    else Separator(comma) + Print(items[0]) + PrintItems(items[1..], true)
  }

  function PrintMembers(es: seq<Entry>, comma: bool): Text
    decreases es, 0
  {
    if es == [] then []
    else if Omitted(es[0].value) then PrintMembers(es[1..], comma)
    else Separator(comma) + PrintMember(es[0]) + PrintMembers(es[1..], true)
  }

  function PrintMember(e: Entry): Text
    decreases e, 0
  {
    Quote(e.key) + [0x3A] + Print(e.value)
  }

  function Separator(comma: bool): Text {
    if comma then [0x2C] else []
  }

  // ---------------------------------------------------------------------
  // A parser
  // ---------------------------------------------------------------------

  datatype Parsed<+T> = Parsed(value: T, rest: Text) | Malformed

  function Prepend(u: Unit, p: Parsed<Text>): Parsed<Text> {
    match p
    case Parsed(s, rest) => Parsed([u] + s, rest)
    case Malformed => Malformed
  }

  function HexValue(u: Unit): (d: int)
    ensures -1 <= d < 16
  {
    if IsDigit(u) then u as int - 0x30
    else if 0x61 <= u <= 0x66 then u as int - 0x57
    else -1
  }

  datatype Decoded = Decoded(unit: Unit, width: nat) | Bad

  /** One unit of string contents: itself, a two-character escape or \\u and four hex digits. */
  function DecodeUnit(t: Text): (d: Decoded)
    ensures d.Decoded? ==> 1 <= d.width <= |t|
  {
    if t == [] || t[0] == 0x22 then Bad
    else if t[0] != 0x5C then Decoded(t[0], 1)
    else if |t| < 2 then Bad
    else if t[1] == 0x22 || t[1] == 0x5C then Decoded(t[1], 2)
    else if t[1] == 0x62 then Decoded(0x08, 2)
    else if t[1] == 0x74 then Decoded(0x09, 2)
    else if t[1] == 0x6E then Decoded(0x0A, 2)
    else if t[1] == 0x66 then Decoded(0x0C, 2)
    else if t[1] == 0x72 then Decoded(0x0D, 2)
    else if t[1] != 0x75 || |t| < 6 then Bad
    else
      var a, b, c, d := HexValue(t[2]), HexValue(t[3]), HexValue(t[4]), HexValue(t[5]);
      if a < 0 || b < 0 || c < 0 || d < 0 then Bad
      else Decoded((a * 4096 + b * 256 + c * 16 + d) as Unit, 6)
  }

  /** The contents of a string, read from just after the opening quotation mark. */
  function ParseString(t: Text): (p: Parsed<Text>)
    ensures p.Parsed? ==> |p.rest| < |t|
    decreases |t|
  {
    if t != [] && t[0] == 0x22 then Parsed([], t[1..])
    else
      match DecodeUnit(t)
      case Bad => Malformed
      case Decoded(u, n) => Prepend(u, ParseString(t[n..]))
  }

  function ParseNumber(t: Text): (p: Parsed<Value>)
    ensures p.Parsed? ==> |p.rest| < |t|
  {
    if t != [] && t[0] == 0x2D then
      var n := DigitSpan(t[1..]);
      if n == 0 then Malformed else Parsed(Num(0 - DigitsValue(t[1..][..n])), t[1..][n..])
    else
      var n := DigitSpan(t);
      if n == 0 then Malformed else Parsed(Num(DigitsValue(t[..n])), t[n..])
  }

  /** null, true and false. */
  function ParseWord(t: Text): (p: Parsed<Value>)
    ensures p.Parsed? ==> |p.rest| < |t|
  {
    if NULL_TEXT <= t then Parsed(Null, t[4..])
    else if TRUE_TEXT <= t then Parsed(Bool(true), t[4..])
    else if FALSE_TEXT <= t then Parsed(Bool(false), t[5..])
    else Malformed
  }

  function Wrap<S, T>(p: Parsed<S>, make: S -> T): (q: Parsed<T>)
    ensures p.Malformed? ==> q.Malformed?
    ensures p.Parsed? ==> q == Parsed(make(p.value), p.rest)
  {
    match p
    case Parsed(x, rest) => Parsed(make(x), rest)
    case Malformed => Malformed
  }

  function ParseValue(t: Text): (p: Parsed<Value>)
    ensures p.Parsed? ==> |p.rest| < |t|
    decreases |t|, 0
  {
    if t == [] then Malformed
    else if t[0] == 0x22 then Wrap(ParseString(t[1..]), (s: Text) => Str(s))
    else if t[0] == 0x5B then Wrap(ParseItems(t[1..], false), (vs: seq<Value>) => Arr(vs))
    else if t[0] == 0x7B then Wrap(ParseMembers(t[1..], false), (es: seq<Entry>) => Obj(es))
    else if t[0] == 0x2D || IsDigit(t[0]) then ParseNumber(t)
    else ParseWord(t)
  }

  /** Past the comma, when one is due. */
  predicate CommaDue(t: Text, comma: bool) {
    comma ==> t != [] && t[0] == 0x2C
  }

  function AfterComma(t: Text, comma: bool): (u: Text)
    requires CommaDue(t, comma)
    ensures |u| <= |t|
  {
    if comma then t[1..] else t
  }

  function ParseItems(t: Text, comma: bool): (p: Parsed<seq<Value>>)
    ensures p.Parsed? ==> |p.rest| < |t|
    decreases |t|, 1
  {
    if t != [] && t[0] == 0x5D then Parsed([], t[1..])
    else if !CommaDue(t, comma) then Malformed
    else
      var p := ParseValue(AfterComma(t, comma));
      if p.Malformed? then Malformed
      else
        var q := ParseItems(p.rest, true);
        if q.Malformed? then Malformed else Parsed([p.value] + q.value, q.rest)
  }

  function ParseMember(t: Text): (p: Parsed<Entry>)
    ensures p.Parsed? ==> |p.rest| < |t|
    decreases |t|, 0
  {
    if t == [] || t[0] != 0x22 then Malformed
    else
      var k := ParseString(t[1..]);
      if k.Malformed? || k.rest == [] || k.rest[0] != 0x3A then Malformed
      else
        var p := ParseValue(k.rest[1..]);
        if p.Malformed? then Malformed else Parsed(Entry(k.value, p.value), p.rest)
  }

  function ParseMembers(t: Text, comma: bool): (p: Parsed<seq<Entry>>)
    ensures p.Parsed? ==> |p.rest| < |t|
    decreases |t|, 1
  {
    if t != [] && t[0] == 0x7D then Parsed([], t[1..])
    else if !CommaDue(t, comma) then Malformed
    else
      var p := ParseMember(AfterComma(t, comma));
      if p.Malformed? then Malformed
      else
        var q := ParseMembers(p.rest, true);
        if q.Malformed? then Malformed else Parsed([p.value] + q.value, q.rest)
  }

  // ---------------------------------------------------------------------
  // Parsing what was printed
  // ---------------------------------------------------------------------

  lemma Nibbles(n: nat)
    requires n < 0x1_0000
    ensures n / 4096 * 4096 + n / 256 % 16 * 256 + n / 16 % 16 * 16 + n % 16 == n
  {
    assert n / 256 == n / 16 / 16 && n / 4096 == n / 256 / 16;
  }

  lemma HexRoundTrip(u: Unit, t: Text)
    requires Hex4(u) <= t
    ensures HexValue(t[0]) * 4096 + HexValue(t[1]) * 256 + HexValue(t[2]) * 16 + HexValue(t[3]) == u as int
    ensures HexValue(t[0]) >= 0 && HexValue(t[1]) >= 0 && HexValue(t[2]) >= 0 && HexValue(t[3]) >= 0
  {
    Nibbles(u as int);
    var h := Hex4(u);
    assert t[0] == h[0] && t[1] == h[1] && t[2] == h[2] && t[3] == h[3];
    HexDigitRoundTrip(u as int / 4096);
    HexDigitRoundTrip(u as int / 256 % 16);
    HexDigitRoundTrip(u as int / 16 % 16);
    HexDigitRoundTrip(u as int % 16);
  }

  lemma HexDigitRoundTrip(d: int)
    requires 0 <= d < 16
    ensures HexValue(HexDigit(d)) == d
  {
  }

  lemma DecodeEscaped(u: Unit, tail: Text)
    ensures DecodeUnit(EscapeUnit(u) + tail) == Decoded(u, |EscapeUnit(u)|)
  {
    var e := EscapeUnit(u);
    var t := e + tail;
    assert t[0] == e[0];
    if |e| == 2 {
      assert t[1] == e[1];
    } else if |e| == 6 {
      assert t[1] == e[1];
      assert t[2..][..4] == Hex4(u);
      HexRoundTrip(u, t[2..]);
    }
  }

  lemma ParseDecoded(u: Unit, e: Text, tail: Text)
    requires DecodeUnit(e + tail) == Decoded(u, |e|)
    ensures ParseString(e + tail) == Prepend(u, ParseString(tail))
  {
    assert (e + tail)[|e|..] == tail;
  }

  lemma ParsePair(s: Text, more: Text, rest: Text)
    requires |s| >= 2 && High(s[0]) && Low(s[1])
    requires ParseString(more) == Parsed(s[2..], rest)
    ensures ParseString([s[0]] + ([s[1]] + more)) == Parsed(s, rest)
  {
    ParseDecoded(s[1], [s[1]], more);
    ParseDecoded(s[0], [s[0]], [s[1]] + more);
    assert s == [s[0]] + ([s[1]] + s[2..]);
  }

  lemma ParseOne(s: Text, more: Text, rest: Text)
    requires s != [] && ParseString(more) == Parsed(s[1..], rest)
    ensures ParseString(EscapeUnit(s[0]) + more) == Parsed(s, rest)
  {
    DecodeEscaped(s[0], more);
    ParseDecoded(s[0], EscapeUnit(s[0]), more);
    assert s == [s[0]] + s[1..];
  }

  lemma EscapePair(s: Text, tail: Text)
    requires |s| >= 2 && High(s[0]) && Low(s[1])
    ensures Escape(s) + tail == [s[0]] + ([s[1]] + (Escape(s[2..]) + tail))
  {
  }

  lemma EscapeOne(s: Text, tail: Text)
    requires s != [] && !(|s| >= 2 && High(s[0]) && Low(s[1]))
    ensures Escape(s) + tail == EscapeUnit(s[0]) + (Escape(s[1..]) + tail)
  {
  }

  lemma {:induction false} StringRoundTrip(s: Text, tail: Text, rest: Text)
    requires tail == [0x22] + rest
    ensures ParseString(Escape(s) + tail) == Parsed(s, rest)
  {
    if s == [] {
      assert Escape(s) + tail == tail;
    } else if |s| >= 2 && High(s[0]) && Low(s[1]) {
      StringRoundTrip(s[2..], tail, rest);
      EscapePair(s, tail);
      ParsePair(s, Escape(s[2..]) + tail, rest);
    } else {
      StringRoundTrip(s[1..], tail, rest);
      EscapeOne(s, tail);
      ParseOne(s, Escape(s[1..]) + tail, rest);
    }
  }

  lemma Bracketed<T>(x: T, a: seq<T>, y: T, rest: seq<T>)
    ensures var t := ([x] + a + [y]) + rest;
            t != [] && t[0] == x && t[1..] == a + ([y] + rest)
  {
  }

  lemma QuoteRoundTrip(s: Text, rest: Text)
    ensures Quote(s) + rest != [] && (Quote(s) + rest)[0] == 0x22
    ensures ParseString((Quote(s) + rest)[1..]) == Parsed(s, rest)
  {
    StringRoundTrip(s, [0x22] + rest, rest);
    Bracketed(0x22, Escape(s), 0x22, rest);
  }

  /** Text that cannot continue a number. */
  predicate Delimited(rest: Text) {
    rest == [] || !IsDigit(rest[0])
  }

  lemma SpanOfDecimal(m: nat, rest: Text)
    requires Delimited(rest)
    ensures var t := Decimal(m) + rest;
            var n := DigitSpan(t);
            n > 0 && t[..n] == Decimal(m) && t[n..] == rest && DigitsValue(t[..n]) == m
  {
    var d := Decimal(m);
    var t := d + rest;
    DecimalRoundTrip(m);
    assert forall i :: 0 <= i < |d| ==> t[i] == d[i];
    assert rest != [] ==> t[|d|] == rest[0];
    assert t[..|d|] == d && t[|d|..] == rest;
  }

  lemma ParseMinus(t: Text)
    requires DigitSpan(t) > 0
    ensures ParseNumber([0x2D] + t) == Parsed(Num(0 - DigitsValue(t[..DigitSpan(t)])), t[DigitSpan(t)..])
  {
    assert ([0x2D] + t)[1..] == t;
  }

  lemma NumberRoundTrip(n: int, rest: Text)
    requires Delimited(rest)
    ensures ParseValue(PrintInt(n) + rest) == Parsed(Num(n), rest)
  {
    var m := if n < 0 then -n else n;
    var t := Decimal(m) + rest;
    SpanOfDecimal(m, rest);
    if n < 0 {
      ParseMinus(t);
      Assoc([0x2D], Decimal(m), rest);
    } else {
      assert t[0] == Decimal(m)[0] && IsDigit(t[0]);
    }
  }

  lemma WordRoundTrip(v: Value, rest: Text)
    requires v.Null? || v.Bool?
    ensures ParseValue(Print(v) + rest) == Parsed(v, rest)
  {
    var w := Print(v);
    var t := w + rest;
    assert t[0] == w[0];
    assert w <= t && t[|w|..] == rest;
  }

  lemma Assoc<T>(a: seq<T>, b: seq<T>, c: seq<T>)
    ensures (a + b) + c == a + (b + c)
  {
  }

  lemma ParseBracketed(v: Value, inner: Text, rest: Text)
    requires v.Arr? ==> ParseItems(inner, false) == Parsed(v.items, rest)
    requires v.Obj? ==> ParseMembers(inner, false) == Parsed(v.entries, rest)
    requires v.Arr? || v.Obj?
    ensures ParseValue([if v.Arr? then 0x5B else 0x7B] + inner) == Parsed(v, rest)
  {
    var t := [if v.Arr? then 0x5B else 0x7B] + inner;
    assert t[1..] == inner;
  }

  lemma {:induction false} RoundTrip(v: Value, rest: Text)
    requires IsJson(v) && Delimited(rest)
    ensures ParseValue(Print(v) + rest) == Parsed(v, rest)
    decreases v, 1
  {
    match v
    case Num(n) => NumberRoundTrip(n, rest);
    case Str(s) => QuoteRoundTrip(s, rest);
    case Arr(items) =>
      var inner := PrintItems(items, false);
      ItemsRoundTrip(items, false, rest);
      ParseBracketed(v, inner + ([0x5D] + rest), rest);
      Assoc4([0x5B], inner, [0x5D], rest);
    case Obj(es) =>
      var inner := PrintMembers(es, false);
      MembersRoundTrip(es, false, rest);
      ParseBracketed(v, inner + ([0x7D] + rest), rest);
      Assoc4([0x7B], inner, [0x7D], rest);
    case _ => WordRoundTrip(v, rest);
  }

  lemma Assoc4<T>(a: seq<T>, b: seq<T>, c: seq<T>, d: seq<T>)
    ensures (a + b + c) + d == a + (b + (c + d))
  {
  }

  /** No printed value starts with a closing bracket or a comma. */
  lemma PrintOpens(v: Value)
    ensures Print(v) != [] && Print(v)[0] != 0x5D && Print(v)[0] != 0x7D && Print(v)[0] != 0x2C
  {
    match v
    case Num(n) => assert IsDigit(Decimal(if n < 0 then -n else n)[0]);
    case _ =>
  }

  /** What follows an item: a comma before the next one, or the closing bracket. */
  lemma TailDelimited(printed: Text, empty: bool, close: Text)
    requires if empty then printed == [] else printed != [] && printed[0] == 0x2C
    requires close != [] && (close[0] == 0x5D || close[0] == 0x7D)
    ensures Delimited(printed + close)
  {
    assert (printed + close)[0] == if empty then close[0] else 0x2C;
  }

  lemma SkipSeparator(comma: bool, u: Text)
    requires u != []
    ensures var t := Separator(comma) + u;
            CommaDue(t, comma) && AfterComma(t, comma) == u && t != [] && t[0] == if comma then 0x2C else u[0]
  {
  }

  lemma ParseNextItem(t: Text, comma: bool, v: Value, tail: Text, vs: seq<Value>, rest: Text)
    requires CommaDue(t, comma) && t != [] && t[0] != 0x5D
    requires ParseValue(AfterComma(t, comma)) == Parsed(v, tail)
    requires ParseItems(tail, true) == Parsed(vs, rest)
    ensures ParseItems(t, comma) == Parsed([v] + vs, rest)
  {
  }

  lemma ParseItemsStep(v: Value, vs: seq<Value>, comma: bool, first: Text, others: Text, close: Text, rest: Text)
    requires first != [] && first[0] != 0x5D
    requires ParseValue(first + (others + close)) == Parsed(v, others + close)
    requires ParseItems(others + close, true) == Parsed(vs, rest)
    ensures ParseItems((Separator(comma) + first + others) + close, comma) == Parsed([v] + vs, rest)
  {
    Assoc4(Separator(comma), first, others, close);
    SkipSeparator(comma, first + (others + close));
    ParseNextItem(Separator(comma) + (first + (others + close)), comma, v, others + close, vs, rest);
  }

  lemma {:induction false} ItemsRoundTrip(items: seq<Value>, comma: bool, rest: Text)
    requires forall i :: 0 <= i < |items| ==> IsJson(items[i])
    ensures ParseItems(PrintItems(items, comma) + ([0x5D] + rest), comma) == Parsed(items, rest)
    decreases items, 0
  {
    var close := [0x5D] + rest;
    if items == [] {
      assert PrintItems(items, comma) + close == close;
    } else {
      var first, others := Print(items[0]), PrintItems(items[1..], true);
      ItemsRoundTrip(items[1..], true, rest);
      TailDelimited(others, items[1..] == [], close);
      RoundTrip(items[0], others + close);
      PrintOpens(items[0]);
      ParseItemsStep(items[0], items[1..], comma, first, others, close, rest);
      assert items == [items[0]] + items[1..];
    }
  }

  lemma ParseNextMember(t: Text, comma: bool, e: Entry, tail: Text, es: seq<Entry>, rest: Text)
    requires CommaDue(t, comma) && t != [] && t[0] != 0x7D
    requires ParseMember(AfterComma(t, comma)) == Parsed(e, tail)
    requires ParseMembers(tail, true) == Parsed(es, rest)
    ensures ParseMembers(t, comma) == Parsed([e] + es, rest)
  {
  }

  lemma ParseMembersStep(e: Entry, es: seq<Entry>, comma: bool, first: Text, others: Text, close: Text, rest: Text)
    requires first != [] && first[0] == 0x22
    requires ParseMember(first + (others + close)) == Parsed(e, others + close)
    requires ParseMembers(others + close, true) == Parsed(es, rest)
    ensures ParseMembers((Separator(comma) + first + others) + close, comma) == Parsed([e] + es, rest)
  {
    Assoc4(Separator(comma), first, others, close);
    SkipSeparator(comma, first + (others + close));
    ParseNextMember(Separator(comma) + (first + (others + close)), comma, e, others + close, es, rest);
  }

  lemma {:induction false} MembersRoundTrip(es: seq<Entry>, comma: bool, rest: Text)
    requires forall i :: 0 <= i < |es| ==> IsJson(es[i].value)
    ensures ParseMembers(PrintMembers(es, comma) + ([0x7D] + rest), comma) == Parsed(es, rest)
    decreases es, 0
  {
    var close := [0x7D] + rest;
    if es == [] {
      assert PrintMembers(es, comma) + close == close;
    } else {
      var first, others := PrintMember(es[0]), PrintMembers(es[1..], true);
      MembersRoundTrip(es[1..], true, rest);
      MembersDelimited(es[1..], close);
      MemberRoundTrip(es[0], others + close);
      MemberOpens(es[0]);
      JsonIsPrinted(es[0].value);
      ParseMembersStep(es[0], es[1..], comma, first, others, close, rest);
      assert es == [es[0]] + es[1..];
    }
  }

  lemma MemberOpens(e: Entry)
    ensures PrintMember(e) != [] && PrintMember(e)[0] == 0x22
  {
  }

  lemma JsonIsPrinted(v: Value)
    requires IsJson(v)
    ensures !Omitted(v)
  {
  }

  lemma MembersDelimited(es: seq<Entry>, close: Text)
    requires forall i :: 0 <= i < |es| ==> IsJson(es[i].value)
    requires close != [] && close[0] == 0x7D
    ensures Delimited(PrintMembers(es, true) + close)
  {
    MembersStartWithComma(es);
    TailDelimited(PrintMembers(es, true), es == [], close);
  }

  lemma MembersStartWithComma(es: seq<Entry>)
    requires forall i :: 0 <= i < |es| ==> IsJson(es[i].value)
    ensures if es == [] then PrintMembers(es, true) == []
            else PrintMembers(es, true) != [] && PrintMembers(es, true)[0] == 0x2C
  {
  }

  lemma {:induction false} MemberRoundTrip(e: Entry, rest: Text)
    requires IsJson(e.value) && Delimited(rest)
    ensures ParseMember(PrintMember(e) + rest) == Parsed(e, rest)
    decreases e, 0
  {
    var after := [0x3A] + (Print(e.value) + rest);
    RoundTrip(e.value, rest);
    QuoteRoundTrip(e.key, after);
    Assoc4(Quote(e.key), [0x3A], Print(e.value), rest);
    ParseColon(Quote(e.key) + after, e.key, e.value, after, rest);
  }

  lemma ParseColon(t: Text, k: Text, v: Value, after: Text, rest: Text)
    requires t != [] && t[0] == 0x22 && ParseString(t[1..]) == Parsed(k, after)
    requires after != [] && after[0] == 0x3A && ParseValue(after[1..]) == Parsed(v, rest)
    ensures ParseMember(t) == Parsed(Entry(k, v), rest)
  {
  }

  /** The printed text of JSON data determines the data. */
  lemma PrintInjective(v: Value, w: Value)
    requires IsJson(v) && IsJson(w) && Print(v) == Print(w)
    ensures v == w
  {
    RoundTrip(v, []);
    RoundTrip(w, []);
    assert Print(v) + [] == Print(w) + [];
  }
}
