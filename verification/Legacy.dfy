/**
 Legacy payloads: `unflattenDottedKeys` and `normalizeLegacy` of
 src/lib/canonical.js, on values. Objects list their members in insertion order.
 */
module Legacy {
  import opened Text
  import opened Spelling
  import opened Values
  import opened Canonical

  // ---------------------------------------------------------------------
  // Object members
  // ---------------------------------------------------------------------

  /** Position of a key, or the number of members when it is absent. */
  function IndexOf(es: seq<Entry>, k: Text): (i: nat)
    ensures i <= |es|
    ensures i < |es| ==> es[i].key == k
    ensures forall j :: 0 <= j < i ==> es[j].key != k
  {
    if es == [] || es[0].key == k then 0 else 1 + IndexOf(es[1..], k)
  }

  predicate Has(es: seq<Entry>, k: Text) {
    IndexOf(es, k) < |es|
  }

  function Get(es: seq<Entry>, k: Text): Value
    requires Has(es, k)
  {
    es[IndexOf(es, k)].value
  }

  /** `obj[k] = v`. */
  function Set(es: seq<Entry>, k: Text, v: Value): seq<Entry> {
    var i := IndexOf(es, k);
    if i < |es| then es[i := Entry(k, v)] else es + [Entry(k, v)]
  }

  lemma GetSet(es: seq<Entry>, k: Text, v: Value, k': Text)
    ensures Has(Set(es, k, v), k') <==> k' == k || Has(es, k')
    ensures Has(Set(es, k, v), k') ==> Get(Set(es, k, v), k') == if k' == k then v else Get(es, k')
  {
    var r := Set(es, k, v);
    var i, j := IndexOf(es, k'), IndexOf(r, k');
    if i < |es| { assert r[i].key == k'; }
    if k' == k { assert r[IndexOf(es, k)].key == k; }
  }

  /** What `typeof x === "object"`, neither null nor an array, lets through. */
  predicate ObjectLike(v: Value) {
    v.Obj? || v.Instant? || v.BadDate?
  }

  /** `Object.entries`: a Date has none. */
  function EntriesOf(v: Value): (es: seq<Entry>)
    ensures v.Obj? ==> es == v.entries
    ensures !v.Obj? ==> es == []
  {
    if v.Obj? then v.entries else []
  }

  // ---------------------------------------------------------------------
  // Dotted keys
  // ---------------------------------------------------------------------

  predicate DotFree(k: Text) {
    DOT !in k
  }

  function Dots(k: Text): nat {
    if k == [] then 0 else (if k[0] == DOT then 1 else 0) + Dots(k[1..])
  }

  /** `key.split(".")`. */
  function SplitDots(k: Text): (parts: seq<Text>)
    ensures parts != []
  {
    if k == [] then [[]]
    else
      var rest := SplitDots(k[1..]);
      if k[0] == DOT then [[]] + rest else [[k[0]] + rest[0]] + rest[1..]
  }

  function JoinDots(parts: seq<Text>): Text
    requires parts != []
  {
    if |parts| == 1 then parts[0] else parts[0] + [DOT] + JoinDots(parts[1..])
  }

  lemma {:induction false} SplitParts(k: Text)
    ensures |SplitDots(k)| == Dots(k) + 1
    ensures forall i :: 0 <= i < |SplitDots(k)| ==> DotFree(SplitDots(k)[i])
  {
    if k != [] { SplitParts(k[1..]); }
  }

  lemma {:induction false} DotFreeHasNoDots(k: Text)
    requires DotFree(k)
    ensures Dots(k) == 0 && SplitDots(k) == [k]
  {
    if k != [] {
      assert k[0] in k && forall c :: c in k[1..] ==> c in k;
      DotFreeHasNoDots(k[1..]);
      assert [k[0]] + k[1..] == k;
    }
  }

  lemma {:induction false} SplitFirst(a: Text, rest: Text)
    requires DotFree(a)
    ensures SplitDots(a + ([DOT] + rest)) == [a] + SplitDots(rest)
  {
    var s := a + ([DOT] + rest);
    if a == [] {
      assert s == [DOT] + rest && s[1..] == rest;
    } else {
      assert a[0] in a && forall c :: c in a[1..] ==> c in a;
      SplitFirst(a[1..], rest);
      assert s[1..] == a[1..] + ([DOT] + rest);
      assert [a[0]] + a[1..] == a;
    }
  }

  /** Splitting undoes joining when no part has a dot of its own. */
  lemma {:induction false} SplitJoin(parts: seq<Text>)
    requires parts != [] && forall i :: 0 <= i < |parts| ==> DotFree(parts[i])
    ensures SplitDots(JoinDots(parts)) == parts
  {
    if |parts| == 1 {
      DotFreeHasNoDots(parts[0]);
    } else {
      SplitJoin(parts[1..]);
      SplitFirst(parts[0], JoinDots(parts[1..]));
      Assoc(parts[0], [DOT], JoinDots(parts[1..]));
    }
  }

  // ---------------------------------------------------------------------
  // Unflattening
  // ---------------------------------------------------------------------

  /** The members `Object.assign` copies from an array. */
  function IndexMembers(items: seq<Value>): (r: seq<Entry>)
    ensures |r| == |items|
  {
    seq(|items|, i requires 0 <= i < |items| => Entry(Decimal(i), items[i]))
  }

  function SetAll(es: seq<Entry>, more: seq<Entry>): seq<Entry>
    decreases |more|
  {
    if more == [] then es else SetAll(Set(es, more[0].key, more[0].value), more[1..])
  }

  /** An object copied onto an array: keys naming existing positions replace them. */
  function SetItems(items: seq<Value>, more: seq<Entry>): (r: seq<Value>)
    ensures |r| == |items|
    decreases |more|
  {
    if more == [] then items
    else
      var k := more[0].key;
      var hit := IsIndex(k) && DigitsValue(k) < |items|;
      SetItems(if hit then items[DigitsValue(k) := more[0].value] else items, more[1..])
  }

  /** `Object.assign(target, source)` between objects and arrays. */
  function Assign(target: Value, source: Value): Value
    requires (target.Obj? || target.Arr?) && (source.Obj? || source.Arr?)
  {
    match (target, source)
    case (Obj(es), Obj(more)) => Obj(SetAll(es, more))
    case (Obj(es), Arr(items)) => Obj(SetAll(es, IndexMembers(items)))
    case (Arr(items), Obj(more)) => Arr(SetItems(items, more))
    case (Arr(items), Arr(more)) => Arr(if |more| < |items| then more + items[|more|..] else more)
  }

  /** The last step of a path: merge two structures, otherwise overwrite. */
  function PutLast(es: seq<Entry>, k: Text, v: Value): seq<Entry> {
    if Has(es, k) && (Get(es, k).Obj? || Get(es, k).Arr?) && (v.Obj? || v.Arr?) then
      Set(es, k, Assign(Get(es, k), v))
    else Set(es, k, v)
  }

  /** The object the walk steps into: the one at `k`, or a new one replacing anything else. */
  function Child(es: seq<Entry>, k: Text): seq<Entry> {
    if Has(es, k) then EntriesOf(Get(es, k)) else []
  }

  /** The walk of the moving `current` along the parts of a key. */
  function SetPath(es: seq<Entry>, parts: seq<Text>, v: Value): seq<Entry>
    requires parts != []
    decreases |parts|
  {
    if |parts| == 1 then PutLast(es, parts[0], v)
    else Set(es, parts[0], Obj(SetPath(Child(es, parts[0]), parts[1..], v)))
  }

  /** Nested objects are unflattened first; arrays and scalars are taken as they are. */
  function Processed(v: Value): Value
    decreases v, 1
  {
    match v
    case Obj(es) => Obj(UnflattenInto([], es))
    case Instant(_) => Obj([])
    case BadDate => Obj([])
    case _ => v
  }

  /** The loop over the entries, from the tree built so far. */
  function UnflattenInto(result: seq<Entry>, es: seq<Entry>): seq<Entry>
    decreases es, 0
  {
    if es == [] then result
    else UnflattenInto(SetPath(result, SplitDots(es[0].key), Processed(es[0].value)), es[1..])
  }

  function Unflatten(es: seq<Entry>): seq<Entry> {
    UnflattenInto([], es)
  }

  // ---------------------------------------------------------------------
  // The dotted depth
  // ---------------------------------------------------------------------

  function Max(a: nat, b: nat): nat {
    if a < b then b else a
  }

  /** Nesting depth, a key with k dots counting k + 1 levels. */
  function Depth(v: Value): nat
    decreases v, 1
  {
    match v
    case Arr(items) => 1 + ItemsDepth(items)
    case Obj(es) => MembersDepth(es)
    case _ => 0
  }

  function ItemsDepth(items: seq<Value>): nat
    decreases items, 0
  {
    if items == [] then 0 else Max(Depth(items[0]), ItemsDepth(items[1..]))
  }

  function MembersDepth(es: seq<Entry>): nat
    decreases es, 0
  {
    if es == [] then 0 else Max(MemberDepth(es[0]), MembersDepth(es[1..]))
  }

  function MemberDepth(e: Entry): nat
    decreases e, 0
  {
    Dots(e.key) + 1 + Depth(e.value)
  }

  lemma {:induction false} ItemsDepthIff(items: seq<Value>, b: nat)
    ensures ItemsDepth(items) <= b <==> forall i :: 0 <= i < |items| ==> Depth(items[i]) <= b
  {
    if items != [] {
      ItemsDepthIff(items[1..], b);
      assert forall i :: 0 <= i < |items| ==> i == 0 || items[i] == items[1..][i - 1];
    }
  }

  lemma {:induction false} MembersDepthIff(es: seq<Entry>, b: nat)
    ensures MembersDepth(es) <= b <==> forall i :: 0 <= i < |es| ==> MemberDepth(es[i]) <= b
  {
    if es != [] {
      MembersDepthIff(es[1..], b);
      assert forall i :: 0 <= i < |es| ==> i == 0 || es[i] == es[1..][i - 1];
    }
  }

  lemma ItemDepth(items: seq<Value>, i: nat)
    requires i < |items|
    ensures Depth(items[i]) <= ItemsDepth(items)
  {
    ItemsDepthIff(items, ItemsDepth(items));
  }

  lemma MemberInDepth(es: seq<Entry>, i: nat)
    requires i < |es|
    ensures MemberDepth(es[i]) <= MembersDepth(es)
  {
    MembersDepthIff(es, MembersDepth(es));
  }

  lemma SetDepth(es: seq<Entry>, k: Text, v: Value, b: nat)
    requires MembersDepth(es) <= b && Dots(k) + 1 + Depth(v) <= b
    ensures MembersDepth(Set(es, k, v)) <= b
  {
    MembersDepthIff(es, b);
    MembersDepthIff(Set(es, k, v), b);
  }

  lemma {:induction false} SetAllDepth(es: seq<Entry>, more: seq<Entry>, b: nat)
    requires MembersDepth(es) <= b && MembersDepth(more) <= b
    ensures MembersDepth(SetAll(es, more)) <= b
    decreases |more|
  {
    if more != [] {
      MemberInDepth(more, 0);
      SetDepth(es, more[0].key, more[0].value, b);
      SetAllDepth(Set(es, more[0].key, more[0].value), more[1..], b);
    }
  }

  lemma {:induction false} DecimalIsDotFree(k: Text)
    requires forall i :: 0 <= i < |k| ==> IsDigit(k[i])
    ensures Dots(k) == 0
  {
    if k != [] { DecimalIsDotFree(k[1..]); }
  }

  lemma IndexMembersDepth(items: seq<Value>)
    ensures MembersDepth(IndexMembers(items)) <= 1 + ItemsDepth(items)
  {
    var ms := IndexMembers(items);
    forall i | 0 <= i < |ms| ensures MemberDepth(ms[i]) <= 1 + ItemsDepth(items) {
      ItemDepth(items, i);
      DecimalIsDotFree(Decimal(i));
    }
    MembersDepthIff(ms, 1 + ItemsDepth(items));
  }

  lemma {:induction false} SetItemsDepth(items: seq<Value>, more: seq<Entry>, b: nat)
    requires ItemsDepth(items) <= b && MembersDepth(more) <= b + 1
    ensures ItemsDepth(SetItems(items, more)) <= b
    decreases |more|
  {
    if more != [] {
      var k := more[0].key;
      var hit := IsIndex(k) && DigitsValue(k) < |items|;
      var next := if hit then items[DigitsValue(k) := more[0].value] else items;
      MemberInDepth(more, 0);
      ItemsDepthIff(items, b);
      ItemsDepthIff(next, b);
      SetItemsDepth(next, more[1..], b);
    }
  }

  lemma OverlayDepth(items: seq<Value>, more: seq<Value>, b: nat)
    requires ItemsDepth(items) <= b && ItemsDepth(more) <= b && |more| < |items|
    ensures ItemsDepth(more + items[|more|..]) <= b
  {
    ItemsDepthIff(items, b);
    ItemsDepthIff(more, b);
    ItemsDepthIff(more + items[|more|..], b);
  }

  lemma AssignDepth(target: Value, source: Value, b: nat)
    requires (target.Obj? || target.Arr?) && (source.Obj? || source.Arr?)
    requires Depth(target) <= b && Depth(source) <= b
    ensures Depth(Assign(target, source)) <= b
  {
    match (target, source)
    case (Obj(es), Obj(more)) => SetAllDepth(es, more, b);
    case (Obj(es), Arr(items)) =>
      IndexMembersDepth(items);
      SetAllDepth(es, IndexMembers(items), b);
    case (Arr(items), Obj(more)) => SetItemsDepth(items, more, b - 1);
    case (Arr(items), Arr(more)) =>
      if |more| < |items| { OverlayDepth(items, more, b - 1); }
  }

  lemma ChildDepth(es: seq<Entry>, k: Text)
    requires Has(es, k)
    ensures 1 + Depth(Get(es, k)) <= MembersDepth(es)
  {
    MemberInDepth(es, IndexOf(es, k));
  }

  lemma PutLastDepth(es: seq<Entry>, k: Text, v: Value, b: nat)
    requires DotFree(k) && MembersDepth(es) <= b && 1 + Depth(v) <= b
    ensures MembersDepth(PutLast(es, k, v)) <= b
  {
    DotFreeHasNoDots(k);
    if Has(es, k) && (Get(es, k).Obj? || Get(es, k).Arr?) && (v.Obj? || v.Arr?) {
      ChildDepth(es, k);
      AssignDepth(Get(es, k), v, b - 1);
      SetDepth(es, k, Assign(Get(es, k), v), b);
    } else {
      SetDepth(es, k, v, b);
    }
  }

  lemma {:induction false} SetPathDepth(es: seq<Entry>, parts: seq<Text>, v: Value, b: nat)
    requires parts != [] && forall i :: 0 <= i < |parts| ==> DotFree(parts[i])
    requires MembersDepth(es) <= b && |parts| + Depth(v) <= b
    ensures MembersDepth(SetPath(es, parts, v)) <= b
    decreases |parts|
  {
    if |parts| == 1 {
      PutLastDepth(es, parts[0], v, b);
    } else {
      if Has(es, parts[0]) { ChildDepth(es, parts[0]); }
      var child := Child(es, parts[0]);
      SetPathDepth(child, parts[1..], v, b - 1);
      DotFreeHasNoDots(parts[0]);
      SetDepth(es, parts[0], Obj(SetPath(child, parts[1..], v)), b);
    }
  }

  lemma {:induction false} UnflattenIntoDepth(result: seq<Entry>, es: seq<Entry>, b: nat)
    requires MembersDepth(result) <= b && MembersDepth(es) <= b
    ensures MembersDepth(UnflattenInto(result, es)) <= b
    decreases es, 0
  {
    if es != [] {
      MemberInDepth(es, 0);
      ProcessedDepth(es[0].value);
      SplitParts(es[0].key);
      SetPathDepth(result, SplitDots(es[0].key), Processed(es[0].value), b);
      UnflattenIntoDepth(SetPath(result, SplitDots(es[0].key), Processed(es[0].value)), es[1..], b);
    }
  }

  lemma {:induction false} ProcessedDepth(v: Value)
    ensures Depth(Processed(v)) <= Depth(v)
    decreases v, 1
  {
    if v.Obj? { UnflattenIntoDepth([], v.entries, Depth(v)); }
  }

  /** Unflattening trades dots for levels and never increases the dotted depth. */
  lemma UnflattenDepth(es: seq<Entry>)
    ensures MembersDepth(Unflatten(es)) <= MembersDepth(es)
  {
    UnflattenIntoDepth([], es, MembersDepth(es));
  }

  // ---------------------------------------------------------------------
  // normalizeLegacy
  // ---------------------------------------------------------------------

  const ITEM: Text := [0x69, 0x74, 0x65, 0x6D]

  /** `.replace(/s$/, "")`. */
  function Singular(k: Text): Text {
    if k != [] && k[|k| - 1] == 0x73 then k[..|k| - 1] else k
  }

  /** An object whose only member is an array. */
  predicate IsWrapper(v: Value) {
    v.Obj? && |v.entries| == 1 && v.entries[0].value.Arr?
  }

  predicate KnownWrapper(u: Unicode, k: Text, v: Value)
    requires IsWrapper(v)
  {
    var inner := FoldKey(u, v.entries[0].key);
    inner == ITEM || inner == Singular(FoldKey(u, k))
  }

  function LegacyString(u: Unicode, s: Text): Value {
    var t := FoldKey(u, s);
    if t == TRUE_TEXT then Bool(true) else if t == FALSE_TEXT then Bool(false) else Str(s)
  }

  /**
   The recursion is on the unflattened members, which are not part of `v` and
   may nest deeper than it; the dotted depth is what decreases.
   */
  function NormalizeLegacy(u: Unicode, v: Value): Outcome<Value>
    decreases Depth(v), 1, 0
  {
    if v.Str? then Ok(LegacyString(u, v.s))
    else if v.Arr? then
      match LegacyItems(u, v.items)
      case Ok(ws) => Ok(Arr(ws))
      case Rejected => Rejected
    else if ObjectLike(v) then
      UnflattenDepth(EntriesOf(v));
      match LegacyMembers(u, Unflatten(EntriesOf(v)))
      case Ok(es) => Ok(Obj(es))
      case Rejected => Rejected
    else Ok(v)
  }

  function LegacyItems(u: Unicode, items: seq<Value>): (r: Outcome<seq<Value>>)
    ensures r.Ok? ==> |r.value| == |items|
    decreases ItemsDepth(items), 2, |items|
  {
    if items == [] then Ok([])
    else
      match NormalizeLegacy(u, items[0])
      case Rejected => Rejected
      case Ok(w) =>
        match LegacyItems(u, items[1..])
        case Rejected => Rejected
        case Ok(ws) => Ok([w] + ws)
  }

  function LegacyMembers(u: Unicode, es: seq<Entry>): (r: Outcome<seq<Entry>>)
    ensures r.Ok? ==> |r.value| == |es|
    decreases MembersDepth(es), 0, |es|
  {
    if es == [] then Ok([])
    else
      MemberInDepth(es, 0);
      match LegacyMember(u, es[0])
      case Rejected => Rejected
      case Ok(w) =>
        match LegacyMembers(u, es[1..])
        case Rejected => Rejected
        case Ok(ws) => Ok([Entry(es[0].key, w)] + ws)
  }

  function LegacyMember(u: Unicode, e: Entry): Outcome<Value>
    decreases Depth(e.value), 3, 0
  {
    if IsWrapper(e.value) then
      var inner := e.value.entries[0];
      MemberInDepth(e.value.entries, 0);
      if KnownWrapper(u, e.key, e.value) then
        match LegacyItems(u, inner.value.items)
        case Ok(ws) => Ok(Arr(ws))
        case Rejected => Rejected
      else Rejected
    else NormalizeLegacy(u, e.value)
  }

  /** One entry of the loop: what is left to do, from the tree with this entry stored. */
  lemma UnflattenStep(result: seq<Entry>, es: seq<Entry>, i: nat)
    requires i < |es|
    ensures UnflattenInto(result, es[i..]) ==
            UnflattenInto(SetPath(result, SplitDots(es[i].key), Processed(es[i].value)), es[i + 1..])
  {
    assert es[i..][1..] == es[i + 1..];
  }

  /** What the loop stores for a value: objects are unflattened, anything else is taken as it is. */
  method ProcessValue(value: Value) returns (processed: Value)
    ensures processed == Processed(value)
    decreases value, 1
  {
    if value.Obj? {
      var inner := UnflattenDottedKeys(value.entries);
      return Obj(inner);
    }
    return if ObjectLike(value) then Obj([]) else value;
  }

  /** The loop of `unflattenDottedKeys`. */
  method UnflattenDottedKeys(es: seq<Entry>) returns (result: seq<Entry>)
    ensures result == Unflatten(es)
    decreases es, 0
  {
    result := [];
    for i := 0 to |es|
      invariant UnflattenInto(result, es[i..]) == Unflatten(es)
    {
      var processed := ProcessValue(es[i].value);
      UnflattenStep(result, es, i);
      result := SetPath(result, SplitDots(es[i].key), processed);
    }
  }
}
