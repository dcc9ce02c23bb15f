// The JSON printer of stu_json.c, and what the reader makes of printed text.
module JsonText {
  import opened Bytes
  import opened Json

  const INT_MIN: int := -0x8000_0000
  const INT_MAX: int := 0x7FFF_FFFF
  const MINUS: Byte := '-' as int
  const EPSILON: real := 1.0 / 4503599627370496.0  // DBL_EPSILON

  // ----- Numbers ----------------------------------------------------------------------

  function Digits(n: nat): (r: seq<Byte>)
    ensures |r| > 0 && forall i :: 0 <= i < |r| ==> Digit(r[i])
  {
    if n < 10 then [48 + n] else Digits(n / 10) + [48 + n % 10]
  }

  // What "%d" prints.
  function Decimal(i: int): (r: seq<Byte>)
    ensures |r| > 0 && (r[0] == MINUS || Digit(r[0]))
  {
    if i < 0 then [MINUS] + Digits(-i) else Digits(i)
  }

  function Trunc(d: real): int {
    if d >= 0.0 then d.Floor else -((-d).Floor)
  }

  function Abs(d: real): real {
    if d >= 0.0 then d else -d
  }

  // Lines 937-961; `fmt` stands for the formats of numbers outside the integers.
  function NumText(d: real, fmt: real -> seq<Byte>): seq<Byte> {
    if d == 0.0 then ['0' as int]
    else if Abs(d - Trunc(d) as real) <= EPSILON && INT_MIN as real <= d <= INT_MAX as real then Decimal(Trunc(d))
    else fmt(d)
  }

  predicate Int32(d: real) {
    d == d.Floor as real && INT_MIN <= d.Floor <= INT_MAX
  }

  lemma IntText(d: real, fmt: real -> seq<Byte>)
    requires Int32(d)
    ensures NumText(d, fmt) == Decimal(d.Floor)
  {
    var i := d.Floor;
    assert (-d).Floor == -i by {
      assert -d == (-i) as real;
    }
    assert Trunc(d) == i;
  }

  // ----- The printed text -------------------------------------------------------------

  // A value the printer can be given: no string without a value.
  predicate Printable(v: Value) {
    match v
    case Cut => false
    case Arr(items) => PrintableItems(items)
    case Obj(items) => PrintableItems(items)
    case _ => true
  }

  predicate PrintableItems(items: Items) {
    items.Node? ==> Printable(items.value) && PrintableItems(items.next)
  }

  function Print(v: Value, fmt: real -> seq<Byte>): seq<Byte>
    requires Printable(v)
  {
    match v
    case Null => NULL_TEXT
    case Bool(b) => if b then TRUE_TEXT else FALSE_TEXT
    case Str(s) => [QUOTE] + CStr(s) + [QUOTE]
    case Num(d) => NumText(d, fmt)
    case Arr(items) => [OPEN_ARR] + PrintElems(items, fmt)
    case Obj(items) => [OPEN_OBJ] + PrintFields(items, fmt)
  }

  // The elements and the closing bracket.
  function PrintElems(items: Items, fmt: real -> seq<Byte>): seq<Byte>
    requires PrintableItems(items)
  {
    match items
    case Nil => [CLOSE_ARR]
    case Node(_, v, next) =>
      Print(v, fmt) + if next.Nil? then [CLOSE_ARR] else [COMMA] + PrintElems(next, fmt)
  }

  function PrintFields(items: Items, fmt: real -> seq<Byte>): seq<Byte>
    requires PrintableItems(items)
  {
    match items
    case Nil => [CLOSE_OBJ]
    case Node(k, v, next) =>
      [QUOTE] + (CStr(k) + ([QUOTE] + ([COLON] + (Print(v, fmt) + if next.Nil? then [CLOSE_OBJ] else [COMMA] + PrintFields(next, fmt)))))
  }

  // ----- The printer ------------------------------------------------------------------

  ghost function Size(v: Value): nat {
    match v
    case Arr(items) => 1 + SizeItems(items)
    case Obj(items) => 1 + SizeItems(items)
    case _ => 0
  }

  ghost function SizeItems(items: Items): nat {
    match items
    case Nil => 0
    case Node(_, v, next) => 1 + Size(v) + SizeItems(next)
  }

  // Behind what it printed it may write a NUL.
  method PrintValue(v: Value, fmt: real -> seq<Byte>, dst: array<Byte>, at: nat) returns (p: nat)
    requires Printable(v) && at + |Print(v, fmt)| < dst.Length
    modifies dst
    ensures p == at + |Print(v, fmt)| && dst[..p] == old(dst[..at]) + Print(v, fmt)
    decreases Size(v)
  {
    match v
    case Null => p := PrintText(dst, at, NULL_TEXT);
    case Bool(b) => p := PrintText(dst, at, if b then TRUE_TEXT else FALSE_TEXT);
    case Str(s) => p := PrintString(s, dst, at);
    case Num(d) => p := Sprintf(dst, at, NumText(d, fmt));
    case Arr(items) => p := PrintArray(items, fmt, dst, at);
    case Obj(items) => p := PrintObject(items, fmt, dst, at);
  }

  // Formatted output as a parameter: the text and a NUL.
  method Sprintf(dst: array<Byte>, at: nat, s: seq<Byte>) returns (p: nat)
    requires at + |s| < dst.Length
    modifies dst
    ensures p == at + |s| && dst[..p] == old(dst[..at]) + s
  {
    p := at;
    for i := 0 to |s|
      invariant p == at + i && dst[..p] == old(dst[..at]) + s[..i]
    {
      dst[p] := s[i];
      p := p + 1;
    }
    dst[p] := 0;
  }

  method PrintText(dst: array<Byte>, at: nat, s: seq<Byte>) returns (p: nat)
    requires at + |s| < dst.Length && 0 !in s
    modifies dst
    ensures p == at + |s| && dst[..p] == old(dst[..at]) + s
  {
    CStrNulFree(s);
    p := Strncpy(dst, at, s);
    assert dst[..p] == dst[..at] + dst[at..p];
  }

  // A quoted string; also how a key is printed.
  method PrintString(s: seq<Byte>, dst: array<Byte>, at: nat) returns (p: nat)
    requires at + |CStr(s)| + 2 <= dst.Length
    modifies dst
    ensures p == at + |CStr(s)| + 2 && dst[..p] == old(dst[..at]) + ([QUOTE] + CStr(s) + [QUOTE])
  {
    p := PrintByte(dst, at, QUOTE);
    p := Strncpy(dst, p, s);
    assert dst[..p] == dst[..at + 1] + dst[at + 1..p];
    p := PrintByte(dst, p, QUOTE);
  }

  method PrintByte(dst: array<Byte>, at: nat, c: Byte) returns (p: nat)
    requires at < dst.Length
    modifies dst
    ensures p == at + 1 && dst[..p] == old(dst[..at]) + [c]
  {
    dst[at] := c;
    p := at + 1;
  }

  method PrintArray(items: Items, fmt: real -> seq<Byte>, dst: array<Byte>, at: nat) returns (p: nat)
    requires PrintableItems(items) && at + 1 + |PrintElems(items, fmt)| < dst.Length
    modifies dst
    ensures p == at + 1 + |PrintElems(items, fmt)| && dst[..p] == old(dst[..at]) + ([OPEN_ARR] + PrintElems(items, fmt))
    decreases SizeItems(items), 1
  {
    p := PrintByte(dst, at, OPEN_ARR);
    var item := items;
    while item.Node?
      invariant PrintableItems(item) && SizeItems(item) <= SizeItems(items)
      invariant p + |PrintElems(item, fmt)| == at + 1 + |PrintElems(items, fmt)|
      invariant dst[..p] + PrintElems(item, fmt) == old(dst[..at]) + ([OPEN_ARR] + PrintElems(items, fmt))
      decreases item
    {
      p := PrintElem(item, fmt, dst, p);
      item := item.next;
    }
    p := PrintByte(dst, p, CLOSE_ARR);
  }

  // One turn of the loop: value and comma.
  method PrintElem(item: Items, fmt: real -> seq<Byte>, dst: array<Byte>, at: nat) returns (p: nat)
    requires item.Node? && PrintableItems(item) && at + |PrintElems(item, fmt)| < dst.Length
    modifies dst
    ensures p + |PrintElems(item.next, fmt)| == at + |PrintElems(item, fmt)|
    ensures dst[..p] + PrintElems(item.next, fmt) == old(dst[..at]) + PrintElems(item, fmt)
    decreases SizeItems(item), 0
  {
    ghost var a, v, rest := dst[..at], Print(item.value, fmt), PrintElems(item.next, fmt);
    p := PrintValue(item.value, fmt, dst, at);
    if item.next.Node? {
      p := PrintByte(dst, p, COMMA);
      Regroup4([], a, v, [COMMA], rest);
      assert [] + a == a;
    } else {
      Regroup(a, v, rest);
    }
  }

  method PrintKey(key: seq<Byte>, dst: array<Byte>, at: nat) returns (p: nat)
    requires at + |CStr(key)| + 3 <= dst.Length
    modifies dst
    ensures p == at + |CStr(key)| + 3 && dst[..p] == old(dst[..at]) + ([QUOTE] + (CStr(key) + ([QUOTE] + [COLON])))
  {
    p := PrintString(key, dst, at);
    p := PrintByte(dst, p, COLON);
    assert [QUOTE] + CStr(key) + [QUOTE] + [COLON] == [QUOTE] + (CStr(key) + ([QUOTE] + [COLON]));
  }

  // A printed field: key, value, and what follows.
  lemma FieldText(items: Items, fmt: real -> seq<Byte>)
    requires items.Node? && PrintableItems(items)
    ensures var sep := if items.next.Nil? then [] else [COMMA];
      PrintFields(items, fmt) ==
        ([QUOTE] + (CStr(items.key) + ([QUOTE] + [COLON]))) + (Print(items.value, fmt) + (sep + PrintFields(items.next, fmt)))
  {
  }

  // One turn of the loop: key, value and comma.
  method PrintField(item: Items, fmt: real -> seq<Byte>, dst: array<Byte>, at: nat) returns (p: nat)
    requires item.Node? && PrintableItems(item) && at + |PrintFields(item, fmt)| < dst.Length
    modifies dst
    ensures p + |PrintFields(item.next, fmt)| == at + |PrintFields(item, fmt)|
    ensures dst[..p] + PrintFields(item.next, fmt) == old(dst[..at]) + PrintFields(item, fmt)
    decreases SizeItems(item), 0
  {
    FieldText(item, fmt);
    ghost var a, k, v := dst[..at], [QUOTE] + (CStr(item.key) + ([QUOTE] + [COLON])), Print(item.value, fmt);
    ghost var sep, rest := if item.next.Nil? then [] else [COMMA], PrintFields(item.next, fmt);
    assert |PrintFields(item, fmt)| == |k| + |v| + |sep| + |rest|;
    p := PrintKey(item.key, dst, at);
    p := PrintValue(item.value, fmt, dst, p);
    assert dst[..p] == a + k + v;
    if item.next.Node? {
      p := PrintByte(dst, p, COMMA);
    } else {
      assert a + k + v + sep == a + k + v;
    }
    Regroup4(a, k, v, sep, rest);
  }

  lemma Regroup4(a: seq<Byte>, k: seq<Byte>, v: seq<Byte>, sep: seq<Byte>, rest: seq<Byte>)
    ensures (a + k + v + sep) + rest == a + (k + (v + (sep + rest)))
  {
  }

  method PrintObject(items: Items, fmt: real -> seq<Byte>, dst: array<Byte>, at: nat) returns (p: nat)
    requires PrintableItems(items) && at + 1 + |PrintFields(items, fmt)| < dst.Length
    modifies dst
    ensures p == at + 1 + |PrintFields(items, fmt)| && dst[..p] == old(dst[..at]) + ([OPEN_OBJ] + PrintFields(items, fmt))
    decreases SizeItems(items), 1
  {
    p := PrintByte(dst, at, OPEN_OBJ);
    var item := items;
    while item.Node?
      invariant PrintableItems(item) && SizeItems(item) <= SizeItems(items)
      invariant p + |PrintFields(item, fmt)| == at + 1 + |PrintFields(items, fmt)|
      invariant dst[..p] + PrintFields(item, fmt) == old(dst[..at]) + ([OPEN_OBJ] + PrintFields(items, fmt))
      decreases item
    {
      p := PrintField(item, fmt, dst, p);
      item := item.next;
    }
    p := PrintByte(dst, p, CLOSE_OBJ);
  }

  // ----- Text with white space between the tokens -------------------------------------

  // A value with the white space around its parts: before and behind a key, before and
  // behind a value.
  datatype Spaced = Leaf(v: Value) | SArr(items: SItems) | SObj(items: SItems)
  datatype SItems = SNil | SNode(pre: seq<Byte>, key: seq<Byte>, mid: seq<Byte>, lead: seq<Byte>, value: Spaced, post: seq<Byte>, next: SItems)

  function Bare(t: Spaced): Value {
    match t
    case Leaf(v) => v
    case SArr(items) => Arr(BareItems(items))
    case SObj(items) => Obj(BareItems(items))
  }

  function BareItems(items: SItems): Items {
    match items
    case SNil => Nil
    case SNode(_, key, _, _, v, _, next) => Node(key, Bare(v), BareItems(next))
  }

  predicate Blanks(s: seq<Byte>) {
    forall i :: 0 <= i < |s| ==> Blank(s[i])
  }

  predicate Spacing(t: Spaced) {
    match t
    case Leaf(v) => !v.Arr? && !v.Obj?
    case SArr(items) => SpacingItems(items)
    case SObj(items) => SpacingItems(items)
  }

  predicate SpacingItems(items: SItems) {
    match items
    case SNil => true
    case SNode(pre, _, mid, lead, v, post, next) =>
      Blanks(pre) && Blanks(mid) && Blanks(lead) && Blanks(post) && Spacing(v) && SpacingItems(next)
  }

  // The values that survive: integers of 32 bits, no empty containers, no quote or NUL in a
  // string or key.
  predicate Scoped(v: Value): (b: bool)
    ensures b ==> Printable(v)
  {
    match v
    case Null => true
    case Bool(_) => true
    case Str(s) => QUOTE !in s && 0 !in s
    case Cut => false
    case Num(d) => Int32(d)
    case Arr(items) => items.Node? && ScopedItems(items) && NoKeys(items)
    case Obj(items) => items.Node? && ScopedItems(items)
  }

  predicate ScopedItems(items: Items): (b: bool)
    ensures b ==> PrintableItems(items)
  {
    items.Node? ==> QUOTE !in items.key && 0 !in items.key && Scoped(items.value) && ScopedItems(items.next)
  }

  predicate NoKeys(items: Items) {
    items.Node? ==> items.key == [] && NoKeys(items.next)
  }

  function Shown(t: Spaced, fmt: real -> seq<Byte>): seq<Byte>
    requires Printable(Bare(t))
  {
    match t
    case Leaf(v) => Print(v, fmt)
    case SArr(items) => [OPEN_ARR] + ShownElems(items, fmt)
    case SObj(items) => [OPEN_OBJ] + ShownFields(items, fmt)
  }

  function ShownElems(items: SItems, fmt: real -> seq<Byte>): seq<Byte>
    requires PrintableItems(BareItems(items))
  {
    match items
    case SNil => [CLOSE_ARR]
    case SNode(_, _, _, lead, v, post, next) =>
      lead + (Shown(v, fmt) + (post + if next.SNil? then [CLOSE_ARR] else [COMMA] + ShownElems(next, fmt)))
  }

  function ShownFields(items: SItems, fmt: real -> seq<Byte>): seq<Byte>
    requires PrintableItems(BareItems(items))
    decreases items, 1
  {
    match items
    case SNil => [CLOSE_OBJ]
    case SNode(pre, key, mid, _, _, _, _) =>
      ShownKey(pre, CStr(key), mid) + ShownMember(items, fmt)
  }

  // The same without the first key.
  function ShownMember(items: SItems, fmt: real -> seq<Byte>): seq<Byte>
    requires items.SNode? && PrintableItems(BareItems(items))
    decreases items, 0
  {
    var SNode(_, _, _, lead, v, post, next) := items;
    lead + (Shown(v, fmt) + (post + if next.SNil? then [CLOSE_OBJ] else [COMMA] + ShownFields(next, fmt)))
  }

  function ShownKey(pre: seq<Byte>, key: seq<Byte>, mid: seq<Byte>): (r: seq<Byte>)
    ensures |r| == |pre| + |key| + |mid| + 3
  {
    pre + ([QUOTE] + (key + ([QUOTE] + (mid + [COLON]))))
  }

  // ----- Reading it back --------------------------------------------------------------

  predicate Delimiter(c: Byte) {
    Blank(c) || c == COMMA || c == CLOSE_ARR || c == CLOSE_OBJ || c == 0
  }

  // strtod reads back what "%d" printed.
  ghost predicate Reads(f: Strtod) {
    forall i: int, rest: seq<Byte> {:trigger f(Decimal(i) + rest)} ::
      INT_MIN <= i <= INT_MAX && rest != [] && Delimiter(rest[0]) ==> f(Decimal(i) + rest) == Some((i as real, |Decimal(i)|))
  }

  lemma {:induction false} SkipBlanks(data: seq<Byte>, end: nat, p: nat, s: seq<Byte>)
    requires end < |data| && Starts(data, p, s) && Blanks(s) && p + |s| <= end && !Blank(data[p + |s|])
    ensures Skip(data, end, p) == p + |s|
    decreases |s|
  {
    if s != [] {
      StartsSplit(data, p, [s[0]], s[1..]);
      assert [s[0]] + s[1..] == s;
      SkipBlanks(data, end, p + 1, s[1..]);
    }
  }

  lemma {:induction false} QuoteAt(data: seq<Byte>, end: nat, p: nat, s: seq<Byte>)
    requires end <= |data| && Starts(data, p, s) && QUOTE !in s && p + |s| < end && data[p + |s|] == QUOTE
    ensures CloseQuote(data, end, p) == p + |s|
    decreases |s|
  {
    if s != [] {
      StartsSplit(data, p, [s[0]], s[1..]);
      assert [s[0]] + s[1..] == s;
      QuoteAt(data, end, p + 1, s[1..]);
    }
  }

  lemma StringBack(t: seq<Byte>, data: seq<Byte>, end: nat, p: nat)
    requires Terminated(data, end) && QUOTE !in t
    requires Starts(data, p, [QUOTE] + t + [QUOTE]) && p + |t| + 2 <= end
    ensures StringAt(data, end, p) == Ok(Str(t), p + |t| + 2)
  {
    assert [QUOTE] + t + [QUOTE] == [QUOTE] + (t + [QUOTE]);
    StartsSplit(data, p, [QUOTE], t + [QUOTE]);
    StartsSplit(data, p + 1, t, [QUOTE]);
    At(data, p, QUOTE);
    At(data, p + 1 + |t|, QUOTE);
    QuoteAt(data, end, p + 1, t);
    assert data[p + 1..p + 1 + |t|] == t;
  }

  lemma SpecificBack(v: Value, fmt: real -> seq<Byte>, data: seq<Byte>, p: nat)
    requires v.Null? || v.Bool?
    requires Starts(data, p, Print(v, fmt))
    ensures SpecificAt(data, p) == Ok(v, p + |Print(v, fmt)|)
  {
    var s := Print(v, fmt);
    assert data[p + 0] == s[0];
    assert Starts(data, p, NULL_TEXT) ==> data[p + 0] == NULL_TEXT[0];
    assert Starts(data, p, TRUE_TEXT) ==> data[p + 0] == TRUE_TEXT[0];
  }

  lemma NumberBack(f: Strtod, d: real, fmt: real -> seq<Byte>, data: seq<Byte>, p: nat)
    requires Reads(f) && Int32(d)
    requires var q := p + |NumText(d, fmt)|; Starts(data, p, NumText(d, fmt)) && q < |data| && Delimiter(data[q])
    ensures NumberAt(f, data, p) == Ok(Num(d), p + |NumText(d, fmt)|)
  {
    IntText(d, fmt);
    var q := p + |NumText(d, fmt)|;
    assert data[p..] == NumText(d, fmt) + data[q..];
    assert f(Decimal(d.Floor) + data[q..]) == Some((d.Floor as real, |Decimal(d.Floor)|));
  }

  lemma LeafBack(f: Strtod, v: Value, fmt: real -> seq<Byte>, data: seq<Byte>, end: nat, p: nat)
    requires Terminated(data, end) && Reads(f) && Scoped(v) && !v.Arr? && !v.Obj?
    requires Starts(data, p, Print(v, fmt)) && p + |Print(v, fmt)| <= end
    requires v.Num? ==> Delimiter(data[p + |Print(v, fmt)|])
    ensures ValueAt(f, data, end, p) == Ok(v, p + |Print(v, fmt)|)
  {
    FirstOf(v, fmt);
    assert data[p + 0] == Print(v, fmt)[0];
    match v
    case Str(t) =>
      CStrNulFree(t);
      StringBack(t, data, end, p);
    case Num(d) =>
      NumberBack(f, d, fmt, data, p);
    case _ =>
      SpecificBack(v, fmt, data, p);
  }

  // The first byte of a printed value.
  lemma FirstOf(v: Value, fmt: real -> seq<Byte>)
    requires Scoped(v)
    ensures var s := Print(v, fmt);
      && |s| > 0 && !Blank(s[0])
      && (s[0] == QUOTE <==> v.Str?) && (s[0] == OPEN_OBJ <==> v.Obj?) && (s[0] == OPEN_ARR <==> v.Arr?)
      && (s[0] == MINUS || Digit(s[0]) <==> v.Num?)
  {
    match v
    case Num(d) => IntText(d, fmt);
    case _ =>
  }

  lemma ShownFirst(t: Spaced, fmt: real -> seq<Byte>)
    requires Spacing(t) && Scoped(Bare(t))
    ensures Shown(t, fmt) != [] && !Blank(Shown(t, fmt)[0])
  {
    if t.Leaf? {
      FirstOf(t.v, fmt);
    }
  }

  // White space in front of a value is skipped.
  lemma Leading(f: Strtod, data: seq<Byte>, end: nat, p: nat, lead: seq<Byte>)
    requires Terminated(data, end) && Blanks(lead) && Starts(data, p, lead) && p + |lead| <= end
    requires !Blank(data[p + |lead|])
    ensures ValueAt(f, data, end, p) == ValueAt(f, data, end, p + |lead|)
  {
    SkipBlanks(data, end, p, lead);
  }

  // The main result: however a well-scoped value is spaced, it is read back, and exactly its
  // text is consumed.
  lemma {:induction false} ValueBack(f: Strtod, t: Spaced, fmt: real -> seq<Byte>, data: seq<Byte>, end: nat, p: nat)
    requires Terminated(data, end) && Reads(f) && Spacing(t) && Scoped(Bare(t))
    requires Starts(data, p, Shown(t, fmt)) && p + |Shown(t, fmt)| <= end
    requires Bare(t).Num? ==> Delimiter(data[p + |Shown(t, fmt)|])
    ensures ValueAt(f, data, end, p) == Ok(Bare(t), p + |Shown(t, fmt)|)
    decreases t, 0
  {
    match t
    case Leaf(v) =>
      LeafBack(f, v, fmt, data, end, p);
    case SArr(items) =>
      Opened(data, p, OPEN_ARR, ShownElems(items, fmt));
      ElemsBack(f, items, fmt, data, end, p + 1);
      ArrBack(f, data, end, p, BareItems(items), p + 1 + |ShownElems(items, fmt)|);
    case SObj(items) =>
      Opened(data, p, OPEN_OBJ, ShownFields(items, fmt));
      FieldsBack(f, items, fmt, data, end, p + 1);
      ObjBack(f, data, end, p, BareItems(items), p + 1 + |ShownFields(items, fmt)|);
  }

  lemma ArrBack(f: Strtod, data: seq<Byte>, end: nat, p: nat, items: Items, q: nat)
    requires Terminated(data, end) && p < end && data[p] == OPEN_ARR && Elems(f, data, end, p + 1) == Ok(items, q)
    ensures ValueAt(f, data, end, p) == Ok(Arr(items), q)
  {
  }

  lemma ObjBack(f: Strtod, data: seq<Byte>, end: nat, p: nat, items: Items, q: nat)
    requires Terminated(data, end) && p < end && data[p] == OPEN_OBJ && Fields(f, data, end, p + 1) == Ok(items, q)
    ensures ValueAt(f, data, end, p) == Ok(Obj(items), q)
  {
  }

  lemma Opened(data: seq<Byte>, p: nat, open: Byte, text: seq<Byte>)
    requires Starts(data, p, [open] + text)
    ensures p < |data| && data[p] == open && Starts(data, p + 1, text)
  {
    StartsSplit(data, p, [open], text);
    At(data, p, open);
  }

  // The pieces of a text, one behind the other.
  lemma Pieces(data: seq<Byte>, p: nat, lead: seq<Byte>, text: seq<Byte>, post: seq<Byte>, sep: Byte, rest: seq<Byte>)
    requires Starts(data, p, lead + (text + (post + ([sep] + rest))))
    ensures var p1 := p + |lead|; var p2 := p1 + |text|; var e := p2 + |post|;
      && Starts(data, p, lead) && Starts(data, p1, text) && Starts(data, p2, post)
      && e < |data| && data[e] == sep && Starts(data, e + 1, rest)
  {
    var p1 := p + |lead|;
    var p2 := p1 + |text|;
    StartsSplit(data, p, lead, text + (post + ([sep] + rest)));
    StartsSplit(data, p1, text, post + ([sep] + rest));
    StartsSplit(data, p2, post, [sep] + rest);
    StartsSplit(data, p2 + |post|, [sep], rest);
    At(data, p2 + |post|, sep);
  }

  lemma ElemsLast(f: Strtod, data: seq<Byte>, end: nat, p: nat, v: Value, q: nat, e: nat)
    requires Terminated(data, end) && p < q <= e < end && Skip(data, end, q) == e && data[e] == CLOSE_ARR
    requires ValueAt(f, data, end, p) == Ok(v, q)
    ensures Elems(f, data, end, p) == Ok(Node([], v, Nil), e + 1)
  {
    assert Elems(f, data, end, p) == ElemsAfter(f, data, end, p, v, q);
  }

  lemma ElemsMore(f: Strtod, data: seq<Byte>, end: nat, p: nat, v: Value, q: nat, e: nat, rest: Items, stop: nat)
    requires Terminated(data, end) && p < q <= e < end && Skip(data, end, q) == e && data[e] == COMMA
    requires ValueAt(f, data, end, p) == Ok(v, q) && Elems(f, data, end, e + 1) == Ok(rest, stop)
    ensures Elems(f, data, end, p) == Ok(Node([], v, rest), stop)
  {
    assert Elems(f, data, end, p) == ElemsAfter(f, data, end, p, v, q);
  }

  lemma ElemsParts(items: SItems, fmt: real -> seq<Byte>) returns (sep: Byte, rest: seq<Byte>)
    requires items.SNode? && PrintableItems(BareItems(items))
    ensures ShownElems(items, fmt) == items.lead + (Shown(items.value, fmt) + (items.post + ([sep] + rest)))
    ensures if items.next.SNil? then sep == CLOSE_ARR && rest == [] else sep == COMMA && rest == ShownElems(items.next, fmt)
  {
    sep, rest := if items.next.SNil? then CLOSE_ARR else COMMA, if items.next.SNil? then [] else ShownElems(items.next, fmt);
  }

  lemma {:induction false} ElemsScope(items: SItems)
    requires items.SNode? && ScopedItems(BareItems(items)) && NoKeys(BareItems(items))
    ensures BareItems(items) == Node([], Bare(items.value), BareItems(items.next)) && Scoped(Bare(items.value))
    ensures ScopedItems(BareItems(items.next)) && NoKeys(BareItems(items.next))
  {
  }

  lemma {:induction false} ElemsBack(f: Strtod, items: SItems, fmt: real -> seq<Byte>, data: seq<Byte>, end: nat, p: nat)
    requires Terminated(data, end) && Reads(f) && items.SNode? && SpacingItems(items)
    requires ScopedItems(BareItems(items)) && NoKeys(BareItems(items))
    requires Starts(data, p, ShownElems(items, fmt)) && p + |ShownElems(items, fmt)| <= end
    ensures Elems(f, data, end, p) == Ok(BareItems(items), p + |ShownElems(items, fmt)|)
    decreases items, 1
  {
    var SNode(_, _, _, lead, v, post, next) := items;
    ElemsScope(items);
    var sep, rest := ElemsParts(items, fmt);
    var q, e := PieceBack(f, v, fmt, data, end, p, lead, post, sep, rest);
    var stop := p + |ShownElems(items, fmt)|;
    if next.SNil? {
      ElemsLast(f, data, end, p, Bare(v), q, e);
      assert e + 1 == stop;
    } else {
      ElemsBack(f, next, fmt, data, end, e + 1);
      ElemsMore(f, data, end, p, Bare(v), q, e, BareItems(next), stop);
    }
  }

  // The white space around a value, and the comma or bracket behind.
  lemma PieceAround(f: Strtod, data: seq<Byte>, end: nat, p: nat, lead: seq<Byte>, text: seq<Byte>, post: seq<Byte>, sep: Byte, rest: seq<Byte>)
    returns (p1: nat, q: nat, e: nat)
    requires Terminated(data, end) && text != [] && !Blank(text[0])
    requires Blanks(lead) && Blanks(post) && (sep == COMMA || sep == CLOSE_ARR || sep == CLOSE_OBJ)
    requires var s := lead + (text + (post + ([sep] + rest))); Starts(data, p, s) && p + |s| <= end
    ensures p <= p1 && q == p1 + |text| && q <= e < end && Starts(data, p1, text) && Delimiter(data[q])
    ensures ValueAt(f, data, end, p) == ValueAt(f, data, end, p1) && Skip(data, end, q) == e
    ensures data[e] == sep && Starts(data, e + 1, rest) && e + 1 + |rest| == p + |lead + (text + (post + ([sep] + rest)))|
  {
    Pieces(data, p, lead, text, post, sep, rest);
    p1, q, e := p + |lead|, p + |lead| + |text|, p + |lead| + |text| + |post|;
    assert data[p1 + 0] == text[0];
    Leading(f, data, end, p, lead);
    SkipBlanks(data, end, q, post);
    assert post != [] ==> data[q + 0] == post[0];
  }

  // The value between them.
  lemma {:induction false} PieceBack(f: Strtod, v: Spaced, fmt: real -> seq<Byte>, data: seq<Byte>, end: nat, p: nat, lead: seq<Byte>, post: seq<Byte>, sep: Byte, rest: seq<Byte>)
    returns (q: nat, e: nat)
    requires Terminated(data, end) && Reads(f) && Spacing(v) && Scoped(Bare(v))
    requires Blanks(lead) && Blanks(post) && (sep == COMMA || sep == CLOSE_ARR || sep == CLOSE_OBJ)
    requires var s := lead + (Shown(v, fmt) + (post + ([sep] + rest))); Starts(data, p, s) && p + |s| <= end
    ensures p < q <= e < end && ValueAt(f, data, end, p) == Ok(Bare(v), q) && Skip(data, end, q) == e
    ensures data[e] == sep && Starts(data, e + 1, rest)
    ensures e + 1 + |rest| == p + |lead + (Shown(v, fmt) + (post + ([sep] + rest)))|
    decreases v, 1
  {
    ShownFirst(v, fmt);
    var p1;
    p1, q, e := PieceAround(f, data, end, p, lead, Shown(v, fmt), post, sep, rest);
    ValueBack(f, v, fmt, data, end, p1);
  }

  lemma FieldsLast(f: Strtod, data: seq<Byte>, end: nat, key: seq<Byte>, p: nat, v: Value, q: nat, e: nat)
    requires Terminated(data, end) && p < q <= e < end && Skip(data, end, q) == e && data[e] == CLOSE_OBJ
    requires ValueAt(f, data, end, p) == Ok(v, q)
    ensures Member(f, data, end, key, p) == Ok(Node(key, v, Nil), e + 1)
  {
    assert Member(f, data, end, key, p) == FieldsAfter(f, data, end, p, key, v, q);
  }

  lemma FieldsMore(f: Strtod, data: seq<Byte>, end: nat, key: seq<Byte>, p: nat, v: Value, q: nat, e: nat, rest: Items, stop: nat)
    requires Terminated(data, end) && p < q <= e < end && Skip(data, end, q) == e && data[e] == COMMA
    requires ValueAt(f, data, end, p) == Ok(v, q) && Fields(f, data, end, e + 1) == Ok(rest, stop)
    ensures Member(f, data, end, key, p) == Ok(Node(key, v, rest), stop)
  {
    assert Member(f, data, end, key, p) == FieldsAfter(f, data, end, p, key, v, q);
  }

  lemma MemberParts(items: SItems, fmt: real -> seq<Byte>) returns (sep: Byte, rest: seq<Byte>)
    requires items.SNode? && PrintableItems(BareItems(items))
    ensures ShownMember(items, fmt) == items.lead + (Shown(items.value, fmt) + (items.post + ([sep] + rest)))
    ensures if items.next.SNil? then sep == CLOSE_OBJ && rest == [] else sep == COMMA && rest == ShownFields(items.next, fmt)
  {
    sep, rest := if items.next.SNil? then CLOSE_OBJ else COMMA, if items.next.SNil? then [] else ShownFields(items.next, fmt);
  }

  lemma {:induction false} MemberBack(f: Strtod, items: SItems, fmt: real -> seq<Byte>, data: seq<Byte>, end: nat, p: nat)
    requires Terminated(data, end) && Reads(f) && items.SNode? && SpacingItems(items)
    requires ScopedItems(BareItems(items))
    requires Starts(data, p, ShownMember(items, fmt)) && p + |ShownMember(items, fmt)| <= end
    ensures Member(f, data, end, items.key, p) == Ok(BareItems(items), p + |ShownMember(items, fmt)|)
    decreases items, 1
  {
    var SNode(_, key, _, lead, v, post, next) := items;
    var sep, rest := MemberParts(items, fmt);
    var q, e := PieceBack(f, v, fmt, data, end, p, lead, post, sep, rest);
    assert BareItems(items) == Node(key, Bare(v), BareItems(next));
    assert e + 1 + |rest| == p + |ShownMember(items, fmt)|;
    if next.SNil? {
      FieldsLast(f, data, end, key, p, Bare(v), q, e);
    } else {
      FieldsBack(f, next, fmt, data, end, e + 1);
      FieldsMore(f, data, end, key, p, Bare(v), q, e, BareItems(next), e + 1 + |rest|);
    }
  }

  lemma {:induction false} FieldsBack(f: Strtod, items: SItems, fmt: real -> seq<Byte>, data: seq<Byte>, end: nat, p: nat)
    requires Terminated(data, end) && Reads(f) && items.SNode? && SpacingItems(items)
    requires ScopedItems(BareItems(items))
    requires Starts(data, p, ShownFields(items, fmt)) && p + |ShownFields(items, fmt)| <= end
    ensures Fields(f, data, end, p) == Ok(BareItems(items), p + |ShownFields(items, fmt)|)
    decreases items, 2
  {
    var SNode(pre, key, mid, _, _, _, _) := items;
    CStrNulFree(key);
    var q := KeyThen(f, data, end, p, pre, key, mid, ShownMember(items, fmt));
    MemberBack(f, items, fmt, data, end, q);
  }

  lemma KeyThen(f: Strtod, data: seq<Byte>, end: nat, p: nat, pre: seq<Byte>, key: seq<Byte>, mid: seq<Byte>, text: seq<Byte>)
    returns (q: nat)
    requires Terminated(data, end) && Blanks(pre) && Blanks(mid) && QUOTE !in key
    requires var s := ShownKey(pre, key, mid) + text; Starts(data, p, s) && p + |s| <= end
    ensures q + |text| == p + |ShownKey(pre, key, mid) + text| && Starts(data, q, text)
    ensures Fields(f, data, end, p) == Member(f, data, end, key, q)
  {
    StartsSplit(data, p, ShownKey(pre, key, mid), text);
    q := p + |ShownKey(pre, key, mid)|;
    KeyBack(f, data, end, p, pre, key, mid);
  }

  lemma KeyPieces(data: seq<Byte>, p: nat, pre: seq<Byte>, key: seq<Byte>, mid: seq<Byte>) returns (q: nat, k: nat, c: nat)
    requires Starts(data, p, ShownKey(pre, key, mid))
    ensures q == p + |pre| && k == q + 1 + |key| && c == k + 1 + |mid| && c + 1 == p + |ShownKey(pre, key, mid)| <= |data|
    ensures Starts(data, p, pre) && data[q] == QUOTE && Starts(data, q + 1, key) && data[q + 1..k] == key && data[k] == QUOTE
    ensures Starts(data, k + 1, mid) && data[c] == COLON
  {
    q, k := p + |pre|, p + |pre| + 1 + |key|;
    c := k + 1 + |mid|;
    StartsSplit(data, p, pre, [QUOTE] + (key + ([QUOTE] + (mid + [COLON]))));
    StartsSplit(data, q, [QUOTE], key + ([QUOTE] + (mid + [COLON])));
    StartsSplit(data, q + 1, key, [QUOTE] + (mid + [COLON]));
    StartsSplit(data, k, [QUOTE], mid + [COLON]);
    StartsSplit(data, k + 1, mid, [COLON]);
    At(data, q, QUOTE);
    At(data, k, QUOTE);
    At(data, c, COLON);
  }

  lemma KeyBack(f: Strtod, data: seq<Byte>, end: nat, p: nat, pre: seq<Byte>, key: seq<Byte>, mid: seq<Byte>)
    requires Terminated(data, end) && Blanks(pre) && Blanks(mid) && QUOTE !in key
    requires Starts(data, p, ShownKey(pre, key, mid)) && p + |ShownKey(pre, key, mid)| <= end
    ensures Fields(f, data, end, p) == Member(f, data, end, key, p + |ShownKey(pre, key, mid)|)
  {
    var q, k, c := KeyPieces(data, p, pre, key, mid);
    assert Skip(data, end, p) == q by { SkipBlanks(data, end, p, pre); }
    assert CloseQuote(data, end, q + 1) == k by { QuoteAt(data, end, q + 1, key); }
    assert Skip(data, end, k + 1) == c by { SkipBlanks(data, end, k + 1, mid); }
    KeyStep(f, data, end, p, q, k, c);
  }

  lemma KeyStep(f: Strtod, data: seq<Byte>, end: nat, p: nat, q: nat, k: nat, c: nat)
    requires Terminated(data, end) && p <= q < k < c < end
    requires Skip(data, end, p) == q && data[q] == QUOTE && CloseQuote(data, end, q + 1) == k
    requires Skip(data, end, k + 1) == c && data[c] == COLON
    ensures Fields(f, data, end, p) == Member(f, data, end, data[q + 1..k], c + 1)
  {
    assert Fields(f, data, end, p) == KeyAt(f, data, end, q + 1);
    assert InKey(f, data, end, q + 1, q + 1) == AfterKey(f, data, end, data[q + 1..k], k + 1);
  }

  // With white space in front, too: the text of a value anywhere in the input.
  lemma RoundTrip(f: Strtod, t: Spaced, fmt: real -> seq<Byte>, data: seq<Byte>, end: nat, p: nat, lead: seq<Byte>)
    requires Terminated(data, end) && Reads(f) && Spacing(t) && Scoped(Bare(t)) && Blanks(lead)
    requires var s := lead + Shown(t, fmt);
      Starts(data, p, s) && p + |s| <= end && (Bare(t).Num? ==> Delimiter(data[p + |s|]))
    ensures ValueAt(f, data, end, p) == Ok(Bare(t), p + |lead| + |Shown(t, fmt)|)
  {
    StartsSplit(data, p, lead, Shown(t, fmt));
    var p1 := p + |lead|;
    ShownFirst(t, fmt);
    assert data[p1 + 0] == Shown(t, fmt)[0];
    Leading(f, data, end, p, lead);
    ValueBack(f, t, fmt, data, end, p1);
  }

  // The printer's own text is the one without white space.
  function Plain(v: Value): Spaced {
    match v
    case Arr(items) => SArr(PlainItems(items))
    case Obj(items) => SObj(PlainItems(items))
    case _ => Leaf(v)
  }

  function PlainItems(items: Items): SItems {
    match items
    case Nil => SNil
    case Node(k, v, next) => SNode([], k, [], [], Plain(v), [], PlainItems(next))
  }

  lemma {:induction false} PlainShown(v: Value, fmt: real -> seq<Byte>)
    requires Printable(v)
    ensures Spacing(Plain(v)) && Bare(Plain(v)) == v && Shown(Plain(v), fmt) == Print(v, fmt)
    decreases v, 1
  {
    match v
    case Arr(items) => PlainElems(items, fmt);
    case Obj(items) => PlainFields(items, fmt);
    case _ =>
  }

  lemma {:induction false} PlainElems(items: Items, fmt: real -> seq<Byte>)
    requires PrintableItems(items)
    ensures SpacingItems(PlainItems(items)) && BareItems(PlainItems(items)) == items
    ensures ShownElems(PlainItems(items), fmt) == PrintElems(items, fmt)
    decreases items, 0
  {
    if items.Node? {
      PlainShown(items.value, fmt);
      PlainElems(items.next, fmt);
    }
  }

  lemma {:induction false} PlainFields(items: Items, fmt: real -> seq<Byte>)
    requires PrintableItems(items)
    ensures SpacingItems(PlainItems(items)) && BareItems(PlainItems(items)) == items
    ensures ShownFields(PlainItems(items), fmt) == PrintFields(items, fmt)
    decreases items, 0
  {
    if items.Node? {
      PlainShown(items.value, fmt);
      PlainFields(items.next, fmt);
      KeyText(CStr(items.key), Print(items.value, fmt),
        if items.next.Nil? then [CLOSE_OBJ] else [COMMA] + PrintFields(items.next, fmt));
    }
  }

  lemma KeyText(key: seq<Byte>, text: seq<Byte>, tail: seq<Byte>)
    ensures ShownKey([], key, []) + ([] + (text + ([] + tail))) == [QUOTE] + (key + ([QUOTE] + ([COLON] + (text + tail))))
  {
    assert [] + (text + ([] + tail)) == text + tail;
    assert [] + ([QUOTE] + (key + ([QUOTE] + ([] + [COLON])))) == [QUOTE] + (key + ([QUOTE] + [COLON]));
  }

  // Reading what was printed gives the value back and consumes the whole text.
  lemma ParsePrint(f: Strtod, v: Value, fmt: real -> seq<Byte>)
    requires Reads(f) && Scoped(v)
    ensures var s := Print(v, fmt); ValueAt(f, s + [0], |s|, 0) == Ok(v, |s|)
  {
    PlainShown(v, fmt);
    var s := Print(v, fmt);
    assert forall i {:trigger s[i]} :: 0 <= i < |s| ==> (s + [0])[0 + i] == s[i];
    ValueBack(f, Plain(v), fmt, s + [0], |s|, 0);
  }

  // Different values have different texts.
  lemma PrintInjective(f: Strtod, v: Value, w: Value, fmt: real -> seq<Byte>)
    requires Reads(f) && Scoped(v) && Scoped(w) && Print(v, fmt) == Print(w, fmt)
    ensures v == w
  {
    ParsePrint(f, v, fmt);
    ParsePrint(f, w, fmt);
  }

  // Empty containers do not survive: an opening bracket must be followed by a value.
  lemma EmptyArrayFails(f: Strtod, fmt: real -> seq<Byte>)
    ensures ValueAt(f, Print(Arr(Nil), fmt) + [0], 2, 0) == Err(1)
  {
    var data := Print(Arr(Nil), fmt) + [0];
    assert data == [OPEN_ARR, CLOSE_ARR, 0];
    assert forall s :: s == NULL_TEXT || s == TRUE_TEXT || s == FALSE_TEXT ==> !Starts(data, 1, s);
  }

  // ----- A strtod that keeps the promise ----------------------------------------------

  // The number of digits in front.
  function Run(s: seq<Byte>): (n: nat)
    ensures n <= |s| && forall i :: 0 <= i < n ==> Digit(s[i])
  {
    if s == [] || !Digit(s[0]) then 0 else 1 + Run(s[1..])
  }

  function NatOf(s: seq<Byte>): int {
    if s == [] then 0 else NatOf(s[..|s| - 1]) * 10 + s[|s| - 1] - 48
  }

  // The digits in front: their value and how many there are.
  function Natural(s: seq<Byte>): Option<(int, nat)> {
    var n := Run(s);
    if n == 0 then None else Some((NatOf(s[..n]), n))
  }

  function DecimalStrtod(s: seq<Byte>): Option<(real, nat)> {
    if s != [] && s[0] == MINUS then
      match Natural(s[1..])
      case None => None
      case Some((v, n)) => Some(((-v) as real, n + 1))
    else
      match Natural(s)
      case None => None
      case Some((v, n)) => Some((v as real, n))
  }

  lemma {:induction false} DigitsValue(n: nat)
    ensures NatOf(Digits(n)) == n
  {
    if n >= 10 {
      DigitsValue(n / 10);
      assert Digits(n)[..|Digits(n)| - 1] == Digits(n / 10);
    }
  }

  lemma {:induction false} RunOf(d: seq<Byte>, rest: seq<Byte>)
    requires (forall i :: 0 <= i < |d| ==> Digit(d[i])) && rest != [] && !Digit(rest[0])
    ensures Run(d + rest) == |d|
  {
    if d == [] {
      assert d + rest == rest;
    } else {
      RunOf(d[1..], rest);
      assert (d + rest)[1..] == d[1..] + rest;
    }
  }

  lemma DigitsRead(n: nat, rest: seq<Byte>)
    requires rest != [] && !Digit(rest[0])
    ensures Natural(Digits(n) + rest) == Some((n, |Digits(n)|)) && (Digits(n) + rest)[0] != MINUS
  {
    var d := Digits(n);
    DigitsValue(n);
    RunOf(d, rest);
    assert (d + rest)[..|d|] == d && (d + rest)[0] == d[0];
  }

  lemma DecimalRead(i: int, rest: seq<Byte>)
    requires rest != [] && !Digit(rest[0])
    ensures DecimalStrtod(Decimal(i) + rest) == Some((i as real, |Decimal(i)|))
  {
    if i < 0 {
      MinusRead(i, rest);
    } else {
      DigitsRead(i, rest);
    }
  }

  lemma MinusRead(i: int, rest: seq<Byte>)
    requires i < 0 && rest != [] && !Digit(rest[0])
    ensures DecimalStrtod([MINUS] + Digits(-i) + rest) == Some((i as real, |Digits(-i)| + 1))
  {
    var s := [MINUS] + Digits(-i) + rest;
    DigitsRead(-i, rest);
    assert s[0] == MINUS && s[1..] == Digits(-i) + rest;
  }

  lemma DecimalStops(s: seq<Byte>)
    requires DecimalStrtod(s).Some?
    ensures var n := DecimalStrtod(s).value.1; 0 < n <= |s| && 0 !in s[..n]
  {
  }

  lemma DecimalReads()
    ensures StopsAtNul(DecimalStrtod) && Reads(DecimalStrtod)
  {
    forall s: seq<Byte> | DecimalStrtod(s).Some?
      ensures var n := DecimalStrtod(s).value.1; 0 < n <= |s| && 0 !in s[..n]
    {
      DecimalStops(s);
    }
    forall i: int, rest: seq<Byte> | INT_MIN <= i <= INT_MAX && rest != [] && Delimiter(rest[0])
      ensures DecimalStrtod(Decimal(i) + rest) == Some((i as real, |Decimal(i)|))
    {
      DecimalRead(i, rest);
    }
  }
}
