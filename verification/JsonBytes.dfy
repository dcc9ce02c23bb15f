// Which bytes stand for what: the reader and the printer of stu_json.c, each on its own.
module JsonBytes {
  import opened Bytes
  import opened Json
  import opened JsonText

  // ----- The reader: white space, names, strings and numbers --------------------------

  lemma {:induction false} SkipIs(data: seq<Byte>, end: nat, p: nat, q: nat)
    requires p <= q <= end <= |data|
    requires forall j :: p <= j < q ==> data[j] == 9 || data[j] == 10 || data[j] == 13 || data[j] == 32
    requires q < end ==> data[q] != 9 && data[q] != 10 && data[q] != 13 && data[q] != 32
    ensures Skip(data, end, p) == q
    decreases q - p
  {
    if p < q {
      SkipIs(data, end, p + 1, q);
    }
  }

  // A value begins behind the white space.
  lemma ValueFrom(f: Strtod, data: seq<Byte>, end: nat, p: nat, q: nat)
    requires Terminated(data, end) && p <= q <= end
    requires forall j :: p <= j < q ==> data[j] == 9 || data[j] == 10 || data[j] == 13 || data[j] == 32
    requires data[q] != 9 && data[q] != 10 && data[q] != 13 && data[q] != 32
    ensures ValueAt(f, data, end, p) == ValueAt(f, data, end, q)
  {
    SkipIs(data, end, p, q);
    SkipIs(data, end, q, q);
  }

  lemma NamesRead(f: Strtod, data: seq<Byte>, end: nat, q: nat)
    requires Terminated(data, end) && q <= end
    ensures q + 4 <= |data| && data[q..q + 4] == [110, 117, 108, 108] ==> ValueAt(f, data, end, q) == Ok(Null, q + 4)
    ensures q + 4 <= |data| && data[q..q + 4] == [116, 114, 117, 101] ==> ValueAt(f, data, end, q) == Ok(Bool(true), q + 4)
    ensures q + 5 <= |data| && data[q..q + 5] == [102, 97, 108, 115, 101] ==> ValueAt(f, data, end, q) == Ok(Bool(false), q + 5)
  {
    SpellsOut(data, q, NULL_TEXT, [110, 117, 108, 108]);
    SpellsOut(data, q, TRUE_TEXT, [116, 114, 117, 101]);
    SpellsOut(data, q, FALSE_TEXT, [102, 97, 108, 115, 101]);
  }

  lemma SpellsOut(data: seq<Byte>, q: nat, name: seq<Byte>, s: seq<Byte>)
    requires name == s && s != [] && q <= |data|
    ensures Starts(data, q, name) <==> q + |s| <= |data| && data[q..q + |s|] == s
    ensures Starts(data, q, name) ==> data[q] == s[0]
  {
    if Starts(data, q, name) {
      assert data[q + 0] == s[0];
      assert data[q..q + |s|] == s;
    }
  }

  // Nothing else is a name.
  lemma OtherNamesFail(f: Strtod, data: seq<Byte>, end: nat, q: nat)
    requires Terminated(data, end) && q <= end && data[q] != 9 && data[q] != 10 && data[q] != 13 && data[q] != 32
    requires data[q] != 34 && data[q] != 45 && data[q] != 91 && data[q] != 123 && !(48 <= data[q] <= 57)
    requires q + 4 <= |data| ==> data[q..q + 4] != [110, 117, 108, 108] && data[q..q + 4] != [116, 114, 117, 101]
    requires q + 5 <= |data| ==> data[q..q + 5] != [102, 97, 108, 115, 101]
    ensures ValueAt(f, data, end, q) == Err(q)
  {
    SpellsOut(data, q, NULL_TEXT, [110, 117, 108, 108]);
    SpellsOut(data, q, TRUE_TEXT, [116, 114, 117, 101]);
    SpellsOut(data, q, FALSE_TEXT, [102, 97, 108, 115, 101]);
  }

  lemma {:induction false} CloseQuoteIs(data: seq<Byte>, end: nat, p: nat, k: nat)
    requires p <= k <= end <= |data| && (forall j :: p <= j < k ==> data[j] != 34) && (k < end ==> data[k] == 34)
    ensures CloseQuote(data, end, p) == k
    decreases k - p
  {
    if p < k {
      CloseQuoteIs(data, end, p + 1, k);
    }
  }

  // A string reaches up to the next quote; one that the input ends in has no value.
  lemma StringRead(f: Strtod, data: seq<Byte>, end: nat, q: nat, k: nat)
    requires Terminated(data, end) && q < k <= end && data[q] == 34 && (forall j :: q < j < k ==> data[j] != 34)
    requires k < end ==> data[k] == 34
    ensures ValueAt(f, data, end, q) == if k < end then Ok(Str(data[q + 1..k]), k + 1) else Ok(Cut, end)
  {
    CloseQuoteIs(data, end, q + 1, k);
  }

  lemma NumberRead(f: Strtod, data: seq<Byte>, end: nat, q: nat)
    requires Terminated(data, end) && q <= end && (data[q] == 45 || 48 <= data[q] <= 57)
    ensures match f(data[q..])
      case None => ValueAt(f, data, end, q) == Err(q)
      case Some((d, n)) => ValueAt(f, data, end, q) == Ok(Num(d), q + n)
  {
  }

  // ----- The reader: arrays and objects -----------------------------------------------

  // An element at p and what comes behind it, at e: the bracket, a comma and the next element,
  // the end of the input, or an error.
  lemma ElemRead(f: Strtod, data: seq<Byte>, end: nat, p: nat, v: Value, q: nat, e: nat)
    requires Terminated(data, end) && p < end && ValueAt(f, data, end, p) == Ok(v, q) && q <= e <= end
    requires forall j :: q <= j < e ==> data[j] == 9 || data[j] == 10 || data[j] == 13 || data[j] == 32
    requires e < end ==> data[e] != 9 && data[e] != 10 && data[e] != 13 && data[e] != 32
    ensures var r := Elems(f, data, end, p);
      if e == end || data[e] == 93 then r == Ok(Node([], v, Nil), e + 1)
      else if data[e] == 44 then
        match Elems(f, data, end, e + 1)
        case Ok(rest, stop) => r == Ok(Node([], v, rest), stop)
        case Err(at) => r == Err(at)
      else r == Err(e)
  {
    SkipIs(data, end, q, e);
    assert Elems(f, data, end, p) == ElemsAfter(f, data, end, p, v, q);
  }

  // "[v, w]", with any white space around v and w: an array of both.
  lemma ArrayRead(f: Strtod, data: seq<Byte>, end: nat, p: nat, v: Value, q: nat, e: nat, w: Value, t: nat, c: nat)
    requires Terminated(data, end) && p < end && data[p] == 91
    requires ValueAt(f, data, end, p + 1) == Ok(v, q) && q <= e < end && data[e] == 44
    requires ValueAt(f, data, end, e + 1) == Ok(w, t) && t <= c < end && data[c] == 93
    requires forall j :: q <= j < e ==> data[j] == 9 || data[j] == 10 || data[j] == 13 || data[j] == 32
    requires forall j :: t <= j < c ==> data[j] == 9 || data[j] == 10 || data[j] == 13 || data[j] == 32
    ensures ValueAt(f, data, end, p) == Ok(Arr(Node([], v, Node([], w, Nil))), c + 1)
  {
    assert Elems(f, data, end, e + 1) == Ok(Node([], w, Nil), c + 1) by {
      ElemRead(f, data, end, e + 1, w, t, c);
    }
    assert Elems(f, data, end, p + 1) == Ok(Node([], v, Node([], w, Nil)), c + 1) by {
      ElemRead(f, data, end, p + 1, v, q, e);
    }
    ArrBack(f, data, end, p, Node([], v, Node([], w, Nil)), c + 1);
  }

  // A key at o + 1..k, its colon at c, its value in front of q, and what comes behind it, at e.
  lemma MemberRead(
    f: Strtod, data: seq<Byte>, end: nat, p: nat, o: nat, k: nat, c: nat, v: Value, q: nat, e: nat)
    requires Terminated(data, end) && p <= o < k < c < q <= e <= end && data[o] == 34 == data[k] && data[c] == 58
    requires forall j :: o < j < k ==> data[j] != 34
    requires forall j :: p <= j < o || k < j < c || q <= j < e ==> data[j] == 9 || data[j] == 10 || data[j] == 13 || data[j] == 32
    requires e < end ==> data[e] != 9 && data[e] != 10 && data[e] != 13 && data[e] != 32
    requires ValueAt(f, data, end, c + 1) == Ok(v, q)
    ensures var r, key := Fields(f, data, end, p), data[o + 1..k];
      if e == end || data[e] == 125 then r == Ok(Node(key, v, Nil), e + 1)
      else if data[e] == 44 then
        match Fields(f, data, end, e + 1)
        case Ok(rest, stop) => r == Ok(Node(key, v, rest), stop)
        case Err(at) => r == Err(at)
      else r == Err(e)
  {
    SkipIs(data, end, p, o);
    CloseQuoteIs(data, end, o + 1, k);
    SkipIs(data, end, k + 1, c);
    KeyStep(f, data, end, p, o, k, c);
    SkipIs(data, end, q, e);
    assert Member(f, data, end, data[o + 1..k], c + 1) == FieldsAfter(f, data, end, c + 1, data[o + 1..k], v, q);
  }

  // An object of one member; more of them follow commas.
  lemma ObjectRead(f: Strtod, data: seq<Byte>, end: nat, p: nat, o: nat, k: nat, c: nat, v: Value, q: nat, e: nat)
    requires Terminated(data, end) && p < o < k < c < q <= e < end && data[p] == 123 && data[e] == 125
    requires data[o] == 34 == data[k] && data[c] == 58 && forall j :: o < j < k ==> data[j] != 34
    requires forall j :: p < j < o || k < j < c || q <= j < e ==> data[j] == 9 || data[j] == 10 || data[j] == 13 || data[j] == 32
    requires ValueAt(f, data, end, c + 1) == Ok(v, q)
    ensures ValueAt(f, data, end, p) == Ok(Obj(Node(data[o + 1..k], v, Nil)), e + 1)
  {
    MemberRead(f, data, end, p + 1, o, k, c, v, q, e);
  }

  // What an array or an object must have behind its bracket, and an object behind its comma.
  lemma BracketNeeds(f: Strtod, data: seq<Byte>, end: nat, p: nat, q: nat)
    requires Terminated(data, end) && p < q <= end
    requires forall j :: p < j < q ==> data[j] == 9 || data[j] == 10 || data[j] == 13 || data[j] == 32
    requires q < end ==> data[q] != 9 && data[q] != 10 && data[q] != 13 && data[q] != 32
    ensures data[p] == 91 && ValueAt(f, data, end, p + 1).Err? && p + 1 < end ==>
      ValueAt(f, data, end, p) == Err(ValueAt(f, data, end, p + 1).at)
    ensures data[p] == 91 && p + 1 == end ==> ValueAt(f, data, end, p) == Ok(Arr(Nil), end)
    ensures data[p] == 123 && q < end && data[q] != 34 ==> ValueAt(f, data, end, p) == Err(q)
    ensures data[p] == 123 && q == end ==> ValueAt(f, data, end, p) == Ok(Obj(Nil), end)
  {
    SkipIs(data, end, p + 1, q);
  }

  // ----- The printer ------------------------------------------------------------------

  lemma NamesPrinted(s: seq<Byte>, fmt: real -> seq<Byte>)
    ensures Print(Null, fmt) == [110, 117, 108, 108]
    ensures Print(Bool(true), fmt) == [116, 114, 117, 101] && Print(Bool(false), fmt) == [102, 97, 108, 115, 101]
    ensures Print(Str(s), fmt) == [34] + CStr(s) + [34]
  {
  }

  // Decimal digits, without leading zeros, behind a minus sign.
  lemma DecimalIs(i: int)
    ensures 0 <= i < 10 ==> Decimal(i) == [48 + i]
    ensures i >= 10 ==> Decimal(i) == Decimal(i / 10) + [48 + i % 10]
    ensures i < 0 ==> Decimal(i) == [45] + Decimal(-i)
  {
  }

  // Integers of 32 bits are printed in decimal, and so is a number that is as close to one
  // as the smallest step above 1; any other number is left to the formats.
  lemma NumberPrinted(d: real, n: nat, fmt: real -> seq<Byte>)
    requires n as real <= (if d < 0.0 then -d else d) < (n + 1) as real
    ensures var i: int, s := if d < 0.0 then 0 - n else n, Print(Num(d), fmt);
      if -2147483648.0 <= d <= 2147483647.0 && (if d < 0.0 then -d else d) - n as real <= 1.0 / 4503599627370496.0
      then s == Decimal(i) else s == fmt(d)
  {
    assert (if d < 0.0 then -d else d).Floor == n;
    assert Trunc(d) == if d < 0.0 then 0 - n else n;
  }

  // Arrays: brackets around the elements, and commas between them.
  lemma ArrayPrinted(k: seq<Byte>, v: Value, fmt: real -> seq<Byte>)
    requires Printable(v)
    ensures Print(Arr(Nil), fmt) == [91, 93]
    ensures Printable(Arr(Node(k, v, Nil))) && Print(Arr(Node(k, v, Nil)), fmt) == [91] + Print(v, fmt) + [93]
  {
  }

  lemma {:induction false} ConcatPrintable(a: Items, b: Items)
    requires PrintableItems(a) && PrintableItems(b)
    ensures PrintableItems(Concat(a, b))
  {
    if a.Node? {
      ConcatPrintable(a.next, b);
    }
  }

  lemma Spliced(h: seq<Byte>, r: seq<Byte>, t: seq<Byte>)
    requires r != []
    ensures var s := h + ([44] + r); s[..|s| - 1] + [44] + t == h + ([44] + (r[..|r| - 1] + [44] + t))
  {
    assert (h + ([44] + r))[..|h| + |r|] == h + ([44] + r[..|r| - 1]);
  }

  lemma {:induction false} ArraysJoined(a: Items, b: Items, fmt: real -> seq<Byte>)
    requires a.Node? && b.Node? && PrintableItems(a) && PrintableItems(b)
    ensures PrintableItems(Concat(a, b))
    ensures var s, t := Print(Arr(a), fmt), Print(Arr(b), fmt);
      Print(Arr(Concat(a, b)), fmt) == s[..|s| - 1] + [44] + t[1..]
  {
    ConcatPrintable(a, b);
    ElemsJoined(a, b, fmt);
    var s := Print(Arr(a), fmt);
    assert s[..|s| - 1] == [91] + PrintElems(a, fmt)[..|PrintElems(a, fmt)| - 1];
    assert Print(Arr(b), fmt)[1..] == PrintElems(b, fmt);
  }

  lemma {:induction false} ElemsJoined(a: Items, b: Items, fmt: real -> seq<Byte>)
    requires a.Node? && b.Node? && PrintableItems(a) && PrintableItems(b)
    ensures PrintableItems(Concat(a, b))
    ensures var s := PrintElems(a, fmt); |s| > 0 && PrintElems(Concat(a, b), fmt) == s[..|s| - 1] + [44] + PrintElems(b, fmt)
  {
    ConcatPrintable(a, b);
    var v, t := Print(a.value, fmt), PrintElems(b, fmt);
    if a.next.Nil? {
      assert (v + [93])[..|v|] == v;
      assert Concat(a.next, b) == b;
    } else {
      ElemsJoined(a.next, b, fmt);
      var r := PrintElems(a.next, fmt);
      Spliced(v, r, t);
    }
  }

  // Objects: braces, and each value behind its key in quotes and a colon.
  lemma ObjectPrinted(k: seq<Byte>, v: Value, fmt: real -> seq<Byte>)
    requires Printable(v)
    ensures Print(Obj(Nil), fmt) == [123, 125]
    ensures Printable(Obj(Node(k, v, Nil)))
    ensures Print(Obj(Node(k, v, Nil)), fmt) == [123, 34] + CStr(k) + [34, 58] + Print(v, fmt) + [125]
  {
  }

  lemma {:induction false} ObjectsJoined(a: Items, b: Items, fmt: real -> seq<Byte>)
    requires a.Node? && b.Node? && PrintableItems(a) && PrintableItems(b)
    ensures PrintableItems(Concat(a, b))
    ensures var s, t := Print(Obj(a), fmt), Print(Obj(b), fmt);
      Print(Obj(Concat(a, b)), fmt) == s[..|s| - 1] + [44] + t[1..]
  {
    ConcatPrintable(a, b);
    FieldsJoined(a, b, fmt);
    var s := Print(Obj(a), fmt);
    assert s[..|s| - 1] == [123] + PrintFields(a, fmt)[..|PrintFields(a, fmt)| - 1];
    assert Print(Obj(b), fmt)[1..] == PrintFields(b, fmt);
  }

  lemma {:induction false} FieldsJoined(a: Items, b: Items, fmt: real -> seq<Byte>)
    requires a.Node? && b.Node? && PrintableItems(a) && PrintableItems(b)
    ensures PrintableItems(Concat(a, b))
    ensures var s := PrintFields(a, fmt); |s| > 0 && PrintFields(Concat(a, b), fmt) == s[..|s| - 1] + [44] + PrintFields(b, fmt)
  {
    ConcatPrintable(a, b);
    var h := FieldHead(a, fmt);
    var t := PrintFields(b, fmt);
    if a.next.Nil? {
      assert (h + [125])[..|h|] == h;
      assert Concat(a.next, b) == b;
      var _ := FieldHead(Concat(a, b), fmt);
    } else {
      FieldsJoined(a.next, b, fmt);
      var r := PrintFields(a.next, fmt);
      Spliced(h, r, t);
      var _ := FieldHead(Concat(a, b), fmt);
    }
  }

  lemma FieldHead(items: Items, fmt: real -> seq<Byte>) returns (h: seq<Byte>)
    requires items.Node? && PrintableItems(items)
    ensures h == [34] + (CStr(items.key) + ([34] + ([58] + Print(items.value, fmt))))
    ensures PrintFields(items, fmt) == h + if items.next.Nil? then [125] else [44] + PrintFields(items.next, fmt)
  {
    h := [34] + (CStr(items.key) + ([34] + ([58] + Print(items.value, fmt))));
  }
}
