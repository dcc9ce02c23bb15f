// Exactly which values the reader of stu_json.c recovers from the printer's text.
module JsonScope {
  import opened Bytes
  import opened Json
  import opened JsonText

  // Values with a text in the first place, whose numbers are integers of 32 bits and whose
  // array elements have no keys.
  predicate Base(v: Value): (b: bool)
    ensures b ==> Printable(v)
  {
    match v
    case Cut => false
    case Num(d) => Int32(d)
    case Arr(items) => BaseItems(items) && NoKeys(items)
    case Obj(items) => BaseItems(items)
    case _ => true
  }

  predicate BaseItems(items: Items): (b: bool)
    ensures b ==> PrintableItems(items)
  {
    items.Node? ==> Base(items.value) && BaseItems(items.next)
  }

  predicate CleanText(s: seq<Byte>) {
    QUOTE !in s && 0 !in s
  }

  // No quote and no NUL in any string or key.
  predicate Clean(v: Value) {
    match v
    case Str(s) => CleanText(s)
    case Arr(items) => CleanItems(items)
    case Obj(items) => CleanItems(items)
    case _ => true
  }

  predicate CleanItems(items: Items) {
    items.Node? ==> CleanText(items.key) && Clean(items.value) && CleanItems(items.next)
  }

  // No container without children.
  predicate Full(v: Value) {
    match v
    case Arr(items) => items.Node? && FullItems(items)
    case Obj(items) => items.Node? && FullItems(items)
    case _ => true
  }

  predicate FullItems(items: Items) {
    items.Node? ==> Full(items.value) && FullItems(items.next)
  }

  lemma {:induction false} ScopeParts(v: Value)
    ensures Scoped(v) <==> Base(v) && Clean(v) && Full(v)
  {
    match v
    case Arr(items) => ScopePartsItems(items);
    case Obj(items) => ScopePartsItems(items);
    case _ =>
  }

  lemma {:induction false} ScopePartsItems(items: Items)
    ensures ScopedItems(items) <==> BaseItems(items) && CleanItems(items) && FullItems(items)
  {
    if items.Node? {
      ScopeParts(items.value);
      ScopePartsItems(items.next);
    }
  }

  // ----- The reader only makes clean values -------------------------------------------

  lemma CleanSlice(data: seq<Byte>, end: nat, s: nat, k: nat)
    requires end <= |data| && 0 !in data[..end] && s <= end && k == CloseQuote(data, end, s)
    ensures CleanText(data[s..k])
  {
    forall i | 0 <= i < k - s ensures data[s..k][i] != QUOTE && data[s..k][i] != 0 {
      assert data[s..k][i] == data[..end][s + i];
    }
  }

  lemma {:induction false} CleanValue(f: Strtod, data: seq<Byte>, end: nat, p: nat)
    requires Terminated(data, end) && p <= end && 0 !in data[..end]
    ensures ValueAt(f, data, end, p).Ok? ==> Clean(ValueAt(f, data, end, p).value)
    decreases end - p, 2
  {
    var q := Skip(data, end, p);
    var c := data[q];
    if c == QUOTE {
      CleanSlice(data, end, q + 1, CloseQuote(data, end, q + 1));
    } else if c == OPEN_OBJ {
      CleanFields(f, data, end, q + 1);
    } else if c == OPEN_ARR {
      CleanElems(f, data, end, q + 1);
    }
  }

  lemma {:induction false} CleanElems(f: Strtod, data: seq<Byte>, end: nat, p: nat)
    requires Terminated(data, end) && p <= end && 0 !in data[..end]
    ensures Elems(f, data, end, p).Ok? ==> CleanItems(Elems(f, data, end, p).value)
    decreases end - p, 3
  {
    if p < end && ValueAt(f, data, end, p).Ok? {
      CleanValue(f, data, end, p);
      var e := Skip(data, end, ValueAt(f, data, end, p).pos);
      if e < end && data[e] == COMMA {
        CleanElems(f, data, end, e + 1);
      }
    }
  }

  lemma {:induction false} CleanFields(f: Strtod, data: seq<Byte>, end: nat, p: nat)
    requires Terminated(data, end) && p <= end && 0 !in data[..end]
    ensures Fields(f, data, end, p).Ok? ==> CleanItems(Fields(f, data, end, p).value)
    decreases end - p, 7
  {
    var q := Skip(data, end, p);
    if q < end && data[q] == QUOTE {
      assert Fields(f, data, end, p) == InKey(f, data, end, q + 1, q + 1) by {
        assert Fields(f, data, end, p) == KeyAt(f, data, end, q + 1);
      }
      var k := CloseQuote(data, end, q + 1);
      if k < end {
        CleanSlice(data, end, q + 1, k);
        CleanAfterKey(f, data, end, data[q + 1..k], k + 1);
      }
    }
  }

  lemma {:induction false} CleanAfterKey(f: Strtod, data: seq<Byte>, end: nat, key: seq<Byte>, p: nat)
    requires Terminated(data, end) && p <= end && 0 !in data[..end] && CleanText(key)
    ensures AfterKey(f, data, end, key, p).Ok? ==> CleanItems(AfterKey(f, data, end, key, p).value)
    decreases end - p, 4
  {
    var c := Skip(data, end, p);
    if c < end && data[c] == COLON && c + 1 < end && ValueAt(f, data, end, c + 1).Ok? {
      CleanValue(f, data, end, c + 1);
      var Ok(v, q) := ValueAt(f, data, end, c + 1);
      assert AfterKey(f, data, end, key, p) == FieldsAfter(f, data, end, c + 1, key, v, q) by {
        assert AfterKey(f, data, end, key, p) == Member(f, data, end, key, c + 1);
      }
      var e := Skip(data, end, q);
      if e < end && data[e] == COMMA {
        CleanFields(f, data, end, e + 1);
      }
    }
  }

  // ----- An empty container is an error -----------------------------------------------

  lemma {:induction false} EmptyFails(f: Strtod, v: Value, fmt: real -> seq<Byte>, data: seq<Byte>, end: nat, p: nat)
    requires Terminated(data, end) && Reads(f) && Base(v) && Clean(v) && !Full(v)
    requires Starts(data, p, Print(v, fmt)) && p + |Print(v, fmt)| <= end
    ensures ValueAt(f, data, end, p).Err?
    decreases v, 0
  {
    match v
    case Arr(items) =>
      StartsSplit(data, p, [OPEN_ARR], PrintElems(items, fmt));
      At(data, p, OPEN_ARR);
      EmptyElems(f, items, fmt, data, end, p + 1);
    case Obj(items) =>
      StartsSplit(data, p, [OPEN_OBJ], PrintFields(items, fmt));
      At(data, p, OPEN_OBJ);
      EmptyFields(f, items, fmt, data, end, p + 1);
  }

  lemma NoSpecific(data: seq<Byte>, p: nat)
    requires p < |data| && data[p] == CLOSE_ARR
    ensures SpecificAt(data, p) == Err(p)
  {
    assert data[p + 0] != NULL_TEXT[0] && data[p + 0] != TRUE_TEXT[0] && data[p + 0] != FALSE_TEXT[0];
  }

  lemma HeadPieces(data: seq<Byte>, end: nat, p: nat, text: seq<Byte>, sep: Byte, rest: seq<Byte>) returns (q: nat)
    requires end < |data| && (sep == COMMA || sep == CLOSE_ARR || sep == CLOSE_OBJ)
    requires Starts(data, p, text + ([sep] + rest)) && p + |text| + 1 + |rest| <= end
    ensures q == p + |text| && q < end && Starts(data, p, text)
    ensures data[q] == sep && Skip(data, end, q) == q && Starts(data, q + 1, rest)
  {
    q := p + |text|;
    StartsSplit(data, p, text, [sep] + rest);
    StartsSplit(data, q, [sep], rest);
    At(data, q, sep);
  }

  // A printed value and what follows it.
  lemma {:induction false} HeadBack(f: Strtod, v: Value, fmt: real -> seq<Byte>, data: seq<Byte>, end: nat, p: nat, sep: Byte, rest: seq<Byte>)
    returns (q: nat)
    requires Terminated(data, end) && Reads(f) && Base(v) && Clean(v)
    requires sep == COMMA || sep == CLOSE_ARR || sep == CLOSE_OBJ
    requires Starts(data, p, Print(v, fmt) + ([sep] + rest)) && p + |Print(v, fmt)| + 1 + |rest| <= end
    ensures if Full(v) then p < q < end && ValueAt(f, data, end, p) == Ok(v, q) else ValueAt(f, data, end, p).Err?
    ensures q == p + |Print(v, fmt)| && data[q] == sep && Skip(data, end, q) == q && Starts(data, q + 1, rest)
    decreases v, 1
  {
    q := HeadPieces(data, end, p, Print(v, fmt), sep, rest);
    if Full(v) {
      ScopeParts(v);
      PlainShown(v, fmt);
      ValueBack(f, Plain(v), fmt, data, end, p);
    } else {
      EmptyFails(f, v, fmt, data, end, p);
    }
  }

  lemma {:induction false} EmptyElems(f: Strtod, items: Items, fmt: real -> seq<Byte>, data: seq<Byte>, end: nat, p: nat)
    requires Terminated(data, end) && Reads(f) && BaseItems(items) && CleanItems(items)
    requires items.Nil? || !FullItems(items)
    requires Starts(data, p, PrintElems(items, fmt)) && p + |PrintElems(items, fmt)| <= end
    ensures Elems(f, data, end, p).Err?
    decreases items, 1
  {
    match items
    case Nil =>
      At(data, p, CLOSE_ARR);
      NoElems(f, data, end, p);
    case Node(_, v, next) =>
      var sep, rest := ElemsText(items, fmt);
      var q := HeadBack(f, v, fmt, data, end, p, sep, rest);
      if Full(v) {
        assert next.Node? && !FullItems(next);
        EmptyElems(f, next, fmt, data, end, q + 1);
        ElemsNextFails(f, data, end, p, v, q);
      } else {
        ElemsFail(f, data, end, p);
      }
  }

  lemma ElemsText(items: Items, fmt: real -> seq<Byte>) returns (sep: Byte, rest: seq<Byte>)
    requires items.Node? && PrintableItems(items)
    ensures PrintElems(items, fmt) == Print(items.value, fmt) + ([sep] + rest)
    ensures if items.next.Nil? then sep == CLOSE_ARR && rest == [] else sep == COMMA && rest == PrintElems(items.next, fmt)
  {
    sep, rest := if items.next.Nil? then CLOSE_ARR else COMMA, if items.next.Nil? then [] else PrintElems(items.next, fmt);
  }

  lemma NoElems(f: Strtod, data: seq<Byte>, end: nat, p: nat)
    requires Terminated(data, end) && p < end && data[p] == CLOSE_ARR
    ensures Elems(f, data, end, p).Err?
  {
    NoSpecific(data, p);
  }

  lemma ElemsFail(f: Strtod, data: seq<Byte>, end: nat, p: nat)
    requires Terminated(data, end) && p < end && ValueAt(f, data, end, p).Err?
    ensures Elems(f, data, end, p).Err?
  {
  }

  lemma ElemsNextFails(f: Strtod, data: seq<Byte>, end: nat, p: nat, v: Value, q: nat)
    requires Terminated(data, end) && p < q < end && ValueAt(f, data, end, p) == Ok(v, q) && Skip(data, end, q) == q
    requires data[q] == COMMA && Elems(f, data, end, q + 1).Err?
    ensures Elems(f, data, end, p).Err?
  {
    assert Elems(f, data, end, p) == ElemsAfter(f, data, end, p, v, q);
  }

  lemma {:induction false} EmptyMember(f: Strtod, items: Items, fmt: real -> seq<Byte>, data: seq<Byte>, end: nat, p: nat)
    requires Terminated(data, end) && Reads(f) && BaseItems(items) && CleanItems(items)
    requires items.Node? && !FullItems(items)
    requires Starts(data, p, MemberText(items, fmt)) && p + |MemberText(items, fmt)| <= end
    ensures Member(f, data, end, items.key, p).Err?
    decreases items, 2
  {
    var Node(key, v, next) := items;
    var sep, rest := if next.Nil? then CLOSE_OBJ else COMMA, if next.Nil? then [] else PrintFields(next, fmt);
    var q := HeadBack(f, v, fmt, data, end, p, sep, rest);
    if Full(v) {
      EmptyFields(f, next, fmt, data, end, q + 1);
      NextFails(f, data, end, key, p, v, q);
    } else {
      ValueFails(f, data, end, key, p);
    }
  }

  lemma ValueFails(f: Strtod, data: seq<Byte>, end: nat, key: seq<Byte>, p: nat)
    requires Terminated(data, end) && p < end && ValueAt(f, data, end, p).Err?
    ensures Member(f, data, end, key, p).Err?
  {
  }

  lemma NextFails(f: Strtod, data: seq<Byte>, end: nat, key: seq<Byte>, p: nat, v: Value, q: nat)
    requires Terminated(data, end) && p < q < end && ValueAt(f, data, end, p) == Ok(v, q)
    requires Skip(data, end, q) == q && data[q] == COMMA && Fields(f, data, end, q + 1).Err?
    ensures Member(f, data, end, key, p).Err?
  {
    assert Member(f, data, end, key, p) == FieldsAfter(f, data, end, p, key, v, q);
  }

  // The value of the first field and what follows it.
  function MemberText(items: Items, fmt: real -> seq<Byte>): seq<Byte>
    requires items.Node? && PrintableItems(items)
  {
    Print(items.value, fmt) + ([if items.next.Nil? then CLOSE_OBJ else COMMA] + if items.next.Nil? then [] else PrintFields(items.next, fmt))
  }

  lemma {:induction false} EmptyFields(f: Strtod, items: Items, fmt: real -> seq<Byte>, data: seq<Byte>, end: nat, p: nat)
    requires Terminated(data, end) && Reads(f) && BaseItems(items) && CleanItems(items)
    requires items.Nil? || !FullItems(items)
    requires Starts(data, p, PrintFields(items, fmt)) && p + |PrintFields(items, fmt)| <= end
    ensures Fields(f, data, end, p).Err?
    decreases items, 3
  {
    if items.Nil? {
      At(data, p, CLOSE_OBJ);
    } else {
      FieldsText(items, fmt);
      var q := KeyThen(f, data, end, p, [], items.key, [], MemberText(items, fmt));
      EmptyMember(f, items, fmt, data, end, q);
    }
  }

  lemma FieldsText(items: Items, fmt: real -> seq<Byte>)
    requires items.Node? && PrintableItems(items) && CleanText(items.key)
    ensures PrintFields(items, fmt) == ShownKey([], items.key, []) + MemberText(items, fmt)
  {
    var Node(key, v, next) := items;
    CStrNulFree(key);
    var text, tail := Print(v, fmt), if next.Nil? then [CLOSE_OBJ] else [COMMA] + PrintFields(next, fmt);
    KeyText(key, text, tail);
    assert [] + (text + ([] + tail)) == text + tail;
    assert [CLOSE_OBJ] + [] == [CLOSE_OBJ];
  }

  // ----- The exact scope --------------------------------------------------------------

  lemma {:induction false} CStrClean(s: seq<Byte>)
    ensures 0 !in CStr(s)
  {
    if s != [] && s[0] != 0 {
      CStrClean(s[1..]);
    }
  }

  lemma {:induction false} PrintNulFree(v: Value, fmt: real -> seq<Byte>)
    requires Base(v)
    ensures 0 !in Print(v, fmt)
    decreases v, 1
  {
    match v
    case Str(s) => CStrClean(s);
    case Num(d) => IntText(d, fmt); DecimalNulFree(d.Floor);
    case Arr(items) => PrintElemsNulFree(items, fmt);
    case Obj(items) => PrintFieldsNulFree(items, fmt);
    case _ =>
  }

  lemma DecimalNulFree(i: int)
    ensures 0 !in Decimal(i)
  {
    var s := Digits(if i < 0 then -i else i);
    assert forall j :: 0 <= j < |s| ==> s[j] != 0;
  }

  lemma {:induction false} PrintElemsNulFree(items: Items, fmt: real -> seq<Byte>)
    requires BaseItems(items)
    ensures 0 !in PrintElems(items, fmt)
    decreases items, 0
  {
    if items.Node? {
      PrintNulFree(items.value, fmt);
      PrintElemsNulFree(items.next, fmt);
    }
  }

  lemma {:induction false} PrintFieldsNulFree(items: Items, fmt: real -> seq<Byte>)
    requires BaseItems(items)
    ensures 0 !in PrintFields(items, fmt)
    decreases items, 0
  {
    if items.Node? {
      CStrClean(items.key);
      PrintNulFree(items.value, fmt);
      PrintFieldsNulFree(items.next, fmt);
    }
  }

  // What was printed is read back exactly if no string or key has a quote or a NUL in it and
  // no container is empty.
  lemma ParsePrintIff(f: Strtod, v: Value, fmt: real -> seq<Byte>)
    requires Reads(f) && Base(v)
    ensures var s := Print(v, fmt);
      ValueAt(f, s + [0], |s|, 0) == Ok(v, |s|) <==> Clean(v) && Full(v)
  {
    var s := Print(v, fmt);
    var data := s + [0];
    ScopeParts(v);
    if Clean(v) && Full(v) {
      ParsePrint(f, v, fmt);
    } else if Clean(v) {
      EmptyFails(f, v, fmt, data, |s|, 0);
    } else {
      PrintNulFree(v, fmt);
      assert data[..|s|] == s;
      CleanValue(f, data, |s|, 0);
    }
  }
}
