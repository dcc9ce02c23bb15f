// The JSON reader and printer of stu_json.c.
module Json {
  import opened Bytes

  // The children of a container, in order; in an array their keys are empty.
  datatype Items = Nil | Node(key: seq<Byte>, value: Value, next: Items)

  // `Cut` is a string that the input ended in: its value was never set.
  datatype Value =
    | Null
    | Bool(b: bool)
    | Str(s: seq<Byte>)
    | Cut
    | Num(d: real)
    | Arr(items: Items)
    | Obj(items: Items)

  function Append(items: Items, key: seq<Byte>, value: Value): Items {
    match items
    case Nil => Node(key, value, Nil)
    case Node(k, v, next) => Node(k, v, Append(next, key, value))
  }

  function Concat(a: Items, b: Items): Items {
    match a
    case Nil => b
    case Node(k, v, next) => Node(k, v, Concat(next, b))
  }

  lemma {:induction false} ConcatNil(a: Items)
    ensures Concat(a, Nil) == a
  {
    if a.Node? { ConcatNil(a.next); }
  }

  lemma {:induction false} ConcatAppend(a: Items, key: seq<Byte>, value: Value, b: Items)
    ensures Concat(Append(a, key, value), b) == Concat(a, Node(key, value, b))
  {
    if a.Node? { ConcatAppend(a.next, key, value, b); }
  }

  // ----- The input --------------------------------------------------------------------

  // strtod as a parameter: the number at the start of a string and the bytes it takes, at
  // least one and never the NUL.
  type Strtod = f: seq<Byte> -> Option<(real, nat)> | StopsAtNul(f) ghost witness _ => None

  ghost predicate StopsAtNul(f: seq<Byte> -> Option<(real, nat)>) {
    forall s: seq<Byte> {:trigger f(s)} :: f(s).Some? ==> var n := f(s).value.1; 0 < n <= |s| && 0 !in s[..n]
  }

  datatype Outcome<+T> = Ok(value: T, pos: nat) | Err(at: nat)

  const QUOTE: Byte := '\"' as int
  const COMMA: Byte := ',' as int
  const COLON: Byte := ':' as int
  const OPEN_ARR: Byte := '[' as int
  const CLOSE_ARR: Byte := ']' as int
  const OPEN_OBJ: Byte := '{' as int
  const CLOSE_OBJ: Byte := '}' as int
  const NULL_TEXT: seq<Byte> := Ascii("null")
  const TRUE_TEXT: seq<Byte> := Ascii("true")
  const FALSE_TEXT: seq<Byte> := Ascii("false")

  predicate Blank(c: Byte) {
    c == 32 || c == 13 || c == 10 || c == 9
  }

  // The text is data[..end], followed by a NUL.
  predicate Terminated(data: seq<Byte>, end: nat) {
    end < |data| && data[end] == 0
  }

  function Skip(data: seq<Byte>, end: nat, p: nat): (q: nat)
    requires end <= |data|
    ensures p <= q && (p <= end ==> q <= end)
    ensures q < end ==> !Blank(data[q])
    ensures forall i :: p <= i < q ==> i < end && Blank(data[i])
    decreases end - p
  {
    if p < end && Blank(data[p]) then Skip(data, end, p + 1) else p
  }

  // The first quote from p on, or the end.
  function CloseQuote(data: seq<Byte>, end: nat, p: nat): (q: nat)
    requires end <= |data| && p <= end
    ensures p <= q <= end
    ensures q < end ==> data[q] == QUOTE
    ensures forall i :: p <= i < q ==> data[i] != QUOTE
    decreases end - p
  {
    if p < end && data[p] != QUOTE then CloseQuote(data, end, p + 1) else p
  }

  // ----- What the reader accepts: a descent without states ----------------------------

  function InString(data: seq<Byte>, end: nat, s: nat, p: nat): Outcome<Value>
    requires end <= |data| && s <= p <= end
  {
    var k := CloseQuote(data, end, p);
    if k == end then Ok(Cut, end) else Ok(Str(data[s..k]), k + 1)
  }

  function StringAt(data: seq<Byte>, end: nat, p: nat): (r: Outcome<Value>)
    requires Terminated(data, end) && p <= end
    ensures r.Ok? ==> p <= r.pos && (p < end && !Blank(data[p]) ==> p < r.pos)
  {
    var q := Skip(data, end, p);
    if q == end then Ok(Cut, end)
    else if data[q] != QUOTE then Err(q)
    else InString(data, end, q + 1, q + 1)
  }

  function NumberAt(f: Strtod, data: seq<Byte>, p: nat): (r: Outcome<Value>)
    requires p <= |data|
    ensures r.Ok? ==> p < r.pos <= |data|
  {
    match f(data[p..])
    case None => Err(p)
    case Some((d, n)) => Ok(Num(d), p + n)
  }

  function SpecificAt(data: seq<Byte>, p: nat): (r: Outcome<Value>)
    ensures r.Ok? ==> p < r.pos <= |data|
  {
    if Starts(data, p, NULL_TEXT) then Ok(Null, p + 4)
    else if Starts(data, p, TRUE_TEXT) then Ok(Bool(true), p + 4)
    else if Starts(data, p, FALSE_TEXT) then Ok(Bool(false), p + 5)
    else Err(p)
  }

  function ValueAt(f: Strtod, data: seq<Byte>, end: nat, p: nat): (r: Outcome<Value>)
    requires Terminated(data, end) && p <= end
    ensures r.Ok? ==> p < r.pos
    decreases end - p, 2
  {
    var q := Skip(data, end, p);
    var c := data[q];
    if c == QUOTE then StringAt(data, end, q)
    else if c == OPEN_OBJ then
      match Fields(f, data, end, q + 1)
      case Ok(items, pos) => Ok(Obj(items), pos)
      case Err(at) => Err(at)
    else if c == OPEN_ARR then
      match Elems(f, data, end, q + 1)
      case Ok(items, pos) => Ok(Arr(items), pos)
      case Err(at) => Err(at)
    else if c == '-' as int || Digit(c) then NumberAt(f, data, q)
    else SpecificAt(data, q)
  }

  // The rest of an array: elements and the closing bracket. Running into the end of the
  // input is not an error.
  function Elems(f: Strtod, data: seq<Byte>, end: nat, p: nat): (r: Outcome<Items>)
    requires Terminated(data, end) && p <= end
    ensures r.Ok? ==> p <= r.pos
    decreases end - p, 3
  {
    if p == end then Ok(Nil, end)
    else
      match ValueAt(f, data, end, p)
      case Err(at) => Err(at)
      case Ok(v, q) => ElemsAfter(f, data, end, p, v, q)
  }

  function ElemsAfter(f: Strtod, data: seq<Byte>, end: nat, ghost p: nat, v: Value, q: nat): (r: Outcome<Items>)
    requires Terminated(data, end) && p < q && p <= end
    ensures r.Ok? ==> q <= r.pos
    decreases end - p, 1
  {
    var e := Skip(data, end, q);
    if e >= end then Ok(Node([], v, Nil), e + 1)
    else if data[e] == CLOSE_ARR then Ok(Node([], v, Nil), e + 1)
    else if data[e] == COMMA then
      match Elems(f, data, end, e + 1)
      case Err(at) => Err(at)
      case Ok(items, pos) => Ok(Node([], v, items), pos)
    else Err(e)
  }

  // The rest of an object, from before a key.
  function Fields(f: Strtod, data: seq<Byte>, end: nat, p: nat): (r: Outcome<Items>)
    requires Terminated(data, end) && p <= end
    ensures r.Ok? ==> p <= r.pos
    decreases end - p, 7
  {
    var q := Skip(data, end, p);
    if q == end then Ok(Nil, end)
    else if data[q] != QUOTE then Err(q)
    else KeyAt(f, data, end, q + 1)
  }

  // From behind the opening quote of a key.
  function KeyAt(f: Strtod, data: seq<Byte>, end: nat, s: nat): (r: Outcome<Items>)
    requires Terminated(data, end) && s <= end
    ensures r.Ok? ==> s <= r.pos
    decreases end - s, 6
  {
    InKey(f, data, end, s, s)
  }

  function InKey(f: Strtod, data: seq<Byte>, end: nat, s: nat, p: nat): (r: Outcome<Items>)
    requires Terminated(data, end) && s <= p <= end
    ensures r.Ok? ==> p <= r.pos
    decreases end - p, 5
  {
    var k := CloseQuote(data, end, p);
    if k == end then Ok(Nil, end) else AfterKey(f, data, end, data[s..k], k + 1)
  }

  function AfterKey(f: Strtod, data: seq<Byte>, end: nat, key: seq<Byte>, p: nat): (r: Outcome<Items>)
    requires Terminated(data, end) && p <= end
    ensures r.Ok? ==> p <= r.pos
    decreases end - p, 4
  {
    var q := Skip(data, end, p);
    if q == end then Ok(Nil, end)
    else if data[q] != COLON then Err(q)
    else Member(f, data, end, key, q + 1)
  }

  // From behind the colon.
  function Member(f: Strtod, data: seq<Byte>, end: nat, key: seq<Byte>, p: nat): (r: Outcome<Items>)
    requires Terminated(data, end) && p <= end
    ensures r.Ok? ==> p <= r.pos
    decreases end - p, 3
  {
    if p == end then Ok(Nil, end)
    else
      match ValueAt(f, data, end, p)
      case Err(at) => Err(at)
      case Ok(v, q) => FieldsAfter(f, data, end, p, key, v, q)
  }

  function FieldsAfter(f: Strtod, data: seq<Byte>, end: nat, ghost p: nat, key: seq<Byte>, v: Value, q: nat): (r: Outcome<Items>)
    requires Terminated(data, end) && p < q && p <= end
    ensures r.Ok? ==> q <= r.pos
    decreases end - p, 1
  {
    var e := Skip(data, end, q);
    if e >= end then Ok(Node(key, v, Nil), e + 1)
    else if data[e] == CLOSE_OBJ then Ok(Node(key, v, Nil), e + 1)
    else if data[e] == COMMA then
      match Fields(f, data, end, e + 1)
      case Err(at) => Err(at)
      case Ok(items, pos) => Ok(Node(key, v, items), pos)
    else Err(e)
  }

  function ArrayAt(f: Strtod, data: seq<Byte>, end: nat, p: nat): Outcome<Items>
    requires Terminated(data, end) && p <= end
  {
    var q := Skip(data, end, p);
    if q == end then Ok(Nil, end) else if data[q] != OPEN_ARR then Err(q) else Elems(f, data, end, q + 1)
  }

  function ObjectAt(f: Strtod, data: seq<Byte>, end: nat, p: nat): Outcome<Items>
    requires Terminated(data, end) && p <= end
  {
    var q := Skip(data, end, p);
    if q == end then Ok(Nil, end) else if data[q] != OPEN_OBJ then Err(q) else Fields(f, data, end, q + 1)
  }

  // ----- The reader -------------------------------------------------------------------

  // Children read so far, then what the rest of the input gives.
  function Then(items: Items, r: Outcome<Items>): Outcome<Items> {
    match r
    case Ok(more, pos) => Ok(Concat(items, more), pos)
    case Err(at) => Err(at)
  }

  method ParseValue(f: Strtod, data: seq<Byte>, end: nat, p0: nat) returns (r: Outcome<Value>)
    requires Terminated(data, end) && p0 <= end
    ensures r == ValueAt(f, data, end, p0)
    decreases end - p0, 2
  {
    var p := p0;
    var c := data[p];
    while c == 32 || c == 13 || c == 10 || c == 9
      invariant p0 <= p <= end && c == data[p] && Skip(data, end, p0) == Skip(data, end, p)
      decreases end - p
    {
      p := p + 1;
      c := data[p];
    }
    if c == QUOTE {
      r := ParseString(data, end, p);
    } else if c == OPEN_OBJ {
      var o := ParseObject(f, data, end, p);
      r := match o case Ok(items, pos) => Ok(Obj(items), pos) case Err(at) => Err(at);
    } else if c == OPEN_ARR {
      var a := ParseArray(f, data, end, p);
      r := match a case Ok(items, pos) => Ok(Arr(items), pos) case Err(at) => Err(at);
    } else if c == '-' as int || Digit(c) {
      r := ParseNumber(f, data, p);
    } else {
      r := ParseSpecific(data, p);
    }
  }

  method ParseSpecific(data: seq<Byte>, p: nat) returns (r: Outcome<Value>)
    requires p < |data| && !Blank(data[p])
    ensures r == SpecificAt(data, p)
  {
    if Starts(data, p, NULL_TEXT) {
      r := Ok(Null, p + 4);
    } else if Starts(data, p, TRUE_TEXT) {
      r := Ok(Bool(true), p + 4);
    } else if Starts(data, p, FALSE_TEXT) {
      r := Ok(Bool(false), p + 5);
    } else {
      r := Err(p);
    }
  }

  method ParseNumber(f: Strtod, data: seq<Byte>, p: nat) returns (r: Outcome<Value>)
    requires p < |data| && !Blank(data[p])
    ensures r == NumberAt(f, data, p)
  {
    match f(data[p..])
    case None => r := Err(p);
    case Some((d, n)) => r := Ok(Num(d), p + n);
  }

  datatype StringState = StringStart | StrStart | StrBody | StrEnd

  // What is still to come when the string machine is in a state.
  ghost function StringRest(data: seq<Byte>, end: nat, state: StringState, s: nat, value: Value, p: nat): Outcome<Value>
    requires Terminated(data, end) && p <= end && (state.StrStart? ==> s == p) && (state.StrBody? ==> s < p)
  {
    match state
    case StringStart => StringAt(data, end, p)
    case StrStart => InString(data, end, s, p)
    case StrBody => InString(data, end, s, p)
    case StrEnd => Ok(value, p)
  }

  // One byte up to the closing quote.
  method StringByte(data: seq<Byte>, end: nat, state0: StringState, s0: nat, p: nat)
    returns (state: StringState, s: nat, value: Value, bad: bool)
    requires Terminated(data, end) && p < end && !state0.StrEnd? && (state0.StrStart? ==> s0 == p) && (state0.StrBody? ==> s0 < p)
    ensures (state.StrStart? ==> s == p + 1) && (state.StrBody? ==> s <= p) && (!state.StrEnd? ==> value == Cut)
    ensures StringRest(data, end, state0, s0, Cut, p) == if bad then Err(p) else StringRest(data, end, state, s, value, p + 1)
  {
    state, s, value, bad := state0, s0, Cut, false;
    var c := data[p];
    match state0 {
      case StringStart =>
        if c == QUOTE {
          state, s := StrStart, p + 1;
        } else if c == 32 || c == 13 || c == 10 || c == 9 {
        } else {
          bad := true;
        }
      case StrStart =>
        s := p;
        if c == QUOTE {
          assert data[p..p] == [];
          value, state := Str([]), StrEnd;
        } else {
          state := StrBody;
        }
      case StrBody =>
        if c == QUOTE {
          value, state := Str(data[s..p]), StrEnd;
        }
    }
  }

  method ParseString(data: seq<Byte>, end: nat, p0: nat) returns (r: Outcome<Value>)
    requires Terminated(data, end) && p0 <= end
    ensures r == StringAt(data, end, p0)
  {
    var state, p, value := StringStart, p0, Cut;
    var s: nat := p0;
    while p < end
      invariant p0 <= p <= end && (state.StrStart? ==> s == p) && (state.StrBody? ==> s < p) && (!state.StrEnd? ==> value == Cut)
      invariant StringRest(data, end, state, s, value, p) == StringAt(data, end, p0)
    {
      if state == StrEnd {
        return Ok(value, p);
      }
      var bad;
      state, s, value, bad := StringByte(data, end, state, s, p);
      if bad {
        return Err(p);
      }
      p := p + 1;
    }
    r := Ok(value, p);
  }

  datatype Separator = More | Close | Other | Ended

  // The loop behind each element, up to a comma or the closing bracket.
  method ParseSeparator(data: seq<Byte>, end: nat, p0: nat, close: Byte) returns (sep: Separator, p: nat)
    requires Terminated(data, end)
    ensures p == Skip(data, end, p0)
    ensures sep == if p >= end then Ended else if data[p] == COMMA then More else if data[p] == close then Close else Other
  {
    p := p0;
    while p < end
      invariant p0 <= p && Skip(data, end, p0) == Skip(data, end, p)
      decreases end - p
    {
      var c := data[p];
      if c == 32 || c == 13 || c == 10 || c == 9 {
        p := p + 1;
      } else if c == COMMA {
        return More, p;
      } else if c == close {
        return Close, p;
      } else {
        return Other, p;
      }
    }
    sep := Ended;
  }

  datatype ArrayState = ArrayStart | ArrStart | ArrEnd

  // What is still to come when the array machine is in a state.
  ghost function ArrayRest(f: Strtod, data: seq<Byte>, end: nat, state: ArrayState, items: Items, p: nat): Outcome<Items>
    requires Terminated(data, end)
  {
    if p > end then Ok(items, p)
    else
      match state
      case ArrayStart => ArrayAt(f, data, end, p)
      case ArrStart => Then(items, Elems(f, data, end, p))
      case ArrEnd => Ok(items, p)
  }

  // An element and what follows it.
  method ParseElement(f: Strtod, data: seq<Byte>, end: nat, p: nat, items: Items)
    returns (state: ArrayState, q: nat, more: Items, bad: bool)
    requires Terminated(data, end) && p < end
    ensures Then(items, Elems(f, data, end, p)) == if bad then Err(q) else ArrayRest(f, data, end, state, more, q + 1)
    ensures !bad ==> q > p && !state.ArrayStart?
    decreases end - p, 3
  {
    state, more, bad := ArrStart, items, true;
    var v := ParseValue(f, data, end, p);
    if v.Err? {
      q := v.at;
      return;
    }
    more := Append(items, [], v.value);
    ConcatNil(more);
    ConcatAppendAll(items, [], v.value);
    var sep;
    sep, q := ParseSeparator(data, end, v.pos, CLOSE_ARR);
    bad := sep.Other?;
    if sep.Close? {
      state := ArrEnd;
    }
  }

  method ParseArray(f: Strtod, data: seq<Byte>, end: nat, p0: nat) returns (r: Outcome<Items>)
    requires Terminated(data, end) && p0 <= end
    ensures r == ArrayAt(f, data, end, p0)
    decreases end - p0, 1
  {
    var state, p, items := ArrayStart, p0, Nil;
    ghost var all := ArrayAt(f, data, end, p0);
    while p < end
      invariant p0 <= p && (state.ArrayStart? ==> items == Nil) && (!state.ArrayStart? ==> p0 < p)
      invariant all == ArrayRest(f, data, end, state, items, p)
      decreases end - p
    {
      match state {
        case ArrayStart =>
          var c := data[p];
          if c == OPEN_ARR {
            state := ArrStart;
          } else if c == 32 || c == 13 || c == 10 || c == 9 {
          } else {
            return Err(p);
          }
        case ArrStart =>
          var next, q, more, bad := ParseElement(f, data, end, p, items);
          if bad {
            return Err(q);
          }
          state, items, p := next, more, q;
        case ArrEnd =>
          return Ok(items, p);
      }
      p := p + 1;
    }
    ConcatNil(items);
    r := Ok(items, p);
  }

  lemma ConcatAppendAll(items: Items, key: seq<Byte>, value: Value)
    ensures forall more :: Concat(items, Node(key, value, more)) == Concat(Append(items, key, value), more)
  {
    forall more ensures Concat(items, Node(key, value, more)) == Concat(Append(items, key, value), more) {
      ConcatAppend(items, key, value, more);
    }
  }

  datatype ObjectState = ObjectStart | ObjStart | KeyStart | KeyBody | KeyEnd | Val | ObjEnd

  // The value of a member and what follows it.
  method ParseMember(f: Strtod, data: seq<Byte>, end: nat, p: nat, key: seq<Byte>, items: Items)
    returns (state: ObjectState, q: nat, more: Items, bad: bool)
    requires Terminated(data, end) && p < end
    ensures var r := Then(items, Member(f, data, end, key, p));
      if bad then r == Err(q)
      else match state
      case Val => q >= end && r == Ok(more, q + 1)
      case ObjEnd => r == Ok(more, q + 1)
      case ObjStart => p < q < end && r == Then(more, Fields(f, data, end, q + 1))
      case _ => false
    ensures !bad ==> q > p
    decreases end - p, 3
  {
    state, more, bad := Val, items, true;
    var v := ParseValue(f, data, end, p);
    if v.Err? {
      q := v.at;
      return;
    }
    more := Append(items, key, v.value);
    ConcatNil(more);
    ConcatAppendAll(items, key, v.value);
    var sep;
    sep, q := ParseSeparator(data, end, v.pos, CLOSE_OBJ);
    bad := sep.Other?;
    if sep.More? {
      state := ObjStart;
    } else if sep.Close? {
      state := ObjEnd;
    }
  }

  // What is still to come when the object machine is in a state.
  ghost function ObjectRest(
    f: Strtod, data: seq<Byte>, end: nat, state: ObjectState, items: Items, s: nat, key: seq<Byte>, p: nat): Outcome<Items>
    requires Terminated(data, end) && (state.KeyBody? ==> s < p)
  {
    if p > end then Ok(items, p)
    else
      match state
      case ObjectStart => ObjectAt(f, data, end, p)
      case ObjStart => Then(items, Fields(f, data, end, p))
      case KeyStart => Then(items, KeyAt(f, data, end, p))
      case KeyBody => Then(items, InKey(f, data, end, s, p))
      case KeyEnd => Then(items, AfterKey(f, data, end, key, p))
      case Val => Then(items, Member(f, data, end, key, p))
      case ObjEnd => Ok(items, p)
  }

  // Input that ends within an object is taken as it is.
  lemma ObjectStops(f: Strtod, data: seq<Byte>, end: nat, state: ObjectState, items: Items, s: nat, key: seq<Byte>, p: nat)
    requires Terminated(data, end) && (state.KeyBody? ==> s < p) && end <= p && (state.ObjectStart? ==> items == Nil)
    ensures ObjectRest(f, data, end, state, items, s, key, p) == Ok(items, p)
  {
    ConcatNil(items);
    if state.KeyStart? && p == end {
      assert KeyAt(f, data, end, p) == InKey(f, data, end, p, p);
    }
  }

  // One byte in front of a value.
  method ObjectByte(
    f: Strtod, data: seq<Byte>, end: nat, state0: ObjectState, s0: nat, key0: seq<Byte>, p: nat, ghost items: Items)
    returns (state: ObjectState, s: nat, key: seq<Byte>, bad: bool)
    requires Terminated(data, end) && p < end && (state0.KeyBody? ==> s0 < p) && !state0.Val? && !state0.ObjEnd?
    requires state0.ObjectStart? ==> items == Nil
    ensures state.KeyBody? ==> s <= p
    ensures state.ObjectStart? ==> state0.ObjectStart?
    ensures ObjectRest(f, data, end, state0, items, s0, key0, p) ==
      if bad then Err(p) else ObjectRest(f, data, end, state, items, s, key, p + 1)
  {
    state, s, key, bad := state0, s0, key0, false;
    var c := data[p];
    match state0 {
      case ObjectStart =>
        if c == OPEN_OBJ {
          state := ObjStart;
        } else if c == 32 || c == 13 || c == 10 || c == 9 {
        } else {
          bad := true;
        }
      case ObjStart =>
        if c == QUOTE {
          state := KeyStart;
        } else if c == 32 || c == 13 || c == 10 || c == 9 {
        } else {
          bad := true;
        }
      case KeyStart =>
        s := p;
        assert KeyAt(f, data, end, p) == InKey(f, data, end, p, p);
        if c == QUOTE {
          assert data[p..p] == [];
          key, state := [], KeyEnd;
        } else {
          state := KeyBody;
        }
      case KeyBody =>
        if c == QUOTE {
          key, state := data[s..p], KeyEnd;
        }
      case KeyEnd =>
        if c == COLON {
          state := Val;
        } else if c == 32 || c == 13 || c == 10 || c == 9 {
        } else {
          bad := true;
        }
    }
  }

  method ParseObject(f: Strtod, data: seq<Byte>, end: nat, p0: nat) returns (r: Outcome<Items>)
    requires Terminated(data, end) && p0 <= end
    ensures r == ObjectAt(f, data, end, p0)
    decreases end - p0, 1
  {
    var state, p, items := ObjectStart, p0, Nil;
    var s: nat := p0;
    var key: seq<Byte> := [];
    ghost var all := ObjectAt(f, data, end, p0);
    while p < end
      invariant p0 <= p && (!state.ObjectStart? ==> p0 < p) && (state.KeyBody? ==> s < p)
      invariant state.ObjectStart? ==> items == Nil
      invariant all == ObjectRest(f, data, end, state, items, s, key, p)
      decreases end - p
    {
      if state == ObjEnd {
        return Ok(items, p);
      } else if state == Val {
        var next, q, more, bad := ParseMember(f, data, end, p, key, items);
        if bad {
          return Err(q);
        }
        state, items, p := next, more, q;
      } else {
        var bad;
        state, s, key, bad := ObjectByte(f, data, end, state, s, key, p, items);
        if bad {
          return Err(p);
        }
      }
      p := p + 1;
    }
    ObjectStops(f, data, end, state, items, s, key, p);
    r := Ok(items, p);
  }
}
