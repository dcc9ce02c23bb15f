// The header lines of stu_http_parse.c: a machine that reads bytes as they arrive.
module HttpHeader {
  import opened Words
  import opened Bytes
  import opened Hash

  const CR: Byte := 13
  const LF: Byte := 10
  const SPACE: Byte := 32
  const NAME_COLON: Byte := ':' as int
  const UNDERSCORE: Byte := '_' as int
  const SLASH: Byte := '/' as int
  const HTTP: seq<Byte> := Ascii("HTTP")
  const LEN: nat := 32  // STU_HTTP_LC_HEADER_LEN

  // The table of lines 249-257: letters, digits and the hyphen, in lower case; 0 for the rest.
  function Lowcase(c: Byte): Byte {
    if 'A' as int <= c <= 'Z' as int then c + 32
    else if 'a' as int <= c <= 'z' as int || '0' as int <= c <= '9' as int || c == '-' as int then c
    else 0
  }

  datatype State =
    Start | Name | SpaceBeforeValue | Value | SpaceAfterValue | IgnoreLine | AlmostDone | HeaderAlmostDone

  // What is known of the line: where name and value lie, and the name in lower case as far
  // as it fits, with its hash.
  datatype Line = Line(
    state: State, hash: Word, i: nat, lowcase: seq<Byte>, invalid: bool,
    nameStart: nat, nameEnd: nat, start: nat, end: nat)

  // A line the machine can be in at position p.
  predicate Valid(l: Line, p: nat) {
    l.i < LEN && |l.lowcase| == LEN && (l.state != Start ==> l.nameStart < p)
  }

  datatype Move = Go(l: Line) | Ok(l: Line) | Done(l: Line) | Error

  // A byte of the name that counts.
  function Letter(l: Line, c: Byte): (r: Line)
    requires l.i < LEN && |l.lowcase| == LEN
  {
    l.(hash := Wrap(l.hash * 31 + c), lowcase := l.lowcase[l.i := c], i := (l.i + 1) % LEN)
  }

  function StartStep(l: Line, p: nat, ch: Byte, allow: bool): Move
    requires Valid(l, p)
  {
    var n := l.(nameStart := p, invalid := false);
    if ch == CR then Go(n.(end := p, state := HeaderAlmostDone))
    else if ch == LF then Done(n.(end := p))
    else if Lowcase(ch) != 0 then Go(Letter(n.(hash := 0, i := 0, state := Name), Lowcase(ch)))
    else if ch == UNDERSCORE && allow then Go(Letter(n.(hash := 0, i := 0, state := Name), ch))
    else if ch == 0 then Error
    else Go(n.(invalid := true, state := Name))
  }

  function NameStep(data: seq<Byte>, l: Line, p: nat, allow: bool): Move
    requires Valid(l, p) && p < |data| && l.state == Name
  {
    var ch := data[p];
    if Lowcase(ch) != 0 then Go(Letter(l, Lowcase(ch)))
    else if ch == UNDERSCORE && allow then Go(Letter(l, ch))
    else if ch == NAME_COLON then Go(l.(nameEnd := p, state := SpaceBeforeValue))
    else if ch == CR then Go(l.(nameEnd := p, start := p, end := p, state := AlmostDone))
    else if ch == LF then Ok(l.(nameEnd := p, start := p, end := p))
    else if ch == SLASH && p - l.nameStart == 4 && data[l.nameStart..p] == HTTP then Go(l.(state := IgnoreLine))
    else if ch == 0 then Error
    else Go(l.(invalid := true))
  }

  function ValueStep(l: Line, p: nat, ch: Byte): (m: Move)
    requires l.state != Start && l.state != Name
  {
    match l.state
    case SpaceBeforeValue =>
      if ch == SPACE then Go(l)
      else if ch == CR then Go(l.(start := p, end := p, state := AlmostDone))
      else if ch == LF then Ok(l.(start := p, end := p))
      else if ch == 0 then Error
      else Go(l.(start := p, state := Value))
    case Value =>
      if ch == SPACE then Go(l.(end := p, state := SpaceAfterValue))
      else if ch == CR then Go(l.(end := p, state := AlmostDone))
      else if ch == LF then Ok(l.(end := p))
      else if ch == 0 then Error
      else Go(l)
    case SpaceAfterValue =>
      if ch == SPACE then Go(l)
      else if ch == CR then Go(l.(state := AlmostDone))
      else if ch == LF then Ok(l)
      else if ch == 0 then Error
      else Go(l.(state := Value))
    case IgnoreLine => if ch == LF then Go(l.(state := Start)) else Go(l)
    case AlmostDone => if ch == LF then Ok(l) else if ch == CR then Go(l) else Error
    case HeaderAlmostDone => if ch == LF then Done(l) else Error
  }

  function Step(data: seq<Byte>, l: Line, p: nat, allow: bool): (m: Move)
    requires Valid(l, p) && p < |data|
    ensures m.Go? ==> Valid(m.l, p + 1)
  {
    var ch := data[p];
    match l.state
    case Start => StartStep(l, p, ch, allow)
    case Name => NameStep(data, l, p, allow)
    case _ => ValueStep(l, p, ch)
  }

  datatype Outcome = Again(l: Line) | LineOk(l: Line, last: nat) | HeaderDone(l: Line, last: nat) | Failed

  // The machine over data[p..end].
  function Run(data: seq<Byte>, l: Line, p: nat, end: nat, allow: bool): (o: Outcome)
    requires Valid(l, p) && p <= end <= |data|
    decreases end - p
  {
    if p == end then Again(l)
    else
      match Step(data, l, p, allow)
      case Go(n) => Run(data, n, p + 1, end, allow)
      case Ok(n) => LineOk(n, p + 1)
      case Done(n) => HeaderDone(n, p + 1)
      case Error => Failed
  }

  // ----- Chunks -----------------------------------------------------------------------

  datatype Rc = OK | DONE | AGAIN | ERROR
  datatype Called = Called(rc: Rc, l: Line, last: nat)

  // One call of the parser on data[p..end]: the return code, what the request holds then, and
  // where the next call starts. On DONE the hash and the index are not stored, on ERROR
  // nothing is said.
  function Call(data: seq<Byte>, l: Line, p: nat, end: nat, allow: bool): Called
    requires Valid(l, p) && p <= end <= |data|
  {
    Stored(Run(data, l, p, end, allow), l, p, end)
  }

  function Stored(o: Outcome, l: Line, p: nat, end: nat): Called {
    match o
    case Again(n) => Called(AGAIN, n, end)
    case LineOk(n, last) => Called(OK, n.(state := Start), last)
    case HeaderDone(n, last) => Called(DONE, n.(state := Start, hash := l.hash, i := l.i), last)
    case Failed => Called(ERROR, l, p)
  }

  // The buffer grows to each of `ends` in turn; the parser is called until it has something.
  function Feed(data: seq<Byte>, l: Line, p: nat, ends: seq<nat>, allow: bool): Called
    requires Valid(l, p) && Growing(p, ends, |data|) && ends != []
    decreases |ends|
  {
    var c := Call(data[..ends[0]], l, p, ends[0], allow);
    if c.rc != AGAIN || |ends| == 1 then c
    else
      RunValid(data[..ends[0]], l, p, ends[0], allow);
      Feed(data, c.l, ends[0], ends[1..], allow)
  }

  predicate Growing(p: nat, ends: seq<nat>, size: nat)
    decreases |ends|
  {
    ends != [] ==> p <= ends[0] <= size && Growing(ends[0], ends[1..], size)
  }

  lemma {:induction false} RunValid(data: seq<Byte>, l: Line, p: nat, end: nat, allow: bool)
    requires Valid(l, p) && p <= end <= |data|
    ensures Run(data, l, p, end, allow).Again? ==> Valid(Run(data, l, p, end, allow).l, end)
    decreases end - p
  {
    if p < end {
      var m := Step(data, l, p, allow);
      if m.Go? {
        RunValid(data, m.l, p + 1, end, allow);
      }
    }
  }

  // Nothing behind the end is looked at.
  lemma {:induction false} RunPrefix(data: seq<Byte>, l: Line, p: nat, end: nat, allow: bool)
    requires Valid(l, p) && p <= end <= |data|
    ensures Run(data[..end], l, p, end, allow) == Run(data, l, p, end, allow)
    decreases end - p
  {
    if p < end {
      assert data[..end][p] == data[p];
      assert l.state == Name ==> data[..end][l.nameStart..p] == data[l.nameStart..p];
      var m := Step(data, l, p, allow);
      if m.Go? {
        RunPrefix(data, m.l, p + 1, end, allow);
      }
    }
  }

  // Stopping at `mid` and resuming there makes no difference.
  lemma {:induction false} RunSplit(data: seq<Byte>, l: Line, p: nat, mid: nat, end: nat, allow: bool)
    requires Valid(l, p) && p <= mid <= end <= |data|
    ensures Run(data, l, p, mid, allow).Again? ==> Valid(Run(data, l, p, mid, allow).l, mid)
    ensures Run(data, l, p, end, allow) ==
      match Run(data, l, p, mid, allow)
      case Again(n) => Run(data, n, mid, end, allow)
      case o => o
    decreases end - p
  {
    RunValid(data, l, p, mid, allow);
    if p < mid {
      var m := Step(data, l, p, allow);
      if m.Go? {
        RunSplit(data, m.l, p + 1, mid, end, allow);
      }
    }
  }

  // Two results that a caller cannot tell apart.
  predicate Agree(a: Called, b: Called) {
    && a.rc == b.rc
    && (a.rc == OK || a.rc == AGAIN ==> a == b)
    && (a.rc == DONE ==> a.last == b.last && a.l.(hash := b.l.hash, i := b.l.i) == b.l)
  }

  lemma {:induction false} FeedIsCall(data: seq<Byte>, l: Line, p: nat, ends: seq<nat>, allow: bool)
    requires Valid(l, p) && Growing(p, ends, |data|) && ends != []
    ensures p <= ends[|ends| - 1] <= |data|
    ensures Agree(Feed(data, l, p, ends, allow), Call(data, l, p, ends[|ends| - 1], allow))
    decreases |ends|
  {
    var e := ends[0];
    RunPrefix(data, l, p, e, allow);
    if |ends| > 1 {
      GrowingEnd(e, ends[1..], |data|);
      var z := ends[|ends| - 1];
      assert ends[1..][|ends| - 2] == z;
      RunSplit(data, l, p, e, z, allow);
      var r := Run(data, l, p, e, allow);
      if r.Again? {
        FeedIsCall(data, r.l, e, ends[1..], allow);
      }
    }
  }

  lemma {:induction false} GrowingEnd(p: nat, ends: seq<nat>, size: nat)
    requires Growing(p, ends, size) && ends != []
    ensures p <= ends[|ends| - 1] <= size
    decreases |ends|
  {
    if |ends| > 1 {
      GrowingEnd(ends[0], ends[1..], size);
    }
  }

  // ----- The name in lower case -------------------------------------------------------

  predicate Token(c: Byte, allow: bool) {
    Lowcase(c) != 0 || (c == UNDERSCORE && allow)
  }

  // What the line holds about a name: its hash, its length modulo the size of the buffer and,
  // if it fits, the name itself in lower case.
  predicate Holds(l: Line, name: seq<Byte>, allow: bool) {
    && (forall j :: 0 <= j < |name| ==> Token(name[j], allow))
    && l.hash == Wrap(Poly(Lower(name)))
    && l.i == |name| % LEN && |l.lowcase| == LEN
    && (|name| < LEN ==> l.lowcase[..|name|] == Lower(name))
  }

  predicate Ordered(l: Line, p: nat) {
    match l.state
    case SpaceBeforeValue => l.nameStart < l.nameEnd < p
    case Value => l.nameStart < l.nameEnd < l.start < p
    case SpaceAfterValue => l.nameStart < l.nameEnd < l.start < l.end < p
    case AlmostDone => l.nameStart < l.nameEnd <= l.start <= l.end < p && (l.nameEnd < l.start || l.start == l.end)
    case _ => true
  }

  predicate Tracks(data: seq<Byte>, l: Line, p: nat, allow: bool)
    requires p <= |data|
  {
    && Valid(l, p) && Ordered(l, p)
    && (!l.invalid ==>
          match l.state
          case Name => Holds(l, data[l.nameStart..p], allow)
          case Start => true
          case IgnoreLine => true
          case HeaderAlmostDone => true
          case _ => Holds(l, data[l.nameStart..l.nameEnd], allow))
  }

  lemma HashLetter(name: seq<Byte>, c: Byte)
    ensures Wrap(Poly(name + [c])) == Wrap(Wrap(Poly(name)) * 31 + c)
  {
    assert (name + [c])[..|name|] == name;
    WrapStep(Poly(name), c);
  }

  lemma NextIndex(n: nat)
    ensures (n % LEN + 1) % LEN == (n + 1) % LEN
  {
  }

  lemma BufferLetter(buffer: seq<Byte>, i: nat, low: seq<Byte>, c: Byte)
    requires |buffer| == LEN && i == |low| % LEN && (|low| < LEN ==> buffer[..|low|] == low) && |low| + 1 < LEN
    ensures i < LEN && buffer[i := c][..|low| + 1] == low + [c]
  {
  }

  lemma LowerLetter(name: seq<Byte>, ch: Byte)
    ensures Lower(name + [ch]) == Lower(name) + [ToLower(ch)]
  {
  }

  lemma LetterHolds(l: Line, name: seq<Byte>, ch: Byte, allow: bool)
    requires l.i < LEN && Token(ch, allow) && Holds(l, name, allow)
    ensures Holds(Letter(l, if Lowcase(ch) != 0 then Lowcase(ch) else ch), name + [ch], allow)
  {
    var c := if Lowcase(ch) != 0 then Lowcase(ch) else ch;
    var low, m := Lower(name), Letter(l, c);
    assert c == ToLower(ch);
    LowerLetter(name, ch);
    assert m.hash == Wrap(Poly(low + [c])) by {
      HashLetter(low, c);
    }
    assert m.i == (|name| + 1) % LEN by {
      NextIndex(|name|);
    }
    assert |name| + 1 < LEN ==> m.lowcase[..|name| + 1] == low + [c] by {
      if |name| + 1 < LEN {
        BufferLetter(l.lowcase, l.i, low, c);
      }
    }
  }

  // The machine keeps track of the name through every byte.
  lemma StartTracks(data: seq<Byte>, l: Line, p: nat, allow: bool)
    requires p < |data| && Tracks(data, l, p, allow) && l.state == Start
    ensures var m := Step(data, l, p, allow); !m.Ok? && (m.Go? ==> Tracks(data, m.l, p + 1, allow))
  {
    var ch := data[p];
    assert data[p..p + 1] == [] + [ch];
    if Token(ch, allow) {
      LetterHolds(l.(nameStart := p, invalid := false, hash := 0, i := 0, state := Name), [], ch, allow);
    }
  }

  lemma NameTracks(data: seq<Byte>, l: Line, p: nat, allow: bool)
    requires p < |data| && Tracks(data, l, p, allow) && l.state == Name
    ensures var m := Step(data, l, p, allow);
      (m.Go? ==> Tracks(data, m.l, p + 1, allow)) && (m.Ok? ==> Accepted(data, m.l, p + 1, allow))
  {
    var ch := data[p];
    if Token(ch, allow) {
      if !l.invalid {
        LetterHolds(l, data[l.nameStart..p], ch, allow);
        assert data[l.nameStart..p + 1] == data[l.nameStart..p] + [ch];
      }
    } else {
      NameEnds(data, l, p, allow);
    }
  }

  lemma NameEnds(data: seq<Byte>, l: Line, p: nat, allow: bool)
    requires p < |data| && Tracks(data, l, p, allow) && l.state == Name && !Token(data[p], allow)
    ensures var m := NameStep(data, l, p, allow);
      (m.Go? ==> Tracks(data, m.l, p + 1, allow)) && (m.Ok? ==> Accepted(data, m.l, p + 1, allow))
  {
  }

  lemma StepTracks(data: seq<Byte>, l: Line, p: nat, allow: bool)
    requires p < |data| && Tracks(data, l, p, allow)
    ensures var m := Step(data, l, p, allow);
      (m.Go? ==> Tracks(data, m.l, p + 1, allow)) && (m.Ok? ==> Accepted(data, m.l, p + 1, allow))
  {
    if l.state == Start {
      StartTracks(data, l, p, allow);
    } else if l.state == Name {
      NameTracks(data, l, p, allow);
    } else {
      ValueKeeps(l, p, data[p]);
    }
  }

  // Behind the name nothing that belongs to it changes.
  lemma ValueKeeps(l: Line, p: nat, ch: Byte)
    requires l.state != Start && l.state != Name && Ordered(l, p)
    ensures match ValueStep(l, p, ch)
      case Go(n) => Ordered(n, p + 1) && n == l.(state := n.state, start := n.start, end := n.end) && n.state != Name
        && (n.state != l.state ==> l.state != HeaderAlmostDone) && (l.state == IgnoreLine ==> n.state == Start || n.state == IgnoreLine)
      case Ok(n) => n == l.(start := n.start, end := n.end) && l.state != IgnoreLine && l.state != HeaderAlmostDone
        && l.nameStart < l.nameEnd <= n.start <= n.end < p + 1 && (l.nameEnd < n.start || n.start == n.end)
      case _ => true
  {
  }

  // A line that was accepted: the slices lie in this order, and a valid name is known.
  predicate Accepted(data: seq<Byte>, l: Line, last: nat, allow: bool)
    requires last <= |data|
  {
    && l.nameStart < l.nameEnd <= l.start <= l.end < last && (l.nameEnd < l.start || l.start == l.end)
    && (!l.invalid ==> Holds(l, data[l.nameStart..l.nameEnd], allow))
  }

  lemma {:induction false} RunTracks(data: seq<Byte>, l: Line, p: nat, end: nat, allow: bool)
    requires p <= end <= |data| && Tracks(data, l, p, allow)
    ensures match Run(data, l, p, end, allow)
      case Again(n) => Tracks(data, n, end, allow)
      case LineOk(n, last) => p < last <= end && Accepted(data, n, last, allow)
      case HeaderDone(_, last) => p < last <= end
      case Failed => true
    decreases end - p
  {
    if p < end {
      StepTracks(data, l, p, allow);
      var m := Step(data, l, p, allow);
      if m.Go? {
        RunTracks(data, m.l, p + 1, end, allow);
      }
    }
  }

  // ----- Lines as they are written ----------------------------------------------------

  // A header as it is sent: a name, a colon, blanks, a value without leading or trailing
  // blanks, blanks, and CR LF.
  datatype Header = Header(name: seq<Byte>, pad: nat, value: seq<Byte>, pad2: nat)

  function Blanks(n: nat): seq<Byte> {
    seq(n, _ => SPACE)
  }

  predicate Plain(c: Byte) {
    c != CR && c != LF && c != 0
  }

  predicate Sendable(h: Header, allow: bool) {
    && h.name != [] && (forall j :: 0 <= j < |h.name| ==> Token(h.name[j], allow))
    && (forall j :: 0 <= j < |h.value| ==> Plain(h.value[j]))
    && (h.value != [] ==> h.value[0] != SPACE && h.value[|h.value| - 1] != SPACE)
    && (h.value == [] ==> h.pad2 == 0)
  }

  function Text(h: Header): seq<Byte> {
    h.name + ([NAME_COLON] + (Blanks(h.pad) + (h.value + (Blanks(h.pad2) + [CR, LF]))))
  }

  // The bytes of a sent header.
  lemma TextIs(h: Header)
    ensures var t, q := Text(h), |h.name|;
      var v := q + 1 + h.pad;
      var w := v + |h.value|;
      && |t| == w + h.pad2 + 2 && t[..q] == h.name && t[q] == 58 && t[v..w] == h.value
      && (forall j :: q < j < v || w <= j < w + h.pad2 ==> t[j] == 32)
      && t[w + h.pad2] == 13 && t[w + h.pad2 + 1] == 10
  {
  }

  lemma SendableIff(h: Header, allow: bool)
    ensures Sendable(h, allow) <==>
      && h.name != []
      && (forall j :: 0 <= j < |h.name| ==> var c := h.name[j];
            48 <= c <= 57 || 65 <= c <= 90 || 97 <= c <= 122 || c == 45 || (c == 95 && allow))
      && (forall j :: 0 <= j < |h.value| ==> h.value[j] != 0 && h.value[j] != 10 && h.value[j] != 13)
      && if h.value == [] then h.pad2 == 0 else h.value[0] != 32 && h.value[|h.value| - 1] != 32
  {
  }

  // Through the letters of a name.
  lemma {:induction false} RunName(data: seq<Byte>, l: Line, p: nat, end: nat, k: nat, allow: bool)
    requires Valid(l, p) && l.state == Name && p + k <= end <= |data|
    requires forall j :: p <= j < p + k ==> Token(data[j], allow)
    ensures var o := Run(data, l, p, p + k, allow);
      && o.Again? && Valid(o.l, p + k) && Run(data, l, p, end, allow) == Run(data, o.l, p + k, end, allow)
      && o.l == l.(hash := o.l.hash, i := o.l.i, lowcase := o.l.lowcase)
    decreases k
  {
    if k > 0 {
      var m := Step(data, l, p, allow);
      RunName(data, m.l, p + 1, end, k - 1, allow);
    }
  }

  // Through blanks, where they do not matter.
  lemma {:induction false} RunBlanks(data: seq<Byte>, l: Line, p: nat, end: nat, k: nat, allow: bool)
    requires Valid(l, p) && (l.state == SpaceBeforeValue || l.state == SpaceAfterValue) && p + k <= end <= |data|
    requires forall j :: p <= j < p + k ==> data[j] == SPACE
    ensures Valid(l, p + k) && Run(data, l, p, end, allow) == Run(data, l, p + k, end, allow)
    decreases k
  {
    if k > 0 {
      RunBlanks(data, l, p + 1, end, k - 1, allow);
    }
  }

  // Through a value up to its last byte, which is no blank.
  lemma {:induction false} RunValue(data: seq<Byte>, l: Line, p: nat, end: nat, k: nat, allow: bool) returns (e: nat)
    requires Valid(l, p) && (l.state == Value || l.state == SpaceAfterValue) && 0 < k && p + k <= end <= |data|
    requires (forall j :: p <= j < p + k ==> Plain(data[j])) && data[p + k - 1] != SPACE
    ensures var n := l.(state := Value, end := e);
      Valid(n, p + k) && Run(data, l, p, end, allow) == Run(data, n, p + k, end, allow)
    decreases k
  {
    var m := Step(data, l, p, allow);
    if k == 1 {
      e := l.end;
    } else {
      e := RunValue(data, m.l, p + 1, end, k - 1, allow);
    }
  }

  // From the value to the end of the line.
  lemma RunTail(data: seq<Byte>, l: Line, p: nat, end: nat, k: nat, allow: bool)
    requires Valid(l, p) && l.state == Value && p + k + 2 <= end <= |data|
    requires Starts(data, p, Blanks(k) + [CR, LF])
    ensures Run(data, l, p, end, allow).LineOk? &&
      Run(data, l, p, end, allow) == LineOk(l.(state := Run(data, l, p, end, allow).l.state, end := p), p + k + 2)
  {
    StartsSplit(data, p, Blanks(k), [CR, LF]);
    assert data[p + k + 0] == CR && data[p + k + 1] == LF by {
      assert [CR, LF][0] == CR && [CR, LF][1] == LF;
    }
    forall j | p <= j < p + k ensures data[j] == SPACE {
      assert data[p + (j - p)] == Blanks(k)[j - p];
    }
    if k > 0 {
      var n := l.(end := p, state := SpaceAfterValue);
      assert Run(data, l, p, end, allow) == Run(data, n, p + 1, end, allow);
      RunBlanks(data, n, p + 1, end, k - 1, allow);
    }
  }

  // The main result on one line: it is accepted as a whole, and the slices are the name and
  // the value without the blanks around it.
  lemma LineBack(data: seq<Byte>, l: Line, p: nat, end: nat, h: Header, allow: bool)
    requires p <= |data| && Tracks(data, l, p, allow) && l.state == Start && Sendable(h, allow)
    requires Starts(data, p, Text(h)) && p + |Text(h)| <= end <= |data|
    ensures var o := Run(data, l, p, end, allow);
      && o.LineOk? && o.last == p + |Text(h)| && !o.l.invalid && o.l.nameStart == p && Accepted(data, o.l, o.last, allow)
      && data[o.l.nameStart..o.l.nameEnd] == h.name && data[o.l.start..o.l.end] == h.value
  {
    var q := p + |h.name|;
    LinePieces(data, p, h);
    RunPieces(data, l, p, q, end, h, allow);
    RunTracks(data, l, p, end, allow);
  }

  lemma LinePieces(data: seq<Byte>, p: nat, h: Header)
    requires Starts(data, p, Text(h))
    ensures var q := p + |h.name|;
      && q < |data| && data[p..q] == h.name && data[q] == NAME_COLON
      && Starts(data, q + 1, Blanks(h.pad) + (h.value + (Blanks(h.pad2) + [CR, LF])))
  {
    var q := p + |h.name|;
    StartsSplit(data, p, h.name, [NAME_COLON] + (Blanks(h.pad) + (h.value + (Blanks(h.pad2) + [CR, LF]))));
    StartsSplit(data, q, [NAME_COLON], Blanks(h.pad) + (h.value + (Blanks(h.pad2) + [CR, LF])));
    assert data[q + 0] == [NAME_COLON][0];
    forall j | p <= j < q ensures data[j] == h.name[j - p] {
      assert data[p + (j - p)] == h.name[j - p];
    }
  }

  lemma RunPieces(data: seq<Byte>, l: Line, p: nat, q: nat, end: nat, h: Header, allow: bool)
    requires p < q && q + 3 + h.pad + |h.value| + h.pad2 <= end <= |data|
    requires Valid(l, p) && l.state == Start && Sendable(h, allow) && data[p..q] == h.name && data[q] == NAME_COLON
    requires Starts(data, q + 1, Blanks(h.pad) + (h.value + (Blanks(h.pad2) + [CR, LF])))
    ensures var o := Run(data, l, p, end, allow);
      && o.LineOk? && o.last == q + 3 + h.pad + |h.value| + h.pad2 && !o.l.invalid
      && o.l.nameStart == p && o.l.nameEnd == q && o.l.start <= o.l.end <= |data| && data[o.l.start..o.l.end] == h.value
  {
    assert forall j :: p <= j < q ==> data[j] == data[p..q][j - p];
    var v := NameBack(data, l, p, q, end, allow);
    ValueBack(data, v, q + 1, end, h, allow);
  }

  // Through a name and its colon.
  lemma NameBack(data: seq<Byte>, l: Line, p: nat, q: nat, end: nat, allow: bool) returns (v: Line)
    requires Valid(l, p) && l.state == Start && p < q < end <= |data| && data[q] == NAME_COLON
    requires forall j :: p <= j < q ==> Token(data[j], allow)
    ensures Valid(v, q + 1) && v.state == SpaceBeforeValue && v.nameStart == p && v.nameEnd == q && !v.invalid
    ensures Run(data, l, p, end, allow) == Run(data, v, q + 1, end, allow)
  {
    var m := Step(data, l, p, allow).l;
    RunName(data, m, p + 1, end, q - p - 1, allow);
    var n := Run(data, m, p + 1, q, allow).l;
    v := n.(nameEnd := q, state := SpaceBeforeValue);
  }

  lemma ValueBack(data: seq<Byte>, l: Line, p: nat, end: nat, h: Header, allow: bool)
    requires Valid(l, p) && l.state == SpaceBeforeValue && Sendable(h, allow)
    requires Starts(data, p, Blanks(h.pad) + (h.value + (Blanks(h.pad2) + [CR, LF])))
    requires p + h.pad + |h.value| + h.pad2 + 2 <= end <= |data|
    ensures var o := Run(data, l, p, end, allow);
      && o.LineOk? && o.last == p + h.pad + |h.value| + h.pad2 + 2
      && o.l == l.(state := o.l.state, start := o.l.start, end := o.l.end)
      && o.l.start <= o.l.end <= |data| && data[o.l.start..o.l.end] == h.value
  {
    var v := p + h.pad;
    var t := v + |h.value|;
    ValuePieces(data, p, h);
    RunBlanks(data, l, p, end, h.pad, allow);
    if h.value == [] {
      EmptyTail(data, l, v, end, allow);
    } else {
      FullTail(data, l, v, end, h, allow);
    }
  }

  lemma ValuePieces(data: seq<Byte>, p: nat, h: Header)
    requires Starts(data, p, Blanks(h.pad) + (h.value + (Blanks(h.pad2) + [CR, LF])))
    ensures forall j :: p <= j < p + h.pad ==> data[j] == SPACE
    ensures Starts(data, p + h.pad, h.value) && Starts(data, p + h.pad + |h.value|, Blanks(h.pad2) + [CR, LF])
  {
    var v := p + h.pad;
    StartsSplit(data, p, Blanks(h.pad), h.value + (Blanks(h.pad2) + [CR, LF]));
    StartsSplit(data, v, h.value, Blanks(h.pad2) + [CR, LF]);
    forall j | p <= j < v ensures data[j] == SPACE {
      assert data[p + (j - p)] == Blanks(h.pad)[j - p];
    }
  }

  lemma FullTail(data: seq<Byte>, l: Line, v: nat, end: nat, h: Header, allow: bool)
    requires Valid(l, v) && l.state == SpaceBeforeValue && Sendable(h, allow) && h.value != []
    requires Starts(data, v, h.value) && Starts(data, v + |h.value|, Blanks(h.pad2) + [CR, LF])
    requires v + |h.value| + h.pad2 + 2 <= end <= |data|
    ensures var o := Run(data, l, v, end, allow);
      && o.LineOk? && o.last == v + |h.value| + h.pad2 + 2
      && o.l == l.(state := o.l.state, start := v, end := v + |h.value|) && data[v..v + |h.value|] == h.value
  {
    var t := v + |h.value|;
    forall j | v <= j < t ensures data[j] == h.value[j - v] {
      assert data[v + (j - v)] == h.value[j - v];
    }
    var n := l.(start := v, state := Value);
    assert Run(data, l, v, end, allow) == Run(data, n, v + 1, end, allow);
    if |h.value| > 1 {
      var e := RunValue(data, n, v + 1, end, |h.value| - 1, allow);
      n := n.(end := e);
    }
    RunTail(data, n, t, end, h.pad2, allow);
    assert data[v..t] == h.value;
  }

  lemma EmptyTail(data: seq<Byte>, l: Line, p: nat, end: nat, allow: bool)
    requires Valid(l, p) && l.state == SpaceBeforeValue && Starts(data, p, Blanks(0) + [CR, LF]) && p + 2 <= end <= |data|
    ensures Run(data, l, p, end, allow) == LineOk(l.(start := p, end := p, state := AlmostDone), p + 2)
  {
    var s := Blanks(0) + [CR, LF];
    assert s[0] == CR && s[1] == LF;
    assert data[p + 0] == CR && data[p + 1] == LF;
  }

  // ----- Lines byte by byte -----------------------------------------------------------

  lemma TokenIff(c: Byte, allow: bool)
    ensures Token(c, allow) <==> 48 <= c <= 57 || 65 <= c <= 90 || 97 <= c <= 122 || c == 45 || (c == 95 && allow)
  {
  }

  // Through any name, valid or not, that is not the beginning of a status line.
  lemma {:induction false} RunAnyName(data: seq<Byte>, l: Line, p: nat, end: nat, k: nat, allow: bool) returns (n: Line)
    requires Valid(l, p) && l.state == Name && p + k <= end <= |data|
    requires forall j :: p <= j < p + k ==> data[j] != 0 && data[j] != 10 && data[j] != 13 && data[j] != 58
    requires l.nameStart + 4 < p + k ==> !(data[l.nameStart..l.nameStart + 4] == [72, 84, 84, 80] && data[l.nameStart + 4] == 47)
    ensures Valid(n, p + k) && n == l.(hash := n.hash, i := n.i, lowcase := n.lowcase, invalid := n.invalid)
    ensures n.invalid <==> l.invalid || exists j :: p <= j < p + k && !Token(data[j], allow)
    ensures Run(data, l, p, end, allow) == Run(data, n, p + k, end, allow)
    decreases k
  {
    n := l;
    if k > 0 {
      var m := Step(data, l, p, allow);
      assert HTTP == [72, 84, 84, 80];
      assert m.Go? && m.l.state == Name;
      n := RunAnyName(data, m.l, p + 1, end, k - 1, allow);
    }
  }

  // From the first byte to the end of the name.
  lemma NameRead(data: seq<Byte>, l: Line, p: nat, q: nat, end: nat, allow: bool) returns (n: Line)
    requires Valid(l, p) && l.state == Start && p < q <= end <= |data|
    requires forall j :: p <= j < q ==> data[j] != 0 && data[j] != 10 && data[j] != 13 && (p < j ==> data[j] != 58)
    requires p + 4 < q ==> !(data[p..p + 4] == [72, 84, 84, 80] && data[p + 4] == 47)
    ensures Valid(n, q) && n.state == Name && n.nameStart == p
    ensures n.invalid <==> exists j :: p <= j < q && !Token(data[j], allow)
    ensures Run(data, l, p, end, allow) == Run(data, n, q, end, allow)
  {
    var m := Step(data, l, p, allow);
    n := RunAnyName(data, m.l, p + 1, end, q - p - 1, allow);
  }

  predicate InValue(state: State) {
    state == SpaceBeforeValue || state == Value || state == SpaceAfterValue
  }

  // Through CRs at the end of a line.
  lemma {:induction false} RunReturns(data: seq<Byte>, l: Line, p: nat, n: nat, end: nat, allow: bool)
    requires Valid(l, p) && l.state == AlmostDone && p < n <= end <= |data|
    requires (forall j :: p <= j < n - 1 ==> data[j] == 13) && data[n - 1] == 10
    ensures Run(data, l, p, end, allow) == LineOk(l, n)
    decreases n - p
  {
    if p + 1 < n {
      RunReturns(data, l, p + 1, n, end, allow);
    }
  }

  lemma LineEnd(data: seq<Byte>, l: Line, e: nat, n: nat, end: nat, allow: bool)
    requires Valid(l, e) && (l.state == Name || InValue(l.state)) && e < n <= end <= |data|
    requires (forall j :: e <= j < n - 1 ==> data[j] == 13) && data[n - 1] == 10
    ensures var o := Run(data, l, e, end, allow);
      && o.LineOk? && o.last == n
      && o.l == l.(state := o.l.state, nameEnd := if l.state == Name then e else l.nameEnd,
           start := if l.state == Name || l.state == SpaceBeforeValue then e else l.start,
           end := if l.state == SpaceAfterValue then l.end else e)
  {
    if e + 1 < n {
      assert data[e] == 13;
      var m := Step(data, l, e, allow);
      RunReturns(data, m.l, e + 1, n, end, allow);
    }
  }

  // From behind the colon to the end of the line; the value lies at v..w.
  lemma ValueRead(data: seq<Byte>, l: Line, p: nat, v: nat, w: nat, e: nat, n: nat, end: nat, allow: bool)
    requires Valid(l, p) && l.state == SpaceBeforeValue && p <= v <= w <= e < n <= end <= |data|
    requires (forall j :: p <= j < v ==> data[j] == 32) && (forall j :: w <= j < e ==> data[j] == 32)
    requires forall j :: v <= j < w ==> data[j] != 0 && data[j] != 10 && data[j] != 13
    requires if v == w then w == e else data[v] != 32 && data[w - 1] != 32
    requires (forall j :: e <= j < n - 1 ==> data[j] == 13) && data[n - 1] == 10
    ensures var o := Run(data, l, p, end, allow);
      o.LineOk? && o.last == n && o.l == l.(state := o.l.state, start := v, end := w)
  {
    RunBlanks(data, l, p, end, v - p, allow);
    var m := l;
    if v < w {
      m := l.(start := v, state := Value);
      assert Run(data, l, v, end, allow) == Run(data, m, v + 1, end, allow);
      if v + 1 < w {
        var x := RunValue(data, m, v + 1, end, w - v - 1, allow);
        m := m.(end := x);
      }
      if w < e {
        m := m.(end := w, state := SpaceAfterValue);
        RunBlanks(data, m, w + 1, end, e - w - 1, allow);
      }
    }
    LineEnd(data, m, e, n, end, allow);
  }

  // The main result on bytes. A line is accepted with its name at p..q and its value, without
  // the blanks around it, at v..w; e is where the line ends, before its CRs and its LF. The
  // name is invalid exactly if a byte of it is no letter, digit, hyphen or allowed underscore.
  lemma LineIs(data: seq<Byte>, l: Line, p: nat, q: nat, v: nat, w: nat, e: nat, n: nat, end: nat, allow: bool)
    requires p < q < v <= w <= e < n <= end <= |data| && Tracks(data, l, p, allow) && l.state == Start
    requires forall j :: p <= j < q ==> data[j] != 0 && data[j] != 10 && data[j] != 13 && (p < j ==> data[j] != 58)
    requires p + 4 < q ==> !(data[p..p + 4] == [72, 84, 84, 80] && data[p + 4] == 47)
    requires data[q] == 58 && (forall j :: q < j < v ==> data[j] == 32) && (forall j :: w <= j < e ==> data[j] == 32)
    requires forall j :: v <= j < w ==> data[j] != 0 && data[j] != 10 && data[j] != 13
    requires if v == w then w == e else data[v] != 32 && data[w - 1] != 32
    requires (forall j :: e <= j < n - 1 ==> data[j] == 13) && data[n - 1] == 10
    ensures var o := Run(data, l, p, end, allow);
      && o.LineOk? && o.last == n && Accepted(data, o.l, n, allow)
      && o.l.nameStart == p && o.l.nameEnd == q && o.l.start == v && o.l.end == w
    ensures !Run(data, l, p, end, allow).l.invalid <==>
      forall j :: p <= j < q ==>
        48 <= data[j] <= 57 || 65 <= data[j] <= 90 || 97 <= data[j] <= 122 || data[j] == 45 || (data[j] == 95 && allow)
    ensures var m := Run(data, l, p, end, allow).l;
      !m.invalid ==>
        && m.hash == Wrap(Poly(Lower(data[p..q])))
        && (q - p < 32 ==> forall j :: p <= j < q ==> m.lowcase[j - p] == if 65 <= data[j] <= 90 then data[j] + 32 else data[j])
  {
    var m := NameRead(data, l, p, q, end, allow);
    var s := m.(nameEnd := q, state := SpaceBeforeValue);
    assert Run(data, m, q, end, allow) == Run(data, s, q + 1, end, allow);
    ValueRead(data, s, q + 1, v, w, e, n, end, allow);
    RunTracks(data, l, p, end, allow);
    TokensIff(data, p, q, allow);
    var o := Run(data, l, p, end, allow).l;
    if !o.invalid {
      HeldIs(o, data, p, q, allow);
    }
  }

  lemma TokensIff(data: seq<Byte>, p: nat, q: nat, allow: bool)
    requires p <= q <= |data|
    ensures (exists j :: p <= j < q && !Token(data[j], allow)) <==> !forall j :: p <= j < q ==>
        48 <= data[j] <= 57 || 65 <= data[j] <= 90 || 97 <= data[j] <= 122 || data[j] == 45 || (data[j] == 95 && allow)
  {
  }

  lemma HeldIs(l: Line, data: seq<Byte>, p: nat, q: nat, allow: bool)
    requires p <= q <= |data| && Holds(l, data[p..q], allow)
    ensures |l.lowcase| == 32 && l.hash == Wrap(Poly(Lower(data[p..q])))
    ensures q - p < 32 ==> forall j :: p <= j < q ==> l.lowcase[j - p] == if 65 <= data[j] <= 90 then data[j] + 32 else data[j]
  {
    if q - p < 32 {
      forall j | p <= j < q ensures l.lowcase[j - p] == if 65 <= data[j] <= 90 then data[j] + 32 else data[j] {
        assert l.lowcase[..q - p][j - p] == Lower(data[p..q])[j - p];
      }
    }
  }

  // A line without a colon is accepted as a name without a value.
  lemma BareLineIs(data: seq<Byte>, l: Line, p: nat, q: nat, n: nat, end: nat, allow: bool)
    requires p < q < n <= end <= |data| && Valid(l, p) && l.state == Start
    requires forall j :: p <= j < q ==> data[j] != 0 && data[j] != 10 && data[j] != 13 && (p < j ==> data[j] != 58)
    requires p + 4 < q ==> !(data[p..p + 4] == [72, 84, 84, 80] && data[p + 4] == 47)
    requires (forall j :: q <= j < n - 1 ==> data[j] == 13) && data[n - 1] == 10
    ensures var o := Run(data, l, p, end, allow);
      o.LineOk? && o.last == n && o.l.nameStart == p && o.l.nameEnd == o.l.start == o.l.end == q
  {
    var m := NameRead(data, l, p, q, end, allow);
    LineEnd(data, m, q, n, end, allow);
  }

  // The end of the headers: an empty line.
  lemma EndIs(data: seq<Byte>, l: Line, p: nat, end: nat, allow: bool)
    requires p < end <= |data| && Valid(l, p) && l.state == Start
    ensures var o := Run(data, l, p, end, allow);
      && (data[p] == 10 ==> o.HeaderDone? && o.last == p + 1)
      && (data[p] == 13 && p + 1 < end && data[p + 1] == 10 ==> o.HeaderDone? && o.last == p + 2)
      && (data[p] == 13 && p + 1 < end && data[p + 1] != 10 ==> o == Failed)
  {
  }

  lemma {:induction false} RunAnyValue(data: seq<Byte>, l: Line, p: nat, end: nat, k: nat, allow: bool) returns (n: Line)
    requires Valid(l, p) && InValue(l.state) && p + k <= end <= |data|
    requires forall j :: p <= j < p + k ==> data[j] != 0 && data[j] != 10 && data[j] != 13
    ensures Valid(n, p + k) && InValue(n.state) && Run(data, l, p, end, allow) == Run(data, n, p + k, end, allow)
    decreases k
  {
    n := l;
    if k > 0 {
      n := RunAnyValue(data, Step(data, l, p, allow).l, p + 1, end, k - 1, allow);
    }
  }

  lemma {:induction false} ReturnsFail(data: seq<Byte>, l: Line, p: nat, x: nat, end: nat, allow: bool)
    requires Valid(l, p) && l.state == AlmostDone && p <= x < end <= |data|
    requires (forall j :: p <= j < x ==> data[j] == 13) && data[x] != 10 && data[x] != 13
    ensures Run(data, l, p, end, allow) == Failed
    decreases x - p
  {
    if p < x {
      ReturnsFail(data, l, p + 1, x, end, allow);
    }
  }

  // A NUL, or anything but CRs and LF behind a CR, is an error, in a name and in a value.
  lemma NameFails(data: seq<Byte>, l: Line, p: nat, q: nat, x: nat, end: nat, allow: bool)
    requires p < q <= x < end <= |data| && Valid(l, p) && l.state == Start
    requires forall j :: p <= j < q ==> data[j] != 0 && data[j] != 10 && data[j] != 13 && (p < j ==> data[j] != 58)
    requires p + 4 < q ==> !(data[p..p + 4] == [72, 84, 84, 80] && data[p + 4] == 47)
    requires if q == x then data[x] == 0 else (forall j :: q <= j < x ==> data[j] == 13) && data[x] != 10 && data[x] != 13
    ensures Run(data, l, p, end, allow) == Failed
  {
    var m := NameRead(data, l, p, q, end, allow);
    if q < x {
      ReturnsFail(data, Step(data, m, q, allow).l, q + 1, x, end, allow);
    }
  }

  lemma ValueFails(data: seq<Byte>, l: Line, p: nat, q: nat, e: nat, x: nat, end: nat, allow: bool)
    requires p < q < e <= x < end <= |data| && Valid(l, p) && l.state == Start
    requires forall j :: p <= j < q ==> data[j] != 0 && data[j] != 10 && data[j] != 13 && (p < j ==> data[j] != 58)
    requires p + 4 < q ==> !(data[p..p + 4] == [72, 84, 84, 80] && data[p + 4] == 47)
    requires data[q] == 58 && forall j :: q < j < e ==> data[j] != 0 && data[j] != 10 && data[j] != 13
    requires if e == x then data[x] == 0 else (forall j :: e <= j < x ==> data[j] == 13) && data[x] != 10 && data[x] != 13
    ensures Run(data, l, p, end, allow) == Failed
  {
    var m := NameRead(data, l, p, q, end, allow);
    var s := m.(nameEnd := q, state := SpaceBeforeValue);
    assert Run(data, m, q, end, allow) == Run(data, s, q + 1, end, allow);
    var t := RunAnyValue(data, s, q + 1, end, e - q - 1, allow);
    if e < x {
      ReturnsFail(data, Step(data, t, e, allow).l, e + 1, x, end, allow);
    }
  }

  lemma {:induction false} RunIgnored(data: seq<Byte>, l: Line, p: nat, x: nat, end: nat, allow: bool)
    requires Valid(l, p) && l.state == IgnoreLine && p <= x < end <= |data|
    requires (forall j :: p <= j < x ==> data[j] != 10) && data[x] == 10
    ensures Run(data, l, p, end, allow) == Run(data, l.(state := Start), x + 1, end, allow)
    decreases x - p
  {
    if p < x {
      RunIgnored(data, l, p + 1, x, end, allow);
    }
  }

  // A line that begins with "HTTP/" is left out.
  lemma IgnoredIs(data: seq<Byte>, l: Line, p: nat, x: nat, end: nat, allow: bool) returns (n: Line)
    requires p + 5 <= x < end <= |data| && Valid(l, p) && l.state == Start
    requires data[p..p + 5] == [72, 84, 84, 80, 47] && data[x] == 10 && forall j :: p <= j < x ==> data[j] != 10
    ensures Valid(n, x + 1) && n.state == Start && Run(data, l, p, end, allow) == Run(data, n, x + 1, end, allow)
  {
    var s := data[p..p + 5];
    assert data[p] == s[0] && data[p + 1] == s[1] && data[p + 2] == s[2] && data[p + 3] == s[3] && data[p + 4] == s[4];
    n := NameRead(data, l, p, p + 4, end, allow);
    assert HTTP == [72, 84, 84, 80] == data[p..p + 4];
    n := n.(state := IgnoreLine);
    RunIgnored(data, n, p + 5, x, end, allow);
    n := n.(state := Start);
  }

  // ----- The parser -------------------------------------------------------------------

  datatype Turn = Next | LineDone | HeadersDone | Bad

  class Request {
    var state: State
    var headerHash: Word
    var lowcaseIndex: nat
    const lowcaseHeader: array<Byte>
    var invalidHeader: bool
    var headerNameStart: nat
    var headerNameEnd: nat
    var headerStart: nat
    var headerEnd: nat

    constructor ()
      ensures fresh(lowcaseHeader) && lowcaseHeader.Length == LEN && lowcaseIndex < LEN && state == Start
    {
      state, headerHash, lowcaseIndex, invalidHeader := Start, 0, 0, false;
      headerNameStart, headerNameEnd, headerStart, headerEnd := 0, 0, 0, 0;
      lowcaseHeader := new Byte[LEN];
    }

    ghost function Current(state: State, hash: Word, i: nat): Line
      reads this, lowcaseHeader
    {
      Line(state, hash, i, lowcaseHeader[..], invalidHeader, headerNameStart, headerNameEnd, headerStart, headerEnd)
    }

    ghost function Held(): Line
      reads this, lowcaseHeader
    {
      Current(state, headerHash, lowcaseIndex)
    }

    // What a byte leads to, with the line as it is then.
    ghost predicate Leads(m: Move, turn: Turn, n: Line) {
      match turn
      case Next => m == Go(n)
      case LineDone => m == Ok(n)
      case HeadersDone => m == Done(n)
      case Bad => m == Error
    }

    // The case sw_start.
    method StartByte(p: nat, ch: Byte, hash0: Word, i0: nat, allow: bool)
      returns (turn: Turn, state2: State, hash: Word, i: nat)
      requires Valid(Current(Start, hash0, i0), p)
      modifies this`headerNameStart, this`headerEnd, this`invalidHeader, lowcaseHeader
      ensures Leads(StartStep(old(Current(Start, hash0, i0)), p, ch, allow), turn, Current(state2, hash, i))
    {
      turn, state2, hash, i := Next, Name, hash0, i0;
      headerNameStart := p;
      invalidHeader := false;
      if ch == CR {
        headerEnd := p;
        state2 := HeaderAlmostDone;
        return;
      } else if ch == LF {
        headerEnd := p;
        turn, state2 := HeadersDone, Start;
        return;
      }
      var c := Lowcase(ch);
      if c != 0 {
        hash, i := c, 1;
        lowcaseHeader[0] := c;
        return;
      }
      if ch == UNDERSCORE {
        if allow {
          hash, i := ch, 1;
          lowcaseHeader[0] := ch;
        } else {
          invalidHeader := true;
        }
        return;
      }
      if ch == 0 {
        turn := Bad;
        return;
      }
      invalidHeader := true;
    }

    // The case sw_name.
    method NameByte(b: array<Byte>, p: nat, hash0: Word, i0: nat, allow: bool)
      returns (turn: Turn, state2: State, hash: Word, i: nat)
      requires p < b.Length && b != lowcaseHeader && Valid(Current(Name, hash0, i0), p)
      modifies this`headerNameEnd, this`headerStart, this`headerEnd, this`invalidHeader, lowcaseHeader
      ensures Leads(NameStep(b[..], old(Current(Name, hash0, i0)), p, allow), turn, Current(state2, hash, i))
    {
      turn, state2, hash, i := Next, Name, hash0, i0;
      var ch := b[p];
      var c := Lowcase(ch);
      if c != 0 {
        hash := Wrap(hash * 31 + c);
        lowcaseHeader[i] := c;
        i := (i + 1) % LEN;
        return;
      }
      if ch == UNDERSCORE {
        if allow {
          hash := Wrap(hash * 31 + ch);
          lowcaseHeader[i] := ch;
          i := (i + 1) % LEN;
        } else {
          invalidHeader := true;
        }
        return;
      }
      if ch == NAME_COLON {
        headerNameEnd := p;
        state2 := SpaceBeforeValue;
        return;
      }
      if ch == CR {
        headerNameEnd, headerStart, headerEnd := p, p, p;
        state2 := AlmostDone;
        return;
      }
      if ch == LF {
        headerNameEnd, headerStart, headerEnd := p, p, p;
        turn := LineDone;
        return;
      }
      if ch == SLASH && p - headerNameStart == 4 && b[headerNameStart..p] == HTTP {
        state2 := IgnoreLine;
        return;
      }
      if ch == 0 {
        turn := Bad;
        return;
      }
      invalidHeader := true;
    }

    // The other states.
    method ValueByte(state: State, p: nat, ch: Byte, ghost hash: Word, ghost i: nat) returns (turn: Turn, state2: State)
      requires state != Start && state != Name
      modifies this`headerStart, this`headerEnd
      ensures Leads(ValueStep(old(Current(state, hash, i)), p, ch), turn, Current(state2, hash, i))
    {
      turn, state2 := Next, state;
      match state {
        case SpaceBeforeValue =>
          if ch == SPACE {
          } else if ch == CR {
            headerStart, headerEnd := p, p;
            state2 := AlmostDone;
          } else if ch == LF {
            headerStart, headerEnd := p, p;
            turn := LineDone;
          } else if ch == 0 {
            turn := Bad;
          } else {
            headerStart := p;
            state2 := Value;
          }
        case Value =>
          if ch == SPACE {
            headerEnd := p;
            state2 := SpaceAfterValue;
          } else if ch == CR {
            headerEnd := p;
            state2 := AlmostDone;
          } else if ch == LF {
            headerEnd := p;
            turn := LineDone;
          } else if ch == 0 {
            turn := Bad;
          }
        case SpaceAfterValue =>
          if ch == SPACE {
          } else if ch == CR {
            state2 := AlmostDone;
          } else if ch == LF {
            turn := LineDone;
          } else if ch == 0 {
            turn := Bad;
          } else {
            state2 := Value;
          }
        case IgnoreLine =>
          if ch == LF {
            state2 := Start;
          }
        case AlmostDone =>
          if ch == LF {
            turn := LineDone;
          } else if ch != CR {
            turn := Bad;
          }
        case HeaderAlmostDone =>
          turn := if ch == LF then HeadersDone else Bad;
      }
    }

    // What a byte leads to in a run with a known outcome.
    ghost predicate Towards(b: seq<Byte>, turn: Turn, n: Line, p: nat, end: nat, allow: bool, all: Outcome)
      requires p < end <= |b|
    {
      match turn
      case Next => Valid(n, p + 1) && Run(b, n, p + 1, end, allow) == all
      case LineDone => all == LineOk(n, p + 1)
      case HeadersDone => all == HeaderDone(n, p + 1)
      case Bad => all == Failed
    }

    // One byte, in whatever state.
    method LineByte(b: array<Byte>, p: nat, end: nat, state0: State, hash0: Word, i0: nat, allow: bool, ghost all: Outcome)
      returns (turn: Turn, state2: State, hash: Word, i: nat)
      requires p < end <= b.Length && b != lowcaseHeader && Valid(Current(state0, hash0, i0), p)
      requires all == Run(b[..], Current(state0, hash0, i0), p, end, allow)
      modifies this`headerNameStart, this`headerNameEnd, this`headerStart, this`headerEnd, this`invalidHeader, lowcaseHeader
      ensures Towards(b[..], turn, Current(state2, hash, i), p, end, allow, all)
    {
      if state0 == Start {
        turn, state2, hash, i := StartByte(p, b[p], hash0, i0, allow);
      } else if state0 == Name {
        turn, state2, hash, i := NameByte(b, p, hash0, i0, allow);
      } else {
        hash, i := hash0, i0;
        turn, state2 := ValueByte(state0, p, b[p], hash, i);
      }
    }

    method ParseHeaderLine(b: array<Byte>, last: nat, end: nat, allow: bool) returns (rc: Rc, next: nat)
      requires last <= end <= b.Length && b != lowcaseHeader && Valid(Held(), last)
      modifies this, lowcaseHeader
      ensures var c := Call(b[..], old(Held()), last, end, allow);
        rc == c.rc && (rc != ERROR ==> Held() == c.l && next == c.last)
      ensures match Run(b[..], old(Held()), last, end, allow)
        case Again(n) => rc == AGAIN && next == end && Held() == n
        case LineOk(n, x) => rc == OK && next == x && Held() == n.(state := Start)
        case HeaderDone(_, x) => rc == DONE && next == x && state == Start
        case Failed => rc == ERROR
    {
      var state, hash, i := this.state, headerHash, lowcaseIndex;
      var p := last;
      ghost var all, l := Run(b[..], Held(), last, end, allow), Held();
      while p < end
        invariant last <= p <= end && Valid(Current(state, hash, i), p)
        invariant headerHash == old(headerHash) && lowcaseIndex == old(lowcaseIndex)
        invariant Run(b[..], Current(state, hash, i), p, end, allow) == all
      {
        var turn;
        turn, state, hash, i := LineByte(b, p, end, state, hash, i, allow, all);
        match turn {
          case Next =>
          case LineDone =>
            this.state, headerHash, lowcaseIndex := Start, hash, i;
            return OK, p + 1;
          case HeadersDone =>
            this.state := Start;
            return DONE, p + 1;
          case Bad =>
            return ERROR, last;
        }
        p := p + 1;
      }
      this.state, headerHash, lowcaseIndex := state, hash, i;
      return AGAIN, p;
    }
  }
}
