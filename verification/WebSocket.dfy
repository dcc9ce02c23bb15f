// The frames of stu_websocket_parse.c and stu_websocket_request.c.
module WebSocket {
  import opened Words
  import opened Bytes

  // ----- Bits -------------------------------------------------------------------------

  // Exclusive or of the lowest n bits.
  function XorBits(n: nat, a: nat, b: nat): nat {
    if n == 0 then 0 else 2 * XorBits(n - 1, a / 2, b / 2) + (a % 2 + b % 2) % 2
  }

  lemma Halves(x: nat, bit: nat)
    requires bit < 2
    ensures (2 * x + bit) / 2 == x && (2 * x + bit) % 2 == bit
  {
  }

  lemma {:induction false} XorBound(n: nat, a: nat, b: nat)
    ensures XorBits(n, a, b) < Pow2(n)
  {
    if n > 0 {
      XorBound(n - 1, a / 2, b / 2);
    }
  }

  lemma {:induction false} XorTwice(n: nat, a: nat, b: nat)
    requires a < Pow2(n)
    ensures XorBits(n, XorBits(n, a, b), b) == a
  {
    if n > 0 {
      XorTwice(n - 1, a / 2, b / 2);
      var x, bit := XorBits(n - 1, a / 2, b / 2), (a % 2 + b % 2) % 2;
      Halves(x, bit);
      assert (bit + b % 2) % 2 == a % 2;
    }
  }

  function Xor(a: Byte, b: Byte): Byte {
    assert Pow2(8) == 256;
    XorBound(8, a, b);
    XorBits(8, a, b)
  }

  lemma XorSplit(n: nat, a: nat, b: nat)
    requires n > 0
    ensures XorBits(n, a, b) % 2 == (a % 2 + b % 2) % 2 && XorBits(n, a, b) / 2 == XorBits(n - 1, a / 2, b / 2)
  {
    Halves(XorBits(n - 1, a / 2, b / 2), (a % 2 + b % 2) % 2);
  }

  function Shifted(x: nat, i: nat): nat {
    if i == 0 then x else Shifted(x / 2, i - 1)
  }

  lemma {:induction false} XorShifted(n: nat, a: nat, b: nat, i: nat)
    requires i < n
    ensures Shifted(XorBits(n, a, b), i) % 2 == 1 <==> Shifted(a, i) % 2 != Shifted(b, i) % 2
  {
    XorSplit(n, a, b);
    if i > 0 {
      XorShifted(n - 1, a / 2, b / 2, i - 1);
    }
  }

  // The i-th bit.
  function Bit(x: Byte, i: nat): nat
    requires i < 8
  {
    (match i case 0 => x case 1 => x / 2 case 2 => x / 4 case 3 => x / 8
      case 4 => x / 16 case 5 => x / 32 case 6 => x / 64 case _ => x / 128) % 2
  }

  lemma BitShifted(x: Byte, i: nat)
    requires i < 8
    ensures Bit(x, i) == Shifted(x, i) % 2
  {
  }

  lemma BitAt(a: Byte, b: Byte, i: nat)
    requires i < 8
    ensures Bit(Xor(a, b), i) == 1 <==> Bit(a, i) != Bit(b, i)
  {
    XorShifted(8, a, b, i);
    BitShifted(a, i);
    BitShifted(b, i);
    BitShifted(Xor(a, b), i);
  }

  lemma XorLow(a: Byte, b: Byte)
    ensures var x := Xor(a, b);
      && (x % 2 == 1 <==> a % 2 != b % 2)
      && (x / 2 % 2 == 1 <==> a / 2 % 2 != b / 2 % 2)
      && (x / 4 % 2 == 1 <==> a / 4 % 2 != b / 4 % 2)
      && (x / 8 % 2 == 1 <==> a / 8 % 2 != b / 8 % 2)
  {
    BitAt(a, b, 0);
    BitAt(a, b, 1);
    BitAt(a, b, 2);
    BitAt(a, b, 3);
  }

  lemma TopBit(x: Byte)
    ensures x / 128 == x / 128 % 2
  {
  }

  lemma XorHigh(a: Byte, b: Byte)
    ensures var x := Xor(a, b);
      && (x / 16 % 2 == 1 <==> a / 16 % 2 != b / 16 % 2)
      && (x / 32 % 2 == 1 <==> a / 32 % 2 != b / 32 % 2)
      && (x / 64 % 2 == 1 <==> a / 64 % 2 != b / 64 % 2)
      && (x / 128 == 1 <==> a / 128 != b / 128)
  {
    BitAt(a, b, 4);
    BitAt(a, b, 5);
    BitAt(a, b, 6);
    BitAt(a, b, 7);
    TopBit(a);
    TopBit(b);
    TopBit(Xor(a, b));
  }

  // Bit by bit: a bit of the result is set exactly if the bits are different.
  lemma XorIs(a: Byte, b: Byte)
    ensures var x := Xor(a, b);
      && (x % 2 == 1 <==> a % 2 != b % 2)
      && (x / 2 % 2 == 1 <==> a / 2 % 2 != b / 2 % 2)
      && (x / 4 % 2 == 1 <==> a / 4 % 2 != b / 4 % 2)
      && (x / 8 % 2 == 1 <==> a / 8 % 2 != b / 8 % 2)
      && (x / 16 % 2 == 1 <==> a / 16 % 2 != b / 16 % 2)
      && (x / 32 % 2 == 1 <==> a / 32 % 2 != b / 32 % 2)
      && (x / 64 % 2 == 1 <==> a / 64 % 2 != b / 64 % 2)
      && (x / 128 == 1 <==> a / 128 != b / 128)
  {
    XorLow(a, b);
    XorHigh(a, b);
  }

  lemma XorBack(a: Byte, b: Byte)
    ensures Xor(Xor(a, b), b) == a
  {
    assert Pow2(8) == 256;
    XorTwice(8, a, b);
  }

  lemma {:induction false} XorBitsSame(n: nat, a: nat, b: nat)
    requires a < Pow2(n) && b < Pow2(n)
    ensures XorBits(n, a, b) == a <==> b == 0
  {
    if n > 0 {
      XorBitsSame(n - 1, a / 2, b / 2);
      Halves(XorBits(n - 1, a / 2, b / 2), (a % 2 + b % 2) % 2);
      assert (a % 2 + b % 2) % 2 == a % 2 <==> b % 2 == 0;
    }
  }

  lemma XorSame(a: Byte, b: Byte)
    ensures Xor(a, b) == a <==> b == 0
  {
    assert Pow2(8) == 256;
    XorBitsSame(8, a, b);
  }

  // Masking as in section 5.3 of RFC 6455; it is its own inverse.
  function Masked(s: seq<Byte>, key: seq<Byte>): (r: seq<Byte>)
    requires |key| == 4
    ensures |r| == |s| && forall i :: 0 <= i < |s| ==> r[i] == Xor(s[i], key[i % 4])
  {
    seq(|s|, i requires 0 <= i < |s| => Xor(s[i], key[i % 4]))
  }

  lemma Unmask(s: seq<Byte>, key: seq<Byte>)
    requires |key| == 4
    ensures Masked(Masked(s, key), key) == s
  {
    forall i | 0 <= i < |s| ensures Masked(Masked(s, key), key)[i] == s[i] {
      XorBack(s[i], key[i % 4]);
    }
  }

  // ----- Lengths in network byte order ------------------------------------------------

  function BigEndian(n: nat, v: nat): (r: seq<Byte>)
    ensures |r| == n
  {
    if n == 0 then [] else BigEndian(n - 1, v / 256) + [v % 256]
  }

  // The value of the first k bytes.
  function ValueOf(s: seq<Byte>, k: nat): nat
    requires k <= |s|
  {
    if k == 0 then 0 else ValueOf(s, k - 1) * 256 + s[k - 1]
  }

  lemma {:induction false} ValueMore(s: seq<Byte>, t: seq<Byte>, k: nat)
    requires k <= |s|
    ensures ValueOf(s + t, k) == ValueOf(s, k)
  {
    if k > 0 {
      ValueMore(s, t, k - 1);
    }
  }

  function Pow256(n: nat): nat {
    if n == 0 then 1 else 256 * Pow256(n - 1)
  }

  lemma {:induction false} BigEndianValue(n: nat, v: nat)
    requires v < Pow256(n)
    ensures ValueOf(BigEndian(n, v), n) == v
  {
    if n > 0 {
      BigEndianValue(n - 1, v / 256);
      ValueMore(BigEndian(n - 1, v / 256), [v % 256], n - 1);
    }
  }

  // ----- Frames -----------------------------------------------------------------------

  const TEXT_OP: nat := 1
  const BINARY_OP: nat := 2
  const CLOSE_OP: nat := 8

  datatype Phase = Fin | Mask | Extended2 | Extended8 | MaskingKey | PayloadData

  // A frame of the request's list; its fields change one by one while a frame is read into it.
  datatype Frame = Frame(
    fin: bool, rsv: nat, opcode: nat, mask: bool, payloadLen: nat, extended: nat, key: seq<Byte>, payload: seq<Byte>)

  // The list of the request and the frame on it that is being read. A key is stored in the
  // first frame of the list, so all others keep their zeros.
  datatype Machine = Machine(phase: Phase, list: seq<Frame>, cur: nat)

  const NO_KEY: seq<Byte> := [0, 0, 0, 0]
  const NEW_FRAME: Frame := Frame(false, 0, 0, false, 0, 0, NO_KEY, [])

  // A connection at its beginning.
  const START := Machine(Fin, [NEW_FRAME], 0)

  predicate Good(m: Machine) {
    && m.cur < |m.list|
    && forall k {:trigger m.list[k]} :: 0 <= k < |m.list| ==> |m.list[k].key| == 4 && (k > 0 ==> m.list[k].key == NO_KEY)
  }

  function Cur(m: Machine): Frame
    requires m.cur < |m.list|
  {
    m.list[m.cur]
  }

  function With(m: Machine, phase: Phase, f: Frame): Machine
    requires m.cur < |m.list|
  {
    m.(phase := phase, list := m.list[m.cur := f])
  }

  // stu_websocket_create_request: every time that bytes are received, the first frame is made
  // the current one again.
  function Restart(m: Machine): Machine {
    m.(cur := 0)
  }

  function AfterLength(f: Frame): Phase {
    if f.mask then MaskingKey else PayloadData
  }

  function FirstByte(f: Frame, c: Byte): Frame {
    f.(fin := c / 128 == 1, rsv := c / 16 % 8, opcode := c % 16)
  }

  function SecondByte(m: Machine, c: Byte): Machine
    requires m.cur < |m.list|
  {
    var n := Cur(m).(mask := c / 128 == 1, payloadLen := c % 128);
    if n.payloadLen == 126 then With(m, Extended2, n)
    else if n.payloadLen == 127 then With(m, Extended8, n)
    else With(m, AfterLength(n), n.(extended := n.payloadLen))
  }

  function Size(m: Machine, size: nat): Machine
    requires m.cur < |m.list|
  {
    With(m, AfterLength(Cur(m)), Cur(m).(extended := size))
  }

  function Key(m: Machine, key: seq<Byte>): Machine
    requires m.cur < |m.list|
  {
    m.(phase := PayloadData, list := m.list[0 := m.list[0].(key := key)])
  }

  // What one turn of the parser's loop does with the bytes that are left: take k of them, wait
  // for more, or find the payload complete.
  datatype Move = Go(m: Machine, k: nat) | Wait | Out

  function Turn(m: Machine, data: seq<Byte>): (r: Move)
    requires Good(m) && data != []
    ensures r.Go? ==> Good(r.m) && 0 < r.k <= |data| && r.m.phase != Fin && r.m.cur == m.cur && |r.m.list| == |m.list|
    ensures r.Out? ==> m.phase == PayloadData && Cur(m).extended <= |data|
  {
    match m.phase
    case Fin => Go(With(m, Mask, FirstByte(Cur(m), data[0])), 1)
    case Mask => Go(SecondByte(m, data[0]), 1)
    case Extended2 => if |data| < 2 then Wait else Go(Size(m, ValueOf(data, 2)), 2)
    case Extended8 => if |data| < 8 then Wait else Go(Size(m, ValueOf(data, 8)), 8)
    case MaskingKey => if |data| < 4 then Wait else Go(Key(m, data[..4]), 4)
    case PayloadData => if |data| < Cur(m).extended then Wait else Out
  }

  predicate Text(opcode: nat) {
    opcode == TEXT_OP || opcode == BINARY_OP
  }

  // Only text and binary frames are unmasked.
  function Payload(f: Frame, s: seq<Byte>): seq<Byte>
    requires |f.key| == 4
  {
    if f.mask && Text(f.opcode) then Masked(s, f.key) else s
  }

  // The payload is found.
  function Filled(m: Machine, s: seq<Byte>): (n: Machine)
    requires Good(m)
    ensures Good(n) && n.phase == Fin && n.cur == m.cur && |n.list| == |m.list|
  {
    With(m, Fin, Cur(m).(payload := Payload(Cur(m), s)))
  }

  datatype Parsed = More(m: Machine, rest: seq<Byte>) | Complete(m: Machine, rest: seq<Byte>)

  // One call of the parser. With no byte left it waits, even for a payload without bytes.
  function Parse(m: Machine, data: seq<Byte>): (r: Parsed)
    requires Good(m)
    ensures Good(r.m) && |r.rest| <= |data| && r.m.cur == m.cur && |r.m.list| == |m.list|
    ensures r.Complete? ==> r.m.phase == Fin && (m.phase == Fin ==> |r.rest| < |data|)
    decreases |data|
  {
    if data == [] then More(m, data)
    else
      match Turn(m, data)
      case Go(n, k) => Parse(n, data[k..])
      case Wait => More(m, data)
      case Out => Complete(Filled(m, data[..Cur(m).extended]), data[Cur(m).extended..])
  }

  // ----- Messages ---------------------------------------------------------------------

  // What a frame holds.
  datatype Message = Message(opcode: nat, payload: seq<Byte>)

  function Shown(list: seq<Frame>): (r: seq<Message>)
    ensures |r| == |list| && forall k {:trigger r[k]} :: 0 <= k < |list| ==> r[k] == Message(list[k].opcode, list[k].payload)
  {
    seq(|list|, k requires 0 <= k < |list| => Message(list[k].opcode, list[k].payload))
  }

  // What the text and binary frames of the list hold, one behind the other.
  function Joined(list: seq<Message>): seq<Byte> {
    if list == [] then [] else (if Text(list[0].opcode) then list[0].payload else []) + Joined(list[1..])
  }

  // The place of the first close frame, behind the end if there is none.
  function ClosePlace(list: seq<Message>): (k: nat)
    ensures k <= |list| && (k < |list| ==> list[k].opcode == CLOSE_OP)
    ensures forall i {:trigger list[i]} :: 0 <= i < k ==> list[i].opcode != CLOSE_OP
  {
    if list == [] || list[0].opcode == CLOSE_OP then 0 else 1 + ClosePlace(list[1..])
  }

  predicate HasClose(list: seq<Message>) {
    ClosePlace(list) < |list|
  }

  // Nothing is handed on for no text.
  function Given(text: seq<Byte>): seq<seq<Byte>> {
    if text == [] then [] else [text]
  }

  // What was handed on is dropped from the list, up to a close frame; the frames stay.
  function Swept(list: seq<Frame>): (r: seq<Frame>)
    ensures |r| == |list|
    ensures forall k {:trigger r[k]} :: 0 <= k < |list| ==>
      r[k] == if Text(list[k].opcode) && k < ClosePlace(Shown(list)) then list[k].(payload := []) else list[k]
  {
    seq(|list|, k requires 0 <= k < |list| =>
      if Text(list[k].opcode) && k < ClosePlace(Shown(list)) then list[k].(payload := []) else list[k])
  }

  // The list goes on behind a frame that does not end its message; else it is kept. A frame
  // that is there already is used again.
  function Next(n: Machine): (m: Machine)
    requires Good(n)
    ensures Good(m) && m.phase == n.phase && m.cur == if Cur(n).fin then n.cur else n.cur + 1
  {
    if Cur(n).fin then n.(list := Swept(n.list))
    else n.(cur := n.cur + 1, list := if n.cur + 1 < |n.list| then n.list else n.list + [NEW_FRAME])
  }

  datatype Stop = Waiting | Closed
  datatype Reading = Reading(messages: seq<Message>, requests: seq<seq<Byte>>, m: Machine, rest: seq<Byte>, stop: Stop)

  // The loop over frames: the frames that were read, and what was handed on for them. It ends
  // when it has to wait, or when a message ends and a close frame is on the list.
  function Read(m: Machine, data: seq<Byte>): (r: Reading)
    requires Good(m)
    ensures Good(r.m) && m.cur <= r.m.cur
    decreases |data|, if m.phase == Fin then 0 else 2
  {
    match Parse(m, data)
    case More(n, rest) => Reading([], [], n, rest, Waiting)
    case Complete(n, rest) => Finished(n, rest)
  }

  function Finished(n: Machine, rest: seq<Byte>): (r: Reading)
    requires Good(n) && n.phase == Fin
    ensures Good(r.m) && n.cur <= r.m.cur
    decreases |rest|, 1
  {
    var x, list := Message(Cur(n).opcode, Cur(n).payload), Shown(n.list);
    if Cur(n).fin && HasClose(list) then Reading([x], [], n.(list := Swept(n.list)), rest, Closed)
    else Then([x], if Cur(n).fin then Given(Joined(list)) else [], Read(Next(n), rest))
  }

  function Then(messages: seq<Message>, requests: seq<seq<Byte>>, r: Reading): Reading {
    r.(messages := messages + r.messages, requests := requests + r.requests)
  }

  // ----- More input -------------------------------------------------------------------

  // A turn that need not wait does not look at what comes later.
  lemma TurnMore(m: Machine, a: seq<Byte>, b: seq<Byte>)
    requires Good(m) && a != []
    ensures !Turn(m, a).Wait? ==> Turn(m, a + b) == Turn(m, a)
  {
    if |a| >= 2 { ValueMore(a, b, 2); }
    if |a| >= 8 { ValueMore(a, b, 8); }
    assert |a| >= 4 ==> (a + b)[..4] == a[..4];
  }

  lemma {:induction false} ParseMore(m: Machine, a: seq<Byte>, b: seq<Byte>)
    requires Good(m)
    ensures Parse(m, a + b) == match Parse(m, a)
      case More(n, rest) => Parse(n, rest + b)
      case Complete(n, rest) => Complete(n, rest + b)
    decreases |a|
  {
    if a != [] {
      TurnMore(m, a, b);
      var t := Turn(m, a);
      if t.Go? {
        CutMore(a, b, t.k);
        ParseMore(t.m, a[t.k..], b);
      } else if t.Out? {
        CutMore(a, b, Cur(m).extended);
      }
    }
  }

  lemma CutMore(a: seq<Byte>, b: seq<Byte>, k: nat)
    requires k <= |a|
    ensures (a + b)[..k] == a[..k] && (a + b)[k..] == a[k..] + b
  {
  }

  lemma {:induction false} ThenTwice(a: seq<Message>, b: seq<seq<Byte>>, c: seq<Message>, d: seq<seq<Byte>>, r: Reading)
    ensures Then(a, b, Then(c, d, r)) == Then(a + c, b + d, r)
  {
    Regroup(a, c, r.messages);
    Regroup(b, d, r.requests);
  }

  // Reading on when more has come is the same as reading it all, as long as the current frame
  // stays the current one.
  lemma {:induction false} ReadMore(m: Machine, a: seq<Byte>, b: seq<Byte>)
    requires Good(m)
    ensures var r := Read(m, a);
      Read(m, a + b) ==
        if r.stop == Waiting then Then(r.messages, r.requests, Read(r.m, r.rest + b)) else r.(rest := r.rest + b)
    decreases |a|, if m.phase == Fin then 0 else 1
  {
    ParseMore(m, a, b);
    match Parse(m, a)
    case More(n, rest) =>
      ReadSame(m, a + b, n, rest + b);
    case Complete(n, rest) =>
      if !Cur(n).fin || !HasClose(Shown(n.list)) {
        ReadMore(Next(n), rest, b);
        var r, t := Read(Next(n), rest), if Cur(n).fin then Given(Joined(Shown(n.list))) else [];
        ThenTwice([Message(Cur(n).opcode, Cur(n).payload)], t, r.messages, r.requests, Read(r.m, r.rest + b));
      }
  }

  lemma ReadSame(m: Machine, a: seq<Byte>, n: Machine, b: seq<Byte>)
    requires Good(m) && Good(n) && Parse(m, a) == Parse(n, b)
    ensures Read(m, a) == Read(n, b)
  {
  }

  // Once it waits, it has nothing more to say about the same input.
  lemma {:induction false} ReadWaits(m: Machine, data: seq<Byte>)
    requires Good(m) && Read(m, data).stop == Waiting
    ensures var r := Read(m, data); Parse(r.m, r.rest) == More(r.m, r.rest)
    decreases |data|, if m.phase == Fin then 0 else 1
  {
    ParseWaits(m, data);
    match Parse(m, data)
    case More(_, _) =>
    case Complete(n, rest) => ReadWaits(Next(n), rest);
  }

  lemma {:induction false} ParseWaits(m: Machine, data: seq<Byte>)
    requires Good(m)
    ensures var r := Parse(m, data); r.More? ==> Parse(r.m, r.rest) == r
    decreases |data|
  {
    if data != [] {
      match Turn(m, data)
      case Go(n, k) => ParseWaits(n, data[k..]);
      case _ =>
    }
  }

  // The parser touches no other frame of the list, but for the key of the first one, and
  // what the first byte says of a frame stays.
  lemma {:induction false} ParseKeeps(m: Machine, data: seq<Byte>)
    requires Good(m)
    ensures var n := Parse(m, data).m;
      && (forall k {:trigger n.list[k]} :: 0 <= k < |n.list| && k != m.cur ==>
            n.list[k] == m.list[k].(key := n.list[k].key))
      && (m.phase != Fin ==> Cur(n).opcode == Cur(m).opcode && Cur(n).fin == Cur(m).fin)
    decreases |data|
  {
    if data != [] {
      match Turn(m, data)
      case Go(n, k) => ParseKeeps(n, data[k..]);
      case _ =>
    }
  }

  // ----- Chunks -----------------------------------------------------------------------

  function Flat(chunks: seq<seq<Byte>>): seq<Byte> {
    if chunks == [] then [] else chunks[0] + Flat(chunks[1..])
  }

  // What is read and handed on while the input is received in chunks, each behind what is left.
  function Deliver(m: Machine, left: seq<Byte>, chunks: seq<seq<Byte>>): (r: Reading)
    requires Good(m)
    ensures Good(r.m)
    decreases |chunks|
  {
    if chunks == [] then Reading([], [], m, left, Waiting)
    else
      var r := Read(Restart(m), left + chunks[0]);
      if r.stop != Waiting then r else Then(r.messages, r.requests, Deliver(r.m, r.rest, chunks[1..]))
  }

  // All but what is not read any more.
  predicate Same(a: Reading, b: Reading) {
    a.messages == b.messages && a.requests == b.requests && a.stop == b.stop && (a.stop == Waiting ==> a == b)
  }

  // The same comes out however the input is cut, if at the last cut the first frame is the
  // current one; then it is at the earlier ones.
  lemma {:induction false} DeliverIsRead(m: Machine, left: seq<Byte>, chunks: seq<seq<Byte>>)
    requires Good(m) && m.cur == 0 && chunks != []
    requires Read(m, left + Flat(chunks[..|chunks| - 1])).m.cur == 0
    ensures Same(Deliver(m, left, chunks), Read(m, left + Flat(chunks)))
    decreases |chunks|
  {
    var data, rest := left + chunks[0], chunks[1..];
    var r := Read(m, data);
    assert left + Flat(chunks) == data + Flat(rest) && Restart(m) == m;
    if rest == [] {
      assert data + [] == data && r.messages + [] == r.messages && r.requests + [] == r.requests;
    } else {
      ReadMore(m, data, Flat(rest));
      if r.stop == Waiting {
        LastCut(m, left, chunks);
        DeliverIsRead(r.m, r.rest, rest);
      }
    }
  }

  // The last cut is the last cut of the rest, too.
  lemma {:induction false} LastCut(m: Machine, left: seq<Byte>, chunks: seq<seq<Byte>>)
    requires Good(m) && |chunks| > 1 && Read(m, left + chunks[0]).stop == Waiting
    requires Read(m, left + Flat(chunks[..|chunks| - 1])).m.cur == 0
    ensures var r, rest := Read(m, left + chunks[0]), chunks[1..];
      r.m.cur == 0 && Read(r.m, r.rest + Flat(rest[..|rest| - 1])).m.cur == 0
  {
    var data, rest := left + chunks[0], chunks[1..];
    var front := rest[..|rest| - 1];
    assert chunks[..|chunks| - 1] == [chunks[0]] + front;
    assert left + Flat(chunks[..|chunks| - 1]) == data + Flat(front);
    ReadMore(m, data, Flat(front));
  }

  // Received in two lots.
  lemma {:induction false} DeliverSplit(m: Machine, left: seq<Byte>, a: seq<seq<Byte>>, b: seq<seq<Byte>>)
    requires Good(m) && Deliver(m, left, a).stop == Waiting
    ensures var r := Deliver(m, left, a); Deliver(m, left, a + b) == Then(r.messages, r.requests, Deliver(r.m, r.rest, b))
    decreases |a|
  {
    if a == [] {
      assert a + b == b;
      var d := Deliver(m, left, b);
      assert [] + d.messages == d.messages && [] + d.requests == d.requests;
    } else {
      assert (a + b)[1..] == a[1..] + b;
      var r := Read(Restart(m), left + a[0]);
      DeliverSplit(r.m, r.rest, a[1..], b);
      var t := Deliver(r.m, r.rest, a[1..]);
      ThenTwice(r.messages, r.requests, t.messages, t.requests, Deliver(t.m, t.rest, b));
    }
  }

  lemma {:induction false} FlatConcat(a: seq<seq<Byte>>, b: seq<seq<Byte>>)
    ensures Flat(a + b) == Flat(a) + Flat(b)
  {
    if a == [] {
      assert a + b == b;
    } else {
      assert (a + b)[1..] == a[1..] + b;
      FlatConcat(a[1..], b);
    }
  }

  // ----- Frames as they are sent ------------------------------------------------------

  // A frame, masked if there is a key (sections 5.2 and 5.3 of RFC 6455); `fin` if it is the
  // last of its message.
  datatype Sent = Sent(fin: bool, opcode: nat, payload: seq<Byte>, key: Option<seq<Byte>>)

  predicate Sendable(s: Sent) {
    && s.opcode < 16 && |s.payload| < Pow256(8)
    && (s.key.Some? ==> |s.key.value| == 4)
  }

  lemma SendableIff(s: Sent)
    ensures Sendable(s) <==>
      s.opcode < 16 && |s.payload| < 0x1_0000_0000_0000_0000 && (s.key.Some? ==> |s.key.value| == 4)
  {
    assert Pow256(4) == 0x1_0000_0000;
  }

  function LengthBytes(mask: bool, n: nat): seq<Byte> {
    var bit := if mask then 128 else 0;
    if n < 126 then [bit + n]
    else if n < 65536 then [bit + 126] + BigEndian(2, n)
    else [bit + 127] + BigEndian(8, n)
  }

  function Body(s: Sent): seq<Byte>
    requires Sendable(s)
  {
    match s.key
    case None => s.payload
    case Some(key) => key + Masked(s.payload, key)
  }

  function Lead(s: Sent): Byte
    requires Sendable(s)
  {
    (if s.fin then 128 else 0) + s.opcode
  }

  function Wire(s: Sent): seq<Byte>
    requires Sendable(s)
  {
    [Lead(s)] + (LengthBytes(s.key.Some?, |s.payload|) + Body(s))
  }

  // What the parser leaves in the buffer: the payload, except that it unmasks only text and
  // binary frames, and those only if they are the first of the list.
  function Delivered(s: Sent, first: bool): Message
    requires Sendable(s)
  {
    if s.key.Some? && !(first && Text(s.opcode)) then Message(s.opcode, Masked(s.payload, s.key.value))
    else Message(s.opcode, s.payload)
  }

  // Exactly when the payload arrives as it was sent.
  lemma DeliveredIff(s: Sent, first: bool)
    requires Sendable(s)
    ensures Delivered(s, first).payload == s.payload <==>
      s.key.None? || (first && (s.opcode == TEXT_OP || s.opcode == BINARY_OP)) || ZeroKey(s)
  {
    if s.key.Some? {
      MaskedSame(s.payload, s.key.value);
    }
  }

  // The bytes of the key that are used are 0.
  predicate ZeroKey(s: Sent)
    requires Sendable(s) && s.key.Some?
  {
    forall i :: 0 <= i < |s.payload| ==> s.key.value[i % 4] == 0
  }

  lemma MaskedSame(s: seq<Byte>, key: seq<Byte>)
    requires |key| == 4
    ensures Masked(s, key) == s <==> forall i :: 0 <= i < |s| ==> key[i % 4] == 0
  {
    forall i | 0 <= i < |s| ensures Masked(s, key)[i] == s[i] <==> key[i % 4] == 0 {
      XorSame(s[i], key[i % 4]);
    }
    if Masked(s, key) == s {
      forall i | 0 <= i < |s| ensures key[i % 4] == 0 {
        assert Masked(s, key)[i] == s[i];
      }
    }
  }

  // A masked ping with the payload 1 is seen as 254, and so is a text in a later frame.
  lemma SomeStayMasked()
    ensures Delivered(Sent(true, 9, [1], Some([255, 0, 0, 0])), true) == Message(9, [254])
    ensures Delivered(Sent(true, TEXT_OP, [1], Some([255, 0, 0, 0])), false) == Message(TEXT_OP, [254])
  {
    assert Masked([1], [255, 0, 0, 0])[0] == 254;
  }

  lemma SliceCut(s: seq<Byte>, p: nat, n: nat, end: nat)
    requires p + n <= end <= |s|
    ensures s[p..end][..n] == s[p..p + n] && s[p..end][n..] == s[p + n..end]
  {
  }

  lemma SameSlice(a: seq<Byte>, b: seq<Byte>, p: nat, end: nat)
    requires p <= end <= |a| == |b| && forall k {:trigger b[k]} :: p <= k < end ==> a[k] == b[k]
    ensures a[p..end] == b[p..end]
  {
  }

  lemma {:induction false} JoinedFrom(list: seq<Message>, i: nat)
    requires i < |list|
    ensures Joined(list[i..]) ==
      if Text(list[i].opcode) then list[i].payload + Joined(list[i + 1..]) else Joined(list[i + 1..])
  {
    assert list[i..][1..] == list[i + 1..];
    assert [] + Joined(list[i + 1..]) == Joined(list[i + 1..]);
  }

  // ----- The parser -------------------------------------------------------------------

  datatype Rc = OK | DONE | AGAIN

  class Request {
    var state: Phase
    var frames: seq<Frame>  // the list that begins with frames_in
    var frame: nat          // where the current one is on it

    constructor ()
      ensures Held() == START
    {
      state, frames, frame := Fin, [NEW_FRAME], 0;
    }

    ghost function Current(state: Phase): Machine
      reads this
    {
      Machine(state, frames, frame)
    }

    ghost function Held(): Machine
      reads this
    {
      Current(state)
    }

    // The cases before the payload; `taken` bytes are used up, none if there are too few.
    method HeaderByte(state0: Phase, b: array<Byte>, p: nat, end: nat) returns (state: Phase, taken: nat)
      requires p < end <= b.Length && Good(Current(state0)) && state0 != PayloadData
      modifies this`frames
      ensures Turn(old(Current(state0)), b[p..end]) == if taken == 0 then Wait else Go(Current(state), taken)
      ensures taken == 0 ==> Current(state) == old(Current(state0))
    {
      ghost var data := b[p..end];
      var f := frames[frame];
      state, taken := state0, 0;
      match state0 {
        case Fin =>
          f := f.(fin := b[p] / 128 == 1, rsv := b[p] / 16 % 8, opcode := b[p] % 16);
          state, taken := Mask, 1;
        case Mask =>
          f := f.(mask := b[p] / 128 == 1, payloadLen := b[p] % 128);
          taken := 1;
          if f.payloadLen == 126 {
            state := Extended2;
          } else if f.payloadLen == 127 {
            state := Extended8;
          } else {
            f := f.(extended := f.payloadLen);
            state := if f.mask then MaskingKey else PayloadData;
          }
        case Extended2 =>
          if end - p < 2 {
            return;
          }
          assert ValueOf(data, 1) == b[p] && data[1] == b[p + 1];
          var high: int := b[p];
          f := f.(extended := high * 256 + b[p + 1]);
          state, taken := if f.mask then MaskingKey else PayloadData, 2;
        case Extended8 =>
          if end - p < 8 {
            return;
          }
          var high: int := b[p];
          assert ValueOf(data, 1) == high;
          high := high * 256 + b[p + 1];
          assert ValueOf(data, 2) == high;
          high := high * 256 + b[p + 2];
          assert ValueOf(data, 3) == high;
          high := high * 256 + b[p + 3];
          assert ValueOf(data, 4) == high;
          high := high * 256 + b[p + 4];
          assert ValueOf(data, 5) == high;
          high := high * 256 + b[p + 5];
          assert ValueOf(data, 6) == high;
          high := high * 256 + b[p + 6];
          assert ValueOf(data, 7) == high;
          high := high * 256 + b[p + 7];
          assert ValueOf(data, 8) == high;
          f := f.(extended := high);
          state, taken := if f.mask then MaskingKey else PayloadData, 8;
        case MaskingKey =>
          if end - p < 4 {
            return;
          }
          assert b[p..p + 4] == data[..4];
          frames := frames[0 := frames[0].(key := b[p..p + 4])];
          return PayloadData, 4;
      }
      frames := frames[frame := f];
    }

    // Lines 91-93.
    method UnmaskPayload(b: array<Byte>, p: nat, extended: nat, key: seq<Byte>)
      requires p + extended <= b.Length && |key| == 4
      modifies b
      ensures b[p..p + extended] == Masked(old(b[p..p + extended]), key)
      ensures forall k :: 0 <= k < b.Length && !(p <= k < p + extended) ==> b[k] == old(b[k])
    {
      for i := 0 to extended
        invariant forall k :: p <= k < p + i ==> b[k] == Xor(old(b[k]), key[(k - p) % 4])
        invariant forall k :: 0 <= k < b.Length && !(p <= k < p + i) ==> b[k] == old(b[k])
      {
        b[p + i] := Xor(b[p + i], key[i % 4]);
      }
    }

    // Lines 87-119: the payload is there.
    method TakePayload(b: array<Byte>, p: nat, end: nat) returns (q: nat)
      requires Good(Current(Fin)) && p + frames[frame].extended <= end <= b.Length
      modifies this`frames, b
      ensures p <= q <= end
      ensures Current(Fin) == Filled(old(Held()), old(b[p..end])[..q - p]) && q == p + old(frames[frame].extended)
      ensures b[q..end] == old(b[p..end])[q - p..] && b[p..q] == frames[frame].payload
      ensures forall k {:trigger b[k]} :: 0 <= k < b.Length && !(p <= k < q) ==> b[k] == old(b[k])
    {
      var f := frames[frame];
      ghost var was := b[..];
      SliceCut(was, p, f.extended, end);
      if Text(f.opcode) {
        if f.mask {
          UnmaskPayload(b, p, f.extended, f.key);
        }
      }
      q := p + f.extended;
      SameSlice(was, b[..], q, end);
      frames := frames[frame := f.(payload := b[p..q])];
    }

    method HeaderTurn(b: array<Byte>, p: nat, end: nat, state0: Phase, ghost all: Parsed)
      returns (state: Phase, q: nat, again: bool)
      requires p < end <= b.Length && Good(Current(state0)) && Parse(Current(state0), b[p..end]) == all && state0 != PayloadData
      modifies this`frames
      ensures p <= q <= end && Good(Current(state))
      ensures if again then q == p && all == More(Current(state), b[p..end]) else p < q && Parse(Current(state), b[q..end]) == all
    {
      ghost var data := b[p..end];
      var taken;
      state, taken := HeaderByte(state0, b, p, end);
      q, again := p + taken, taken == 0;
      assert data[taken..] == b[q..end];
    }

    // One turn of the loop, towards a result that is named beforehand.
    method ParseTurn(b: array<Byte>, p: nat, end: nat, state0: Phase, ghost all: Parsed)
      returns (state: Phase, q: nat, done: bool, again: bool)
      requires p < end <= b.Length && Good(Current(state0)) && Parse(Current(state0), b[p..end]) == all
      modifies this`frames, b
      ensures p <= q <= end && Good(Current(state))
      ensures !done ==> b[..] == old(b[..])
      ensures !done && !again ==> p < q && Parse(Current(state), b[q..end]) == all
      ensures !done && again ==> q == p && all == More(Current(state), b[p..end])
      ensures done ==> all == Complete(Current(Fin), b[q..end]) && b[p..q] == frames[frame].payload
      ensures forall k {:trigger b[k]} :: 0 <= k < b.Length && !(p <= k < q) ==> b[k] == old(b[k])
    {
      state, q, done, again := state0, p, false, false;
      if state0 != PayloadData {
        state, q, again := HeaderTurn(b, p, end, state0, all);
      } else if end - p < frames[frame].extended {
        again := true;
      } else {
        q := TakePayload(b, p, end);
        done := true;
      }
    }

    method ParseFrame(b: array<Byte>, last: nat, end: nat) returns (rc: Rc, start: nat, next: nat)
      requires last <= end <= b.Length && Good(Held())
      modifies this`state, this`frames, b
      ensures last <= start <= next <= end && Good(Held())
      ensures forall k {:trigger b[k]} :: 0 <= k < b.Length && !(start <= k < next) ==> b[k] == old(b[k])
      ensures match Parse(old(Held()), old(b[last..end]))
        case More(n, rest) => rc == AGAIN && Held() == n && start == next && b[next..end] == rest
        case Complete(n, rest) =>
          && rc == (if Cur(n).fin then DONE else OK) && Held() == n
          && b[start..next] == Cur(n).payload && b[next..end] == rest
    {
      var state := this.state;
      var p := last;
      ghost var all := Parse(Held(), b[last..end]);
      while p < end
        invariant last <= p <= end && b[..] == old(b[..]) && Good(Current(state))
        invariant Parse(Current(state), b[p..end]) == all
      {
        var q, done, again;
        state, q, done, again := ParseTurn(b, p, end, state, all);
        if done {
          this.state := Fin;
          rc := if frames[frame].fin then DONE else OK;
          return rc, p, q;
        }
        if again {
          break;
        }
        p := q;
      }
      this.state := state;
      return AGAIN, p, p;
    }

    // Lines 122-143: what the list holds is put together and dropped from it, up to a close
    // frame.
    method Concat() returns (closed: bool, text: seq<Byte>)
      modifies this`frames
      ensures closed == HasClose(Shown(old(frames))) && (!closed ==> text == Joined(Shown(old(frames))))
      ensures frames == Swept(old(frames))
    {
      ghost var was, list := frames, Shown(frames);
      closed, text := false, [];
      assert list[0..] == list;
      for i := 0 to |frames|
        invariant |frames| == |was| && i <= ClosePlace(list)
        invariant text + Joined(list[i..]) == Joined(list)
        invariant forall k {:trigger frames[k]} :: 0 <= k < |was| ==>
          frames[k] == if k < i && Text(was[k].opcode) then was[k].(payload := []) else was[k]
      {
        ghost var before := text;
        JoinedFrom(list, i);
        var f := frames[i];
        if !Text(f.opcode) {
          if f.opcode == CLOSE_OP {
            closed := true;
            assert ClosePlace(list) == i;
            break;
          }
        } else {
          text := text + f.payload;
          frames := frames[i := f.(payload := [])];
          Regroup(before, list[i].payload, Joined(list[i + 1..]));
        }
      }
      if !closed {
        assert list[|list|..] == [];
      }
    }

    // Lines 158-175: the next frame of the list, a new one if there is none.
    method OpenFrame()
      requires Good(Held()) && !Cur(Held()).fin
      modifies this`frames, this`frame
      ensures Held() == Next(old(Held()))
    {
      if frame + 1 == |frames| {
        frames := frames + [NEW_FRAME];
      }
      frame := frame + 1;
    }

    // One turn of the loop behind the parser.
    method FrameRead(ghost rest: seq<Byte>, ghost all: Reading, requests: seq<seq<Byte>>, ghost messages: seq<Message>)
      returns (closed: bool, requests2: seq<seq<Byte>>, ghost messages2: seq<Message>)
      requires Good(Held()) && state == Fin && all == Then(messages, requests, Finished(Held(), rest))
      modifies this`frames, this`frame
      ensures Good(Held()) && state == Fin
      ensures if closed then all == Reading(messages2, requests2, Held(), rest, Closed)
              else all == Then(messages2, requests2, Read(Held(), rest))
    {
      ghost var n, x := Held(), Message(frames[frame].opcode, frames[frame].payload);
      closed, requests2, messages2 := false, requests, messages + [x];
      var text: seq<Byte> := [];
      if !frames[frame].fin {
        OpenFrame();
      } else {
        closed, text := Concat();
        if closed {
          assert requests + [] == requests;
          return;
        }
        if text != [] {
          requests2 := requests + [text];
        }
      }
      assert requests2 == requests + Given(text);
      ThenTwice(messages, requests, [x], Given(text), Read(Next(n), rest));
    }

    // The loop of stu_websocket_process_request: what it hands on to
    // stu_websocket_analyze_request, for the frames that it reads.
    method ProcessRequest(b: array<Byte>, last: nat, end: nat)
      returns (requests: seq<seq<Byte>>, stop: Stop, next: nat, ghost messages: seq<Message>)
      requires last <= end <= b.Length && Good(Held())
      modifies this, b
      ensures last <= next <= end && Good(Held())
      ensures Read(old(Held()), old(b[last..end])) == Reading(messages, requests, Held(), b[next..end], stop)
    {
      requests, messages, next := [], [], last;
      ghost var all := Read(Held(), b[last..end]);
      assert Then([], [], all) == all;
      var more := true;
      stop := Waiting;
      while more
        invariant last <= next <= end && Good(Held())
        invariant more ==> all == Then(messages, requests, Read(Held(), b[next..end]))
        invariant !more ==> all == Reading(messages, requests, Held(), b[next..end], stop)
        decreases more, end - next, if state == Fin then 0 else 1
      {
        more, stop, next, requests, messages := TakeFrame(b, next, end, all, requests, messages);
      }
    }

    // One turn of the loop.
    method TakeFrame(b: array<Byte>, next0: nat, end: nat, ghost all: Reading, requests0: seq<seq<Byte>>, ghost messages0: seq<Message>)
      returns (more: bool, stop: Stop, next: nat, requests: seq<seq<Byte>>, ghost messages: seq<Message>)
      requires next0 <= end <= b.Length && Good(Held()) && all == Then(messages0, requests0, Read(Held(), b[next0..end]))
      modifies this, b
      ensures next0 <= next <= end && Good(Held())
      ensures more ==> all == Then(messages, requests, Read(Held(), b[next..end]))
      ensures more ==> state == Fin && (next0 < next || old(state) != Fin)
      ensures !more ==> all == Reading(messages, requests, Held(), b[next..end], stop)
    {
      stop, requests, messages := Waiting, requests0, messages0;
      var rc, start, q := ParseFrame(b, next0, end);
      next, more := q, rc != AGAIN;
      if rc == AGAIN {
        assert requests + [] == requests && messages + [] == messages;
        return;
      }
      var closed;
      closed, requests, messages := FrameRead(b[next..end], all, requests, messages);
      if closed {
        more, stop := false, Closed;
      } else if rc == DONE && next == end {
        more := false;
        assert requests + [] == requests && messages + [] == messages;
      }
    }

    // stu_websocket_wait_request_handler: bytes are received behind those that are left, the
    // request goes back to its first frame, and the loop runs.
    method Receive(b: array<Byte>, last: nat, end: nat, bytes: seq<Byte>)
      returns (requests: seq<seq<Byte>>, stop: Stop, next: nat, end2: nat, ghost messages: seq<Message>)
      requires last <= end && end + |bytes| <= b.Length && Good(Held())
      modifies this, b
      ensures last <= next <= end2 == end + |bytes| && Good(Held())
      ensures Read(Restart(old(Held())), old(b[last..end]) + bytes) == Reading(messages, requests, Held(), b[next..end2], stop)
    {
      ghost var left := b[last..end];
      end2 := end + |bytes|;
      for i := 0 to |bytes|
        invariant b[last..end] == left && b[end..end + i] == bytes[..i] && Held() == old(Held())
      {
        b[end + i] := bytes[i];
      }
      assert b[last..end2] == left + bytes;
      frame := 0;
      requests, stop, next, messages := ProcessRequest(b, last, end2);
    }

    // A connection from its beginning, as bytes are received, until it is closed.
    method Serve(b: array<Byte>, chunks: seq<seq<Byte>>) returns (requests: seq<seq<Byte>>, stop: Stop, ghost messages: seq<Message>)
      requires |Flat(chunks)| <= b.Length && Good(Held())
      modifies this, b
      ensures var d := Deliver(old(Held()), [], chunks); requests == d.requests && stop == d.stop && messages == d.messages
    {
      requests, messages, stop := [], [], Waiting;
      var next, end := 0, 0;
      ghost var all := Deliver(Held(), [], chunks);
      assert Then([], [], all) == all && chunks[0..] == chunks;
      for i := 0 to |chunks|
        invariant next <= end && end + |Flat(chunks[i..])| <= b.Length && Good(Held()) && stop == Waiting
        invariant all == Then(messages, requests, Deliver(Held(), b[next..end], chunks[i..]))
      {
        assert chunks[i..][0] == chunks[i] && chunks[i..][1..] == chunks[i + 1..];
        var more;
        ghost var read;
        ghost var was := messages;
        ghost var handed := requests;
        more, stop, next, end, read := Receive(b, next, end, chunks[i]);
        requests, messages := requests + more, messages + read;
        if stop == Closed {
          return;
        }
        ThenTwice(was, handed, read, more, Deliver(Held(), b[next..end], chunks[i + 1..]));
      }
      assert chunks[|chunks|..] == [] && messages + [] == messages && requests + [] == requests;
    }
  }

  lemma TwoBytes(v: nat)
    requires v < 65536
    ensures BigEndian(2, v) == [v / 256, v % 256]
  {
    assert BigEndian(1, v / 256) == BigEndian(0, v / 256 / 256) + [v / 256 % 256];
  }

  lemma EightBytes(v: nat)
    ensures BigEndian(8, v) == [
      v / 0x100_0000_0000_0000 % 256, v / 0x1_0000_0000_0000 % 256, v / 0x100_0000_0000 % 256, v / 0x1_0000_0000 % 256,
      v / 0x100_0000 % 256, v / 0x1_0000 % 256, v / 0x100 % 256, v % 256]
  {
    assert v / 0x100 / 256 == v / 0x1_0000;
    assert v / 0x1_0000 / 256 == v / 0x100_0000;
    assert v / 0x100_0000 / 256 == v / 0x1_0000_0000;
    assert v / 0x1_0000_0000 / 256 == v / 0x100_0000_0000;
    assert v / 0x100_0000_0000 / 256 == v / 0x1_0000_0000_0000;
    assert v / 0x1_0000_0000_0000 / 256 == v / 0x100_0000_0000_0000;
    var v1, v2, v3, v4 := v / 0x100, v / 0x1_0000, v / 0x100_0000, v / 0x1_0000_0000;
    var v5, v6, v7 := v / 0x100_0000_0000, v / 0x1_0000_0000_0000, v / 0x100_0000_0000_0000;
    assert BigEndian(1, v7) == [v7 % 256];
    assert BigEndian(2, v6) == [v7 % 256, v6 % 256];
    assert BigEndian(3, v5) == [v7 % 256, v6 % 256, v5 % 256];
    assert BigEndian(4, v4) == [v7 % 256, v6 % 256, v5 % 256, v4 % 256];
    assert BigEndian(5, v3) == [v7 % 256, v6 % 256, v5 % 256, v4 % 256, v3 % 256];
    assert BigEndian(6, v2) == [v7 % 256, v6 % 256, v5 % 256, v4 % 256, v3 % 256, v2 % 256];
    assert BigEndian(7, v1) == [v7 % 256, v6 % 256, v5 % 256, v4 % 256, v3 % 256, v2 % 256, v1 % 256];
  }

  // The header for `size` bytes of payload that lie from index 10 on, put right in front of
  // them.
  method EncodeHeader(opcode: nat, data: array<Byte>, size: nat) returns (start: nat, extened: nat)
    requires opcode < 16 && size < Pow256(8) && data.Length >= 10
    modifies data
    ensures start + 2 + extened == 10
    ensures data[start..10] == [128 + opcode] + LengthBytes(false, size)
    ensures data[..start] == old(data[..start]) && data[10..] == old(data[10..])
  {
    if size < 126 {
      start, extened := 8, 0;
      data[8] := 128 + opcode;
      data[9] := size;
      assert data[8..10] == [128 + opcode] + LengthBytes(false, size);
    } else if size < 65536 {
      start, extened := 6, 2;
      data[6] := 128 + opcode;
      data[7] := 126;
      data[8] := size / 256;
      data[9] := size % 256;
      TwoBytes(size);
      assert data[6..10] == [128 + opcode] + LengthBytes(false, size);
    } else {
      start, extened := 0, 8;
      data[0] := 128 + opcode;
      data[1] := 127;
      data[2] := size / 0x100_0000_0000_0000 % 256;
      data[3] := size / 0x1_0000_0000_0000 % 256;
      data[4] := size / 0x100_0000_0000 % 256;
      data[5] := size / 0x1_0000_0000 % 256;
      data[6] := size / 0x100_0000 % 256;
      data[7] := size / 0x1_0000 % 256;
      data[8] := size / 0x100 % 256;
      data[9] := size % 256;
      EightBytes(size);
      assert data[0..10] == [128 + opcode] + LengthBytes(false, size);
    }
  }

  method EncodeFrame(opcode: nat, data: array<Byte>, size: nat) returns (start: nat, extened: nat)
    requires opcode < 16 && size < Pow256(8) && data.Length >= 10 + size
    modifies data
    ensures start + 2 + extened == 10
    ensures data[start..10 + size] == Wire(Sent(true, opcode, old(data[10..10 + size]), None))
    ensures data[..start] == old(data[..start]) && data[10..] == old(data[10..])
  {
    ghost var payload := data[10..10 + size];
    start, extened := EncodeHeader(opcode, data, size);
    assert payload == data[10..][..size];
    assert data[start..10 + size] == data[start..10] + payload;
    Regroup([128 + opcode], LengthBytes(false, size), payload);
  }
}
