// Frames as they are sent are read back as they are received: the functions of WebSocket.
module WebSocketFrames {
  import opened Bytes
  import opened WebSocket

  // ----- One frame --------------------------------------------------------------------

  lemma ParseGo(m: Machine, head: seq<Byte>, tail: seq<Byte>, n: Machine)
    requires Good(m) && head != [] && Turn(m, head) == Go(n, |head|)
    ensures Parse(m, head + tail) == Parse(n, tail)
  {
    TurnMore(m, head, tail);
    assert (head + tail)[|head|..] == tail;
  }

  // ----- One frame, byte by byte ------------------------------------------------------

  lemma ParseTurn(m: Machine, d: seq<Byte>, i: nat, n: Machine, k: nat)
    requires Good(m) && i < |d| && Turn(m, d[i..]) == Go(n, k)
    ensures Parse(m, d[i..]) == Parse(n, d[i + k..])
  {
    assert d[i..][k..] == d[i + k..];
  }

  // The length in the bytes behind the second one (section 5.2 of RFC 6455).
  predicate LengthAt(d: seq<Byte>, head: nat, size: nat) {
    && |d| >= head >= 2
    && (d[1] % 128 < 126 ==> head == 2 && size == d[1] % 128)
    && (d[1] % 128 == 126 ==> head == 4 && size == ValueOf(d[2..], 2))
    && (d[1] % 128 == 127 ==> head == 10 && size == ValueOf(d[2..], 8))
  }

  lemma ValueOfTwo(s: seq<Byte>)
    requires |s| >= 2
    ensures ValueOf(s, 2) == 0x100 * s[0] as int + s[1]
  {
    assert ValueOf(s, 1) == s[0];
  }

  lemma ValueOfEight(s: seq<Byte>)
    requires |s| >= 8
    ensures ValueOf(s, 8) == 0x100_0000_0000_0000 * s[0] as int + 0x1_0000_0000_0000 * s[1] as int
      + 0x100_0000_0000 * s[2] as int + 0x1_0000_0000 * s[3] as int + 0x100_0000 * s[4] as int + 0x1_0000 * s[5] as int
      + 0x100 * s[6] as int + s[7]
  {
    ValueOfTwo(s);
    assert ValueOf(s, 3) == ValueOf(s, 2) * 256 + s[2];
    assert ValueOf(s, 4) == ValueOf(s, 3) * 256 + s[3];
    assert ValueOf(s, 5) == ValueOf(s, 4) * 256 + s[4];
    assert ValueOf(s, 6) == ValueOf(s, 5) * 256 + s[5];
    assert ValueOf(s, 7) == ValueOf(s, 6) * 256 + s[6];
  }

  lemma LengthRead(m: Machine, d: seq<Byte>, head: nat, size: nat) returns (n: Machine)
    requires Good(m) && m.phase == Fin && |d| >= 2 && LengthAt(d, head, size)
    ensures Good(n) && n.phase == (if d[1] >= 128 then MaskingKey else PayloadData) && n.cur == m.cur
    ensures var f := Cur(n); f.fin == (d[0] >= 128) && f.opcode == d[0] % 16 && f.mask == (d[1] >= 128) && f.extended == size
    ensures Parse(m, d) == Parse(n, d[head..])
  {
    assert d[0..] == d;
    var m1 := With(m, Mask, FirstByte(Cur(m), d[0]));
    ParseTurn(m, d, 0, m1, 1);
    var m2 := SecondByte(m1, d[1]);
    ParseTurn(m1, d, 1, m2, 1);
    n := m2;
    if d[1] % 128 >= 126 {
      var k := head - 2;
      n := Size(m2, size);
      ParseTurn(m2, d, 2, n, k);
    }
  }

  lemma KeyRead(m: Machine, d: seq<Byte>, i: nat) returns (n: Machine)
    requires Good(m) && m.phase == MaskingKey && i + 4 <= |d|
    ensures n == Key(m, d[i..i + 4]) && Good(n) && Parse(m, d[i..]) == Parse(n, d[i + 4..])
  {
    n := Key(m, d[i..i + 4]);
    assert d[i..][..4] == d[i..i + 4];
    ParseTurn(m, d, i, n, 4);
  }

  lemma PayloadRead(m: Machine, d: seq<Byte>, k: nat)
    requires Good(m) && m.phase == PayloadData && k < |d| && k + Cur(m).extended <= |d|
    ensures var end := k + Cur(m).extended; Parse(m, d[k..]) == Complete(Filled(m, d[k..end]), d[end..])
  {
    var end := k + Cur(m).extended;
    assert d[k..][..Cur(m).extended] == d[k..end] && d[k..][Cur(m).extended..] == d[end..];
  }

  // What the parser makes of any bytes that are a frame with something behind its header: a
  // text or binary frame that comes first is unmasked, nothing else is.
  lemma BytesRead(m: Machine, d: seq<Byte>, head: nat, size: nat)
    requires Good(m) && m.phase == Fin && |d| >= head >= 2
    requires d[1] % 128 < 126 ==> head == 2 && size == d[1] % 128
    requires d[1] % 128 == 126 ==> head == 4 && size == 0x100 * d[2] as int + d[3]
    requires d[1] % 128 == 127 ==> head == 10
    requires d[1] % 128 == 127 ==>
      size == 0x100_0000_0000_0000 * d[2] as int + 0x1_0000_0000_0000 * d[3] as int
        + 0x100_0000_0000 * d[4] as int + 0x1_0000_0000 * d[5] as int + 0x100_0000 * d[6] as int + 0x1_0000 * d[7] as int
        + 0x100 * d[8] as int + d[9]
    requires var k := if d[1] >= 128 then head + 4 else head; k < |d| && k + size <= |d|
    ensures var k := if d[1] >= 128 then head + 4 else head;
      var r := Parse(m, d);
      && r.Complete? && r.rest == d[k + size..] && r.m.cur == m.cur
      && var f := r.m.list[m.cur];
         && f.fin == (d[0] >= 128) && f.opcode == d[0] % 16 && |f.payload| == size
         && if d[1] >= 128 && (d[0] % 16 == 1 || d[0] % 16 == 2) && m.cur == 0
            then forall i :: 0 <= i < size ==> f.payload[i] == Xor(d[k + i], d[head + i % 4])
            else f.payload == d[k..k + size]
  {
    if d[1] % 128 == 126 {
      ValueOfTwo(d[2..]);
    } else if d[1] % 128 == 127 {
      ValueOfEight(d[2..]);
    }
    FrameAt(m, d, head, size);
  }

  lemma FrameAt(m: Machine, d: seq<Byte>, head: nat, size: nat)
    requires Good(m) && m.phase == Fin && |d| >= 2 && LengthAt(d, head, size)
    requires var k := if d[1] >= 128 then head + 4 else head; k < |d| && k + size <= |d|
    ensures var k := if d[1] >= 128 then head + 4 else head;
      var r := Parse(m, d);
      && r.Complete? && r.rest == d[k + size..] && r.m.cur == m.cur
      && var f := r.m.list[m.cur];
         && f.fin == (d[0] >= 128) && f.opcode == d[0] % 16 && |f.payload| == size
         && if d[1] >= 128 && (d[0] % 16 == 1 || d[0] % 16 == 2) && m.cur == 0
            then forall i :: 0 <= i < size ==> f.payload[i] == Xor(d[k + i], d[head + i % 4])
            else f.payload == d[k..k + size]
  {
    var k := if d[1] >= 128 then head + 4 else head;
    var n := HeaderRead(m, d, head, size);
    PayloadRead(n, d, k);
    if d[1] >= 128 {
      KeyedPayload(n, d, head, size);
    }
  }

  lemma HeaderRead(m: Machine, d: seq<Byte>, head: nat, size: nat) returns (n: Machine)
    requires Good(m) && m.phase == Fin && |d| >= 2 && LengthAt(d, head, size)
    requires d[1] >= 128 ==> head + 4 <= |d|
    ensures Good(n) && n.phase == PayloadData && n.cur == m.cur
    ensures var f := Cur(n); f.fin == (d[0] >= 128) && f.opcode == d[0] % 16 && f.mask == (d[1] >= 128) && f.extended == size
    ensures d[1] >= 128 ==> Cur(n).key == if m.cur == 0 then d[head..head + 4] else NO_KEY
    ensures Parse(m, d) == Parse(n, d[if d[1] >= 128 then head + 4 else head..])
  {
    n := LengthRead(m, d, head, size);
    if d[1] >= 128 {
      n := KeyRead(n, d, head);
    }
  }

  lemma KeyedPayload(m: Machine, d: seq<Byte>, head: nat, size: nat)
    requires Good(m) && Cur(m).mask && head + 4 + size <= |d|
    requires Cur(m).key == if m.cur == 0 then d[head..head + 4] else NO_KEY
    ensures var p := Payload(Cur(m), d[head + 4..head + 4 + size]);
      if (Cur(m).opcode == 1 || Cur(m).opcode == 2) && m.cur == 0
      then |p| == size && forall i :: 0 <= i < size ==> p[i] == Xor(d[head + 4 + i], d[head + i % 4])
      else p == d[head + 4..head + 4 + size]
  {
    MaskedSame(d[head + 4..head + 4 + size], NO_KEY);
  }

  // ----- One frame as it is sent ------------------------------------------------------

  lemma LengthBack(m: Machine, mask: bool, n: nat, tail: seq<Byte>)
    requires Good(m) && m.phase == Mask && n < Pow256(8)
    ensures Parse(m, LengthBytes(mask, n) + tail) == Parse(Sized(m, mask, n), tail)
  {
    var k := if n < 126 then n else if n < 65536 then 126 else 127;
    var c := SecondBits(m, mask, k);
    SizedBack(m, mask, n, c);
    if n < 126 {
      ParseGo(m, [c], tail, SecondByte(m, c));
    } else {
      assert Pow256(2) == 65536;
      LongLength(m, c, if n < 65536 then 2 else 8, n, tail);
    }
  }

  lemma SizedBack(m: Machine, mask: bool, n: nat, c: Byte)
    requires m.cur < |m.list| && (c / 128 == 1) == mask
    requires c % 128 == if n < 126 then n else if n < 65536 then 126 else 127
    ensures (if n < 126 then SecondByte(m, c) else Size(SecondByte(m, c), n)) == Sized(m, mask, n)
  {
  }

  // Behind the length of a frame.
  function Sized(m: Machine, mask: bool, n: nat): Machine
    requires m.cur < |m.list|
  {
    var g := Cur(m).(mask := mask, payloadLen := if n < 126 then n else if n < 65536 then 126 else 127, extended := n);
    With(m, AfterLength(g), g)
  }

  lemma SecondBits(m: Machine, mask: bool, k: nat) returns (c: Byte)
    requires k < 128 && m.cur < |m.list|
    ensures c == (if mask then 128 else 0) + k && c % 128 == k && (c / 128 == 1) == mask
  {
    c := (if mask then 128 else 0) + k;
  }

  lemma LongLength(m: Machine, c: Byte, k: nat, n: nat, tail: seq<Byte>)
    requires Good(m) && m.phase == Mask && n < Pow256(k)
    requires (k == 2 && c % 128 == 126) || (k == 8 && c % 128 == 127)
    ensures Parse(m, [c] + BigEndian(k, n) + tail) == Parse(Size(SecondByte(m, c), n), tail)
  {
    var m2 := SecondByte(m, c);
    BigEndianValue(k, n);
    ParseGo(m, [c], BigEndian(k, n) + tail, m2);
    ParseGo(m2, BigEndian(k, n), tail, Size(m2, n));
    assert [c] + BigEndian(k, n) + tail == [c] + (BigEndian(k, n) + tail);
  }

  lemma KeyBack(m: Machine, key: seq<Byte>, tail: seq<Byte>)
    requires Good(m) && m.phase == MaskingKey && |key| == 4
    ensures Parse(m, key + tail) == Parse(Key(m, key), tail)
  {
    assert key[..4] == key;
    ParseGo(m, key, tail, Key(m, key));
  }

  lemma LeadBits(s: Sent)
    requires Sendable(s)
    ensures (Lead(s) / 128 == 1) == s.fin && Lead(s) % 16 == s.opcode
  {
  }

  // The first bytes of a frame, up to its length.
  lemma OpenBack(m: Machine, s: Sent, tail: seq<Byte>) returns (m2: Machine)
    requires Good(m) && m.phase == Fin && Sendable(s)
    ensures Good(m2) && m2.phase == (if s.key.Some? then MaskingKey else PayloadData) && m2.cur == m.cur
    ensures Cur(m2).mask == s.key.Some? && Cur(m2).extended == |s.payload|
    ensures Cur(m2).fin == s.fin && Cur(m2).opcode == s.opcode
    ensures Parse(m, [Lead(s)] + (LengthBytes(s.key.Some?, |s.payload|) + tail)) == Parse(m2, tail)
  {
    var c, n := Lead(s), |s.payload|;
    LeadBits(s);
    var m1 := With(m, Mask, FirstByte(Cur(m), c));
    ParseGo(m, [c], LengthBytes(s.key.Some?, n) + tail, m1);
    LengthBack(m1, s.key.Some?, n, tail);
    m2 := Sized(m1, s.key.Some?, n);
  }

  lemma {:induction false} WireSplit(s: Sent, more: seq<Byte>)
    requires Sendable(s)
    ensures Wire(s) + more == [Lead(s)] + (LengthBytes(s.key.Some?, |s.payload|) + (Body(s) + more))
  {
    var a, b, c := [Lead(s)], LengthBytes(s.key.Some?, |s.payload|), Body(s);
    assert (a + (b + c)) + more == a + (b + (c + more));
  }

  lemma Pieces(a: seq<Byte>, b: seq<Byte>, c: seq<Byte>)
    requires |a| == 1 && |b| > 0
    ensures var w := a + (b + c);
      w[0] == a[0] && w[1] == b[0] && w[1..1 + |b|] == b && w[2..1 + |b|] == b[1..] && w[1 + |b|..] == c
  {
  }

  lemma BodyBytes(s: Sent, c: seq<Byte>)
    requires Sendable(s) && s.key.Some? && c == Body(s)
    ensures |c| == 4 + |s.payload| && c[0..4] == s.key.value
    ensures forall i :: 0 <= i < |s.payload| ==> c[4 + i] == Xor(s.payload[i], s.key.value[i % 4])
  {
  }

  lemma LengthForms(mask: bool, n: nat)
    requires n < Pow256(8)
    ensures var b, bit := LengthBytes(mask, n), if mask then 128 else 0;
      && |b| == (if n < 126 then 1 else if n < 65536 then 3 else 9)
      && (n < 126 ==> b[0] == bit + n)
      && (126 <= n < 65536 ==> b == [bit + 126, n / 256, n % 256])
      && (65536 <= n ==> b[0] == bit + 127 && b[1..] == [
           n / 0x100_0000_0000_0000 % 256, n / 0x1_0000_0000_0000 % 256, n / 0x100_0000_0000 % 256, n / 0x1_0000_0000 % 256,
           n / 0x100_0000 % 256, n / 0x1_0000 % 256, n / 0x100 % 256, n % 256])
  {
    if n < 65536 {
      TwoBytes(n);
    } else {
      EightBytes(n);
    }
  }

  lemma WireHead(s: Sent, head: nat)
    requires Sendable(s)
    requires head == if |s.payload| < 126 then 2 else if |s.payload| < 65536 then 4 else 10
    ensures var w, n, bit := Wire(s), |s.payload|, if s.key.Some? then 128 else 0;
      && |w| == head + |Body(s)| && w[0] == (if s.fin then 128 else 0) + s.opcode && w[head..] == Body(s)
      && (n < 126 ==> w[1] == bit + n)
      && (126 <= n < 65536 ==> w[1..4] == [bit + 126, n / 256, n % 256])
      && (65536 <= n ==> w[1] == bit + 127 && w[2..10] == [
           n / 0x100_0000_0000_0000 % 256, n / 0x1_0000_0000_0000 % 256, n / 0x100_0000_0000 % 256, n / 0x1_0000_0000 % 256,
           n / 0x100_0000 % 256, n / 0x1_0000 % 256, n / 0x100 % 256, n % 256])
  {
    LengthForms(s.key.Some?, |s.payload|);
    Pieces([Lead(s)], LengthBytes(s.key.Some?, |s.payload|), Body(s));
  }

  lemma BodyAt(s: Sent, w: seq<Byte>, head: nat)
    requires Sendable(s) && head + |Body(s)| == |w| && w[head..] == Body(s)
    ensures s.key.None? ==> w[head..] == s.payload
    ensures s.key.Some? ==> |w| == head + 4 + |s.payload| && w[head..head + 4] == s.key.value
    ensures s.key.Some? ==> forall i :: 0 <= i < |s.payload| ==> w[head + 4 + i] == Xor(s.payload[i], s.key.value[i % 4])
  {
    if s.key.Some? {
      var c := w[head..];
      BodyBytes(s, c);
      assert w[head..head + 4] == c[0..4];
      forall i | 0 <= i < |s.payload| ensures w[head + 4 + i] == Xor(s.payload[i], s.key.value[i % 4]) {
        assert w[head + 4 + i] == c[4 + i];
      }
    }
  }

  // The bytes of a frame: the first two, the rest of the length, the key and the payload.
  lemma WireBytes(s: Sent, head: nat, k: nat)
    requires Sendable(s)
    requires head == if |s.payload| < 126 then 2 else if |s.payload| < 65536 then 4 else 10
    requires k == if s.key.Some? then head + 4 else head
    ensures var w, n, bit := Wire(s), |s.payload|, if s.key.Some? then 128 else 0;
      && |w| == k + n && w[0] == (if s.fin then 128 else 0) + s.opcode
      && (n < 126 ==> w[1] == bit + n)
      && (126 <= n < 65536 ==> w[1..4] == [bit + 126, n / 256, n % 256])
      && (65536 <= n ==> w[1] == bit + 127 && w[2..10] == [
           n / 0x100_0000_0000_0000 % 256, n / 0x1_0000_0000_0000 % 256, n / 0x100_0000_0000 % 256, n / 0x1_0000_0000 % 256,
           n / 0x100_0000 % 256, n / 0x1_0000 % 256, n / 0x100 % 256, n % 256])
    ensures s.key.None? ==> Wire(s)[k..] == s.payload
    ensures s.key.Some? ==> Wire(s)[head..k] == s.key.value
    ensures s.key.Some? ==> forall i :: 0 <= i < |s.payload| ==> Wire(s)[k + i] == Xor(s.payload[i], s.key.value[i % 4])
  {
    WireHead(s, head);
    BodyAt(s, Wire(s), head);
  }

  // One frame, up to its payload.
  lemma {:induction false} HeaderBack(m: Machine, s: Sent, more: seq<Byte>) returns (n: Machine, body: seq<Byte>)
    requires Good(m) && m.phase == Fin && Sendable(s)
    ensures Good(n) && n.phase == PayloadData && n.cur == m.cur
    ensures Cur(n).fin == s.fin && Cur(n).opcode == s.opcode && Cur(n).extended == |body| == |s.payload|
    ensures Payload(Cur(n), body) == Delivered(s, m.cur == 0).payload
    ensures Parse(m, Wire(s) + more) == Parse(n, body + more)
  {
    WireSplit(s, more);
    var tail := Body(s) + more;
    var m2 := OpenBack(m, s, tail);
    if s.key.Some? {
      n, body := MaskBack(m2, s, more, tail);
    } else {
      n, body := m2, s.payload;
    }
  }

  lemma {:induction false} MaskBack(m: Machine, s: Sent, more: seq<Byte>, tail: seq<Byte>) returns (n: Machine, body: seq<Byte>)
    requires Good(m) && m.phase == MaskingKey && Cur(m).mask && Sendable(s) && s.key.Some?
    requires tail == Body(s) + more && Cur(m).opcode == s.opcode
    ensures n == Key(m, s.key.value) && Good(n) && |body| == |s.payload|
    ensures Payload(Cur(n), body) == Delivered(s, m.cur == 0).payload && Parse(m, tail) == Parse(n, body + more)
  {
    var key := s.key.value;
    body := Masked(s.payload, key);
    assert tail == key + (body + more);
    n := Key(m, key);
    assert Cur(n) == Cur(m).(key := if m.cur == 0 then key else NO_KEY);
    KeyBack(m, key, body + more);
    BodyBack(s, key);
  }

  // Unmasking with the key, or with the zeros of a later frame.
  lemma BodyBack(s: Sent, key: seq<Byte>)
    requires Sendable(s) && s.key == Some(key)
    ensures Masked(Masked(s.payload, key), key) == s.payload
    ensures Masked(Masked(s.payload, key), NO_KEY) == Masked(s.payload, key)
  {
    Unmask(s.payload, key);
    MaskedSame(Masked(s.payload, key), NO_KEY);
  }

  predicate AllSendable(ss: seq<Sent>) {
    forall i {:trigger ss[i]} :: 0 <= i < |ss| ==> Sendable(ss[i])
  }

  function MessagesOf(ss: seq<Sent>, first: bool): seq<Message>
    requires AllSendable(ss)
  {
    if ss == [] then [] else [Delivered(ss[0], first)] + MessagesOf(ss[1..], first && ss[0].fin)
  }

  function Wires(ss: seq<Sent>): seq<Byte>
    requires AllSendable(ss)
  {
    if ss == [] then [] else Wire(ss[0]) + Wires(ss[1..])
  }

  // The list of a request between two frames: what its frames hold, and which is the current one.
  datatype Row = Row(list: seq<Message>, cur: nat)

  predicate Sound(r: Row) {
    r.cur < |r.list|
  }

  function View(m: Machine): Row {
    Row(Shown(m.list), m.cur)
  }

  function Placed(r: Row, s: Sent): (p: Row)
    requires Sound(r) && Sendable(s)
    ensures Sound(p)
  {
    r.(list := r.list[r.cur := Delivered(s, r.cur == 0)])
  }

  function Clear(list: seq<Message>): (r: seq<Message>)
    ensures |r| == |list|
    ensures forall k {:trigger r[k]} :: 0 <= k < |list| ==>
      r[k] == if Text(list[k].opcode) then Message(list[k].opcode, []) else list[k]
  {
    seq(|list|, k requires 0 <= k < |list| => if Text(list[k].opcode) then Message(list[k].opcode, []) else list[k])
  }

  function Moved(r: Row, fin: bool): (p: Row)
    requires Sound(r)
    ensures Sound(p)
  {
    if fin then r.(list := Clear(r.list))
    else Row(if r.cur + 1 < |r.list| then r.list else r.list + [Message(0, [])], r.cur + 1)
  }

  function Step(r: Row, s: Sent): (p: Row)
    requires Sound(r) && Sendable(s)
    ensures Sound(p)
  {
    Moved(Placed(r, s), s.fin)
  }

  function After(r: Row, ss: seq<Sent>): (p: Row)
    requires Sound(r) && AllSendable(ss)
    ensures Sound(p)
    decreases |ss|
  {
    if ss == [] then r else After(Step(r, ss[0]), ss[1..])
  }

  predicate Closes(r: Row, s: Sent)
    requires Sound(r) && Sendable(s)
  {
    s.fin && HasClose(Placed(r, s).list)
  }

  // The first frame that ends a message when a close frame is on the list, behind the end if
  // there is none.
  function CloseAt(r: Row, ss: seq<Sent>): (k: nat)
    requires Sound(r) && AllSendable(ss)
    ensures k <= |ss| && (k < |ss| ==> ss[k].fin)
    decreases |ss|
  {
    if ss == [] || Closes(r, ss[0]) then 0 else 1 + CloseAt(Step(r, ss[0]), ss[1..])
  }

  // What is handed on for the frames, message by message.
  function Handed(r: Row, ss: seq<Sent>): seq<seq<Byte>>
    requires Sound(r) && AllSendable(ss)
    decreases |ss|
  {
    if ss == [] || Closes(r, ss[0]) then []
    else (if ss[0].fin then Given(Joined(Placed(r, ss[0]).list)) else []) + Handed(Step(r, ss[0]), ss[1..])
  }

  // A frame is complete when its payload is there and one byte follows its header.
  lemma {:induction false} FrameBack(m: Machine, s: Sent, more: seq<Byte>) returns (n: Machine)
    requires Good(m) && m.phase == Fin && Sendable(s)
    ensures Good(n) && n.cur == m.cur
    ensures if s.payload == [] && more == []
      then n.phase == PayloadData && Cur(n).extended == 0 && Parse(m, Wire(s)) == More(n, [])
      else n.phase == Fin && Cur(n).fin == s.fin && View(n) == Placed(View(m), s) && Parse(m, Wire(s) + more) == Complete(n, more)
  {
    var body;
    n, body := HeaderBack(m, s, more);
    ParseKeeps(m, Wire(s) + more);
    if s.payload == [] && more == [] {
      assert body + more == [] && Wire(s) + more == Wire(s);
    } else {
      assert (body + more)[..|body|] == body && (body + more)[|body|..] == more;
      assert Parse(n, body + more) == Complete(Filled(n, body), more);
      n := Filled(n, body);
      ViewPlaced(m, n, s);
    }
  }

  lemma ViewPlaced(m: Machine, n: Machine, s: Sent)
    requires Good(m) && Good(n) && Sendable(s) && n.cur == m.cur && |n.list| == |m.list|
    requires Message(Cur(n).opcode, Cur(n).payload) == Delivered(s, m.cur == 0)
    requires forall k {:trigger n.list[k]} :: 0 <= k < |n.list| && k != m.cur ==> n.list[k] == m.list[k].(key := n.list[k].key)
    ensures View(n) == Placed(View(m), s)
  {
    forall k | 0 <= k < |n.list| ensures Shown(n.list)[k] == Placed(View(m), s).list[k] {
    }
  }

  // The list moves on as its view does.
  lemma ViewMoved(n: Machine)
    requires Good(n) && !(Cur(n).fin && HasClose(Shown(n.list)))
    ensures View(Next(n)) == Moved(View(n), Cur(n).fin)
  {
    assert |View(Next(n)).list| == |Moved(View(n), Cur(n).fin).list|;
    forall k | 0 <= k < |Next(n).list| ensures View(Next(n)).list[k] == Moved(View(n), Cur(n).fin).list[k] {
    }
  }

  lemma WireSome(s: Sent)
    requires Sendable(s)
    ensures |Wire(s)| >= 2
  {
  }

  // Whether the last frame is complete with these bytes behind it.
  predicate Whole(ss: seq<Sent>, more: seq<Byte>) {
    ss == [] || ss[|ss| - 1].payload != [] || more != []
  }

  // Frames without a closing one are read back, whatever follows them.
  lemma {:induction false} FramesThen(m: Machine, ss: seq<Sent>, more: seq<Byte>) returns (n: Machine)
    requires Good(m) && m.phase == Fin && AllSendable(ss) && CloseAt(View(m), ss) == |ss| && Whole(ss, more)
    ensures Good(n) && n.phase == Fin && View(n) == After(View(m), ss)
    ensures Read(m, Wires(ss) + more) == Then(MessagesOf(ss, m.cur == 0), Handed(View(m), ss), Read(n, more))
    decreases |ss|
  {
    if ss == [] {
      n := m;
      var r := Read(m, more);
      assert Wires(ss) + more == more && [] + r.messages == r.messages && [] + r.requests == r.requests;
    } else {
      var tail := Wires(ss[1..]) + more;
      if |ss| > 1 {
        WireSome(ss[1]);
      }
      assert Wires(ss) + more == Wire(ss[0]) + tail;
      var n1 := FrameBack(m, ss[0], tail);
      ViewMoved(n1);
      n := FramesThen(Next(n1), ss[1..], more);
      FrameThen(m, n1, ss, Read(n, more));
    }
  }

  lemma {:induction false} FrameThen(m: Machine, n1: Machine, ss: seq<Sent>, r: Reading)
    requires Good(m) && AllSendable(ss) && ss != [] && !Closes(View(m), ss[0])
    requires Good(n1) && n1.phase == Fin && n1.cur == m.cur && Cur(n1).fin == ss[0].fin && View(n1) == Placed(View(m), ss[0])
    requires View(Next(n1)) == Step(View(m), ss[0])
    ensures var x := Message(Cur(n1).opcode, Cur(n1).payload);
      var t := if Cur(n1).fin then Given(Joined(Shown(n1.list))) else [];
      Then([x], t, Then(MessagesOf(ss[1..], Next(n1).cur == 0), Handed(View(Next(n1)), ss[1..]), r)) ==
      Then(MessagesOf(ss, m.cur == 0), Handed(View(m), ss), r)
  {
    var x := Message(Cur(n1).opcode, Cur(n1).payload);
    var t := if Cur(n1).fin then Given(Joined(Shown(n1.list))) else [];
    assert x == View(n1).list[m.cur] == Delivered(ss[0], m.cur == 0);
    ThenTwice([x], t, MessagesOf(ss[1..], Next(n1).cur == 0), Handed(View(Next(n1)), ss[1..]), r);
  }

  // A frame is seen unless it has no payload and nothing follows its header.
  predicate ClosesAt(ss: seq<Sent>, k: nat) {
    k < |ss| && (ss[k].payload != [] || k + 1 < |ss|)
  }

  // How many frames are read: those up to the closing one; without one, all but a last one
  // without payload, which stays open until another byte comes.
  function ReadCount(r: Row, ss: seq<Sent>): (n: nat)
    requires Sound(r) && AllSendable(ss)
    ensures n <= |ss|
  {
    var k := CloseAt(r, ss);
    if ClosesAt(ss, k) then k + 1 else if ss == [] || ss[|ss| - 1].payload != [] then |ss| else |ss| - 1
  }

  // How the reading of the frames ends.
  predicate EndsWell(r: Reading, row: Row, ss: seq<Sent>)
    requires Sound(row) && AllSendable(ss)
  {
    var n := ReadCount(row, ss);
    if ClosesAt(ss, CloseAt(row, ss)) then r.stop == Closed && r.rest == Wires(ss[n..]) && r.m.cur == After(row, ss[..n - 1]).cur
    else
      && r.stop == Waiting && r.rest == [] && Good(r.m)
      && r.m.phase == (if n == |ss| then Fin else PayloadData) && (n < |ss| ==> Cur(r.m).extended == 0)
      && r.m.cur == After(row, ss[..n]).cur && (n == |ss| ==> View(r.m) == After(row, ss))
  }

  // A reading gives the frames as they were sent, as far as they are read.
  predicate AsSent(r: Reading, row: Row, ss: seq<Sent>)
    requires Sound(row) && AllSendable(ss)
  {
    var n := ReadCount(row, ss);
    && r.messages == MessagesOf(ss[..n], row.cur == 0) && r.requests == Handed(row, ss[..n])
    && EndsWell(r, row, ss)
  }

  // In front of the closing frame nothing closes.
  lemma {:induction false} CloseFront(r: Row, ss: seq<Sent>, n: nat)
    requires Sound(r) && AllSendable(ss) && n <= CloseAt(r, ss)
    ensures CloseAt(r, ss[..n]) == n
    decreases n
  {
    if n > 0 {
      assert ss[..n][1..] == ss[1..][..n - 1];
      CloseFront(Step(r, ss[0]), ss[1..], n - 1);
    }
  }

  lemma {:induction false} CloseThere(r: Row, ss: seq<Sent>)
    requires Sound(r) && AllSendable(ss) && CloseAt(r, ss) < |ss|
    ensures var k := CloseAt(r, ss); Closes(After(r, ss[..k]), ss[k])
    decreases |ss|
  {
    if !Closes(r, ss[0]) {
      var k := CloseAt(r, ss);
      assert ss[..k][1..] == ss[1..][..k - 1];
      CloseThere(Step(r, ss[0]), ss[1..]);
    }
  }

  lemma {:induction false} WiresSplit(ss: seq<Sent>, n: nat)
    requires AllSendable(ss) && n <= |ss|
    ensures Wires(ss) == Wires(ss[..n]) + Wires(ss[n..])
  {
    if n == 0 {
      assert ss[0..] == ss && [] + Wires(ss) == Wires(ss);
    } else {
      assert ss[..n][1..] == ss[1..][..n - 1] && ss[1..][n - 1..] == ss[n..];
      WiresSplit(ss[1..], n - 1);
      Regroup(Wire(ss[0]), Wires(ss[1..][..n - 1]), Wires(ss[n..]));
    }
  }

  lemma {:induction false} MessagesSplit(ss: seq<Sent>, n: nat, first: bool)
    requires AllSendable(ss) && n <= |ss|
    ensures MessagesOf(ss, first) == MessagesOf(ss[..n], first) + MessagesOf(ss[n..], first && AllFin(ss[..n]))
  {
    if n == 0 {
      assert ss[0..] == ss && [] + MessagesOf(ss, first) == MessagesOf(ss, first);
    } else {
      assert ss[..n][1..] == ss[1..][..n - 1] && ss[1..][n - 1..] == ss[n..];
      AllFinCons(ss[..n]);
      var now := first && ss[0].fin;
      MessagesSplit(ss[1..], n - 1, now);
      assert (now && AllFin(ss[1..][..n - 1])) == (first && AllFin(ss[..n]));
      Regroup([Delivered(ss[0], first)], MessagesOf(ss[1..][..n - 1], now), MessagesOf(ss[n..], first && AllFin(ss[..n])));
    }
  }

  lemma {:induction false} HandedSplit(r: Row, ss: seq<Sent>, n: nat)
    requires Sound(r) && AllSendable(ss) && n <= |ss| && CloseAt(r, ss[..n]) == n
    ensures Handed(r, ss) == Handed(r, ss[..n]) + Handed(After(r, ss[..n]), ss[n..])
    decreases n
  {
    if n == 0 {
      assert ss[0..] == ss && [] + Handed(r, ss) == Handed(r, ss);
    } else {
      assert ss[..n][1..] == ss[1..][..n - 1] && ss[1..][n - 1..] == ss[n..];
      HandedSplit(Step(r, ss[0]), ss[1..], n - 1);
      var t := if ss[0].fin then Given(Joined(Placed(r, ss[0]).list)) else [];
      Regroup(t, Handed(Step(r, ss[0]), ss[1..][..n - 1]), Handed(After(r, ss[..n]), ss[n..]));
    }
  }

  predicate AllFin(ss: seq<Sent>) {
    forall i {:trigger ss[i]} :: 0 <= i < |ss| ==> ss[i].fin
  }

  lemma AllFinCons(ss: seq<Sent>)
    requires ss != []
    ensures AllFin(ss) <==> ss[0].fin && AllFin(ss[1..])
  {
    if ss[0].fin && AllFin(ss[1..]) {
      forall i | 0 <= i < |ss| ensures ss[i].fin {
        if i > 0 {
          assert ss[1..][i - 1].fin;
        }
      }
    }
  }

  // The current frame stays the first one exactly if all frames end their messages.
  lemma {:induction false} AfterCur(r: Row, ss: seq<Sent>)
    requires Sound(r) && AllSendable(ss)
    ensures r.cur <= After(r, ss).cur && (After(r, ss).cur == r.cur <==> AllFin(ss))
    decreases |ss|
  {
    if ss != [] {
      AllFinCons(ss);
      AfterCur(Step(r, ss[0]), ss[1..]);
    }
  }

  // The main result: frames in a row that are received at once are read back in order.
  lemma {:induction false} FramesBack(m: Machine, ss: seq<Sent>)
    requires Good(m) && m.phase == Fin && AllSendable(ss)
    ensures AsSent(Read(m, Wires(ss)), View(m), ss)
  {
    var k, n := CloseAt(View(m), ss), ReadCount(View(m), ss);
    if ClosesAt(ss, k) {
      CloseBack(m, ss);
    } else if n == |ss| {
      var n1 := FramesThen(m, ss, []);
      assert ss[..n] == ss && Wires(ss) + [] == Wires(ss);
      ThenNothing(MessagesOf(ss, m.cur == 0), Handed(View(m), ss), n1);
    } else {
      OpenEnd(m, ss);
    }
  }

  lemma ThenNothing(a: seq<Message>, b: seq<seq<Byte>>, n: Machine)
    requires Good(n)
    ensures Then(a, b, Read(n, [])) == Reading(a, b, n, [], Waiting)
  {
    assert a + [] == a && b + [] == b;
  }

  lemma {:induction false} CloseBack(m: Machine, ss: seq<Sent>)
    requires Good(m) && m.phase == Fin && AllSendable(ss) && ClosesAt(ss, CloseAt(View(m), ss))
    ensures AsSent(Read(m, Wires(ss)), View(m), ss)
  {
    var k, row := CloseAt(View(m), ss), View(m);
    var more := Wires(ss[k + 1..]);
    CloseFront(row, ss, k);
    CloseThere(row, ss);
    WiresAt(ss, k);
    WireSome(ss[k]);
    var n := FramesThen(m, ss[..k], Wire(ss[k]) + more);
    var r := FrameCloses(n, ss[k], more);
    CloseEnds(row, ss, k);
    ClosedAsSent(row, ss, k, r);
  }

  lemma {:induction false} ClosedAsSent(row: Row, ss: seq<Sent>, k: nat, r: Reading)
    requires Sound(row) && AllSendable(ss) && k == CloseAt(row, ss) && ClosesAt(ss, k)
    requires r.stop == Closed && r.rest == Wires(ss[k + 1..]) && r.m.cur == After(row, ss[..k]).cur
    requires MessagesOf(ss[..k + 1], row.cur == 0) == MessagesOf(ss[..k], row.cur == 0) + r.messages
    requires Handed(row, ss[..k + 1]) == Handed(row, ss[..k]) + r.requests
    ensures AsSent(Then(MessagesOf(ss[..k], row.cur == 0), Handed(row, ss[..k]), r), row, ss)
  {
  }

  lemma {:induction false} WiresAt(ss: seq<Sent>, k: nat)
    requires AllSendable(ss) && k < |ss|
    ensures Wires(ss) == Wires(ss[..k]) + (Wire(ss[k]) + Wires(ss[k + 1..])) && (k + 1 < |ss| ==> Wires(ss[k + 1..]) != [])
  {
    WiresSplit(ss, k);
    assert ss[k..][0] == ss[k] && ss[k..][1..] == ss[k + 1..];
    if k + 1 < |ss| {
      WireSome(ss[k + 1]);
    }
  }

  lemma {:induction false} FrameCloses(m: Machine, s: Sent, more: seq<Byte>) returns (r: Reading)
    requires Good(m) && m.phase == Fin && Sendable(s) && Closes(View(m), s) && (s.payload != [] || more != [])
    ensures r == Read(m, Wire(s) + more) && r.messages == [Delivered(s, m.cur == 0)] && r.requests == []
    ensures r.stop == Closed && r.rest == more && r.m.cur == m.cur
  {
    r := Read(m, Wire(s) + more);
    var n := FrameBack(m, s, more);
    assert View(n).list[m.cur] == Delivered(s, m.cur == 0);
  }

  // The messages up to a closing frame, and what is handed on.
  lemma {:induction false} CloseEnds(r: Row, ss: seq<Sent>, k: nat)
    requires Sound(r) && AllSendable(ss) && k < |ss| && CloseAt(r, ss[..k]) == k && Closes(After(r, ss[..k]), ss[k])
    ensures After(r, ss[..k]).cur == 0 <==> r.cur == 0 && AllFin(ss[..k])
    ensures MessagesOf(ss[..k + 1], r.cur == 0) == MessagesOf(ss[..k], r.cur == 0) + [Delivered(ss[k], After(r, ss[..k]).cur == 0)]
    ensures Handed(r, ss[..k + 1]) == Handed(r, ss[..k]) + []
  {
    var t := ss[..k + 1];
    assert t[..k] == ss[..k] && t[k..] == [ss[k]];
    AfterCur(r, ss[..k]);
    MessagesSplit(t, k, r.cur == 0);
    HandedSplit(r, t, k);
    MessagesOne(ss[k], After(r, ss[..k]).cur == 0);
  }

  lemma MessagesOne(s: Sent, first: bool)
    requires Sendable(s)
    ensures AllSendable([s]) && MessagesOf([s], first) == [Delivered(s, first)]
  {
    var ss := [s];
    assert MessagesOf(ss[1..], first && s.fin) == [];
  }

  // A last frame without payload stays open.
  lemma {:induction false} OpenEnd(m: Machine, ss: seq<Sent>)
    requires Good(m) && m.phase == Fin && AllSendable(ss) && ss != [] && ss[|ss| - 1].payload == []
    requires CloseAt(View(m), ss) >= |ss| - 1 && !ClosesAt(ss, CloseAt(View(m), ss))
    ensures AsSent(Read(m, Wires(ss)), View(m), ss)
  {
    var k := |ss| - 1;
    CloseFront(View(m), ss, k);
    WiresSplit(ss, k);
    assert ss[k..] == [ss[k]] && Wires(ss[k..][1..]) == [] && Wire(ss[k]) + [] == Wire(ss[k]);
    WireSome(ss[k]);
    var n := FramesThen(m, ss[..k], Wire(ss[k]));
    var n2 := FrameBack(n, ss[k], []);
    var a, b := MessagesOf(ss[..k], m.cur == 0), Handed(View(m), ss[..k]);
    assert a + [] == a && b + [] == b;
  }
}
