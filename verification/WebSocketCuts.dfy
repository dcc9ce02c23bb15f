// What becomes of frames and messages however their bytes are received.
module WebSocketCuts {
  import opened Bytes
  import opened WebSocket
  import opened WebSocketFrames

  // ----- Cuts -------------------------------------------------------------------------

  // The same frames are read, the same is handed on, and the loop ends in the same way.
  predicate Alike(a: Reading, b: Reading) {
    a.messages == b.messages && a.requests == b.requests && a.stop == b.stop
  }

  lemma {:induction false} CurGrows(m: Machine, a: seq<Byte>, b: seq<Byte>)
    requires Good(m)
    ensures Read(m, a).m.cur <= Read(m, a + b).m.cur
  {
    ReadMore(m, a, b);
  }

  // Before its last byte a frame is not complete.
  lemma {:induction false} ButLastByte(m: Machine, s: Sent, a: seq<Byte>, c: Byte)
    requires Good(m) && m.phase == Fin && Sendable(s) && a + [c] == Wire(s)
    ensures Read(m, a).m.cur == m.cur
  {
    ParseMore(m, a, [c]);
    assert Wire(s) + [] == Wire(s);
    var n := FrameBack(m, s, []);
    assert Parse(m, Wire(s)).rest == [];
  }

  lemma {:induction false} ButLast(m: Machine, fs: seq<Sent>, s: Sent, a: seq<Byte>, c: Byte)
    requires Good(m) && m.phase == Fin && AllSendable(fs) && AllFin(fs) && Sendable(s) && a + [c] == Wire(s)
    requires CloseAt(View(m), fs) == |fs|
    ensures Read(m, Wires(fs) + a).m.cur == m.cur
  {
    WireSome(s);
    var n := FramesThen(m, fs, a);
    AfterCur(View(m), fs);
    ButLastByte(n, s, a, c);
  }

  // What is left of the header of a frame without payload.
  predicate Quiet(phase: Phase, d: seq<Byte>) {
    match phase
    case Fin => d == [] || (|d| >= 2 && d[1] % 128 == 0 && |d| == if d[1] / 128 == 1 then 6 else 2)
    case Mask => d != [] && d[0] % 128 == 0 && |d| == if d[0] / 128 == 1 then 5 else 1
    case MaskingKey => |d| == 4
    case PayloadData => d == []
    case _ => false
  }

  // Nothing is complete within it, whatever frame it is read into.
  lemma {:induction false} ParseQuiet(m: Machine, a: seq<Byte>, b: seq<Byte>)
    requires Good(m) && Quiet(m.phase, a + b)
    ensures var r := Parse(m, a); r.More? && Quiet(r.m.phase, r.rest + b)
    decreases |a|
  {
    if a != [] {
      var t := Turn(m, a);
      assert (a + b)[0] == a[0];
      if t.Go? {
        CutMore(a, b, t.k);
        ParseQuiet(t.m, a[t.k..], b);
      }
    }
  }

  lemma {:induction false} DeliverQuiet(m: Machine, left: seq<Byte>, chunks: seq<seq<Byte>>)
    requires Good(m) && Quiet(m.phase, left + Flat(chunks))
    ensures var r := Deliver(m, left, chunks); r.messages == [] && r.requests == [] && r.stop == Waiting
    decreases |chunks|
  {
    if chunks != [] {
      var data, rest := left + chunks[0], Flat(chunks[1..]);
      assert left + Flat(chunks) == data + rest;
      ParseQuiet(Restart(m), data, rest);
      var r := Parse(Restart(m), data);
      DeliverQuiet(r.m, r.rest, chunks[1..]);
    }
  }

  lemma {:induction false} QuietEnd(s: Sent)
    requires Sendable(s) && s.payload == []
    ensures Quiet(Fin, Wire(s))
  {
    var bit: Byte := if s.key.Some? then 128 else 0;
    assert LengthBytes(s.key.Some?, 0) == [bit];
    assert |Body(s)| == if s.key.Some? then 4 else 0;
    assert Wire(s)[1] == bit;
  }

  // Up to which frame of a row all end their messages.
  function FirstOpen(ss: seq<Sent>): (i: nat)
    ensures i <= |ss| && AllFin(ss[..i]) && (i < |ss| ==> !ss[i].fin)
  {
    if ss == [] || !ss[0].fin then 0
    else
      var i := 1 + FirstOpen(ss[1..]);
      assert ss[..i][0] == ss[0] && ss[..i][1..] == ss[1..][..i - 1];
      AllFinCons(ss[..i]);
      i
  }

  // Of the frames that are read, all but the last end their messages.
  predicate Steady(r: Row, ss: seq<Sent>)
    requires Sound(r) && AllSendable(ss)
  {
    FirstOpen(ss) + 1 >= ReadCount(r, ss)
  }

  lemma SteadyFin(ss: seq<Sent>, n: nat)
    requires n <= FirstOpen(ss)
    ensures AllFin(ss[..n])
  {
    forall i | 0 <= i < n ensures ss[..n][i].fin {
      assert ss[..FirstOpen(ss)][i].fin;
    }
  }

  // The cuts of such frames do no harm: either the first frame is the current one at the last
  // cut, ...
  lemma {:induction false} Harmless(m: Machine, ss: seq<Sent>, chunks: seq<seq<Byte>>)
    requires Good(m) && m.phase == Fin && m.cur == 0 && AllSendable(ss) && Steady(View(m), ss) && Flat(chunks) == Wires(ss)
    ensures Alike(Deliver(m, [], chunks), Read(m, Wires(ss)))
  {
    assert [] + Flat(chunks) == Wires(ss);
    if chunks != [] {
      var j := FirstLate(m, chunks);
      if Read(m, Flat(chunks[..j])).m.cur == 0 {
        assert [] + Flat(chunks[..|chunks| - 1]) == Flat(chunks[..|chunks| - 1]);
        DeliverIsRead(m, [], chunks);
      } else {
        HarmlessFrom(m, ss, chunks, j);
      }
    }
  }

  lemma {:induction false} FlatCut(chunks: seq<seq<Byte>>, j: nat)
    requires 0 < j <= |chunks|
    ensures chunks[..j] + chunks[j..] == chunks && Flat(chunks[..j]) + Flat(chunks[j..]) == Flat(chunks)
    ensures |chunks[..j]| == j && chunks[..j][..j - 1] == chunks[..j - 1]
  {
    assert chunks[..j] + chunks[j..] == chunks;
    FlatConcat(chunks[..j], chunks[j..]);
  }

  lemma {:induction false} HarmlessFrom(m: Machine, ss: seq<Sent>, chunks: seq<seq<Byte>>, j: nat)
    requires Good(m) && m.phase == Fin && m.cur == 0 && AllSendable(ss) && Steady(View(m), ss) && Flat(chunks) == Wires(ss)
    requires 0 < j < |chunks| && Read(m, Flat(chunks[..j - 1])).m.cur == 0 && Read(m, Flat(chunks[..j])).m.cur != 0
    ensures Alike(Deliver(m, [], chunks), Read(m, Wires(ss)))
  {
    FlatCut(chunks, j);
    HarmlessLate(m, ss, chunks[..j], chunks[j..]);
  }

  // The first cut at which a later frame is current, or else the last cut.
  lemma FirstLate(m: Machine, chunks: seq<seq<Byte>>) returns (j: nat)
    requires Good(m) && m.cur == 0 && chunks != []
    ensures j < |chunks| && (j > 0 ==> Read(m, Flat(chunks[..j - 1])).m.cur == 0)
    ensures Read(m, Flat(chunks[..j])).m.cur != 0 ==> j > 0
    ensures j == |chunks| - 1 || Read(m, Flat(chunks[..j])).m.cur != 0
  {
    j := 0;
    while j < |chunks| - 1 && Read(m, Flat(chunks[..j])).m.cur == 0
      invariant j < |chunks| && (j > 0 ==> Read(m, Flat(chunks[..j - 1])).m.cur == 0)
    {
      j := j + 1;
    }
  }

  // ... or all that comes behind the cut is the header of a frame without payload.
  lemma {:induction false} HarmlessLate(m: Machine, ss: seq<Sent>, c1: seq<seq<Byte>>, c2: seq<seq<Byte>>)
    requires Good(m) && m.phase == Fin && m.cur == 0 && AllSendable(ss) && Steady(View(m), ss) && Flat(c1) + Flat(c2) == Wires(ss)
    requires c1 != [] && Read(m, Flat(c1[..|c1| - 1])).m.cur == 0 && Read(m, Flat(c1)).m.cur > 0
    ensures Alike(Deliver(m, [], c1 + c2), Read(m, Wires(ss)))
  {
    var a, b, n2, rest := ReadLate(m, ss, Flat(c1), Flat(c2));
    LateCut(m, c1, c2, a, b, n2, rest);
  }

  lemma {:induction false} ReadLate(m: Machine, ss: seq<Sent>, q: seq<Byte>, r: seq<Byte>)
    returns (a: seq<Message>, b: seq<seq<Byte>>, n2: Machine, rest: seq<Byte>)
    requires Good(m) && m.phase == Fin && m.cur == 0 && AllSendable(ss) && Steady(View(m), ss)
    requires q + r == Wires(ss) && Read(m, q).m.cur > 0
    ensures Good(n2) && Read(m, q) == Reading(a, b, n2, rest, Waiting) && Quiet(n2.phase, rest + r)
    ensures var w := Read(m, Wires(ss)); w.messages == a && w.requests == b && w.stop == Waiting
  {
    var n := OpenLast(m, ss, q, r);
    var y, n1 := BehindOpen(m, ss, n, q, r);
    a, b := MessagesOf(ss[..n], true), Handed(View(m), ss[..n]);
    n2, rest := ReadQuiet(m, q, r, a, b, n1, y);
  }

  lemma {:induction false} LateCut(
    m: Machine, c1: seq<seq<Byte>>, c2: seq<seq<Byte>>, a: seq<Message>, b: seq<seq<Byte>>, n: Machine, rest: seq<Byte>)
    requires Good(m) && m.cur == 0 && c1 != [] && Read(m, Flat(c1[..|c1| - 1])).m.cur == 0
    requires Good(n) && Read(m, Flat(c1)) == Reading(a, b, n, rest, Waiting) && Quiet(n.phase, rest + Flat(c2))
    ensures var d := Deliver(m, [], c1 + c2); d.messages == a && d.requests == b && d.stop == Waiting
  {
    DeliverFront(m, c1);
    DeliverSplit(m, [], c1, c2);
    DeliverQuiet(n, rest, c2);
    assert a + [] == a && b + [] == b;
  }

  lemma {:induction false} DeliverFront(m: Machine, chunks: seq<seq<Byte>>)
    requires Good(m) && m.cur == 0 && chunks != [] && Read(m, Flat(chunks[..|chunks| - 1])).m.cur == 0
    ensures Same(Deliver(m, [], chunks), Read(m, Flat(chunks)))
  {
    assert [] + Flat(chunks) == Flat(chunks) && [] + Flat(chunks[..|chunks| - 1]) == Flat(chunks[..|chunks| - 1]);
    DeliverIsRead(m, [], chunks);
  }

  lemma {:induction false} ReadQuiet(m: Machine, q: seq<Byte>, r: seq<Byte>, a: seq<Message>, b: seq<seq<Byte>>, n1: Machine, y: seq<Byte>)
    returns (n2: Machine, rest: seq<Byte>)
    requires Good(m) && Good(n1) && n1.phase == Fin && Quiet(Fin, y + r) && Read(m, q) == Then(a, b, Read(n1, y))
    ensures Good(n2) && Read(m, q) == Reading(a, b, n2, rest, Waiting) && Quiet(n2.phase, rest + r)
    ensures var w := Read(m, q + r); w.messages == a && w.requests == b && w.stop == Waiting
  {
    ParseQuiet(n1, y, r);
    n2, rest := Parse(n1, y).m, Parse(n1, y).rest;
    assert a + [] == a && b + [] == b;
    ReadMore(m, q, r);
    assert (rest + r) + [] == rest + r;
    ParseQuiet(n2, rest + r, []);
  }

  // If the first frame is not the current one any more, the last frame read has done that.
  lemma {:induction false} OpenLast(m: Machine, ss: seq<Sent>, q: seq<Byte>, r: seq<Byte>) returns (n: nat)
    requires Good(m) && m.phase == Fin && m.cur == 0 && AllSendable(ss) && Steady(View(m), ss)
    requires q + r == Wires(ss) && Read(m, q).m.cur > 0
    ensures 0 < n == ReadCount(View(m), ss) && !ss[n - 1].fin && AllFin(ss[..n - 1])
    ensures n <= CloseAt(View(m), ss) && (n == |ss| || (n + 1 == |ss| && ss[n].payload == []))
  {
    n := ReadCount(View(m), ss);
    CurGrows(m, q, r);
    if ClosesAt(ss, CloseAt(View(m), ss)) {
      ClosedFirst(m, ss, n);
    } else {
      WaitingFirst(m, ss, n);
      if n > 0 {
        FrontFin(ss, n);
      }
    }
  }

  lemma FrontFin(ss: seq<Sent>, n: nat)
    requires 0 < n <= |ss| && n <= FirstOpen(ss) + 1
    ensures AllFin(ss[..n - 1]) && (ss[n - 1].fin ==> AllFin(ss[..n]))
  {
    SteadyFin(ss, n - 1);
    if ss[n - 1].fin {
      AllFinSnoc(ss, n - 1);
    }
  }

  lemma {:induction false} ClosedFirst(m: Machine, ss: seq<Sent>, n: nat)
    requires Good(m) && m.phase == Fin && AllSendable(ss) && n == ReadCount(View(m), ss) <= FirstOpen(ss) + 1
    requires ClosesAt(ss, CloseAt(View(m), ss))
    ensures Read(m, Wires(ss)).m.cur == m.cur
  {
    FramesBack(m, ss);
    SteadyFin(ss, n - 1);
    AfterCur(View(m), ss[..n - 1]);
  }

  lemma {:induction false} WaitingFirst(m: Machine, ss: seq<Sent>, n: nat)
    requires Good(m) && m.phase == Fin && AllSendable(ss) && n == ReadCount(View(m), ss)
    requires !ClosesAt(ss, CloseAt(View(m), ss))
    ensures Read(m, Wires(ss)).m.cur == m.cur <==> AllFin(ss[..n])
  {
    FramesBack(m, ss);
    AfterCur(View(m), ss[..n]);
  }

  lemma AllFinSnoc(ss: seq<Sent>, n: nat)
    requires n < |ss| && AllFin(ss[..n]) && ss[n].fin
    ensures AllFin(ss[..n + 1])
  {
    var t := ss[..n + 1];
    forall i | 0 <= i < |t| ensures t[i].fin {
      assert i < n ==> ss[..n][i] == t[i];
    }
  }

  lemma {:induction false} NotBefore(m: Machine, ss: seq<Sent>, q: seq<Byte>)
    requires Good(m) && m.phase == Fin && AllSendable(ss) && ss != [] && AllFin(ss[..|ss| - 1])
    requires CloseAt(View(m), ss[..|ss| - 1]) == |ss| - 1
    requires |q| < |Wires(ss)| && q == Wires(ss)[..|q|]
    ensures Read(m, q).m.cur == m.cur
  {
    var k := |ss| - 1;
    WiresSplit(ss, k);
    assert ss[k..] == [ss[k]];
    LastWire(ss[k..], ss[k]);
    WireSome(ss[k]);
    var a, c, b := ButOne(Wires(ss[..k]), Wire(ss[k]), q);
    ButLast(m, ss[..k], ss[k], a, c);
    CurGrows(m, q, b);
  }

  lemma ButOne(f: seq<Byte>, w: seq<Byte>, q: seq<Byte>) returns (a: seq<Byte>, c: Byte, b: seq<Byte>)
    requires w != [] && |q| < |f + w| && q == (f + w)[..|q|]
    ensures a + [c] == w && q + b == f + a
  {
    a, c := w[..|w| - 1], w[|w| - 1];
    b := (f + a)[|q|..];
    assert (f + w)[..|q|] == (f + a)[..|q|];
  }

  lemma {:induction false} BehindOpen(m: Machine, ss: seq<Sent>, n: nat, q: seq<Byte>, r: seq<Byte>) returns (y: seq<Byte>, n1: Machine)
    requires Good(m) && m.phase == Fin && m.cur == 0 && AllSendable(ss)
    requires q + r == Wires(ss) && Read(m, q).m.cur > 0
    requires 0 < n <= CloseAt(View(m), ss) && AllFin(ss[..n - 1]) && (n == |ss| || (n + 1 == |ss| && ss[n].payload == []))
    ensures Good(n1) && n1.phase == Fin && Quiet(Fin, y + r)
    ensures Read(m, q) == Then(MessagesOf(ss[..n], true), Handed(View(m), ss[..n]), Read(n1, y))
  {
    var t, w := ss[..n], Wires(ss[n..]);
    WiresSplit(ss, n);
    CloseFront(View(m), ss, n);
    CloseFront(View(m), ss, n - 1);
    assert t[..n - 1] == ss[..n - 1];
    y := Behind(m, t, q, r, w);
    QuietRest(ss, n);
    StaysOpen(m, t, y);
    n1 := FramesThen(m, t, y);
  }

  lemma {:induction false} QuietRest(ss: seq<Sent>, n: nat)
    requires AllSendable(ss) && n <= |ss| && (n == |ss| || (n + 1 == |ss| && ss[n].payload == []))
    ensures Quiet(Fin, Wires(ss[n..]))
  {
    if n < |ss| {
      assert ss[n..] == [ss[n]];
      LastWire(ss[n..], ss[n]);
      QuietEnd(ss[n]);
    }
  }

  lemma LastWire(ss: seq<Sent>, s: Sent)
    requires Sendable(s) && ss == [s]
    ensures Wires(ss) == Wire(s)
  {
    assert Wires(ss[1..]) == [] && Wire(s) + [] == Wire(s);
  }

  // The frames lie within the bytes in front of the cut.
  lemma {:induction false} Behind(m: Machine, t: seq<Sent>, q: seq<Byte>, r: seq<Byte>, w: seq<Byte>) returns (y: seq<Byte>)
    requires Good(m) && m.phase == Fin && m.cur == 0 && AllSendable(t) && t != [] && AllFin(t[..|t| - 1])
    requires CloseAt(View(m), t[..|t| - 1]) == |t| - 1 && q + r == Wires(t) + w && Read(m, q).m.cur > 0
    ensures q == Wires(t) + y && y + r == w
  {
    var a := Wires(t);
    if |q| < |a| {
      assert (q + r)[..|q|] == q && (a + w)[..|q|] == a[..|q|];
      NotBefore(m, t, q);
    }
    y := q[|a|..];
    assert (q + r)[..|a|] == q[..|a|] && (a + w)[..|a|] == a;
    assert (q + r)[|a|..] == y + r && (a + w)[|a|..] == w;
  }

  // A frame without payload that is last leaves the first frame the current one.
  lemma {:induction false} StaysOpen(m: Machine, t: seq<Sent>, y: seq<Byte>)
    requires Good(m) && m.phase == Fin && m.cur == 0 && AllSendable(t) && t != [] && AllFin(t[..|t| - 1])
    requires CloseAt(View(m), t) == |t| && Read(m, Wires(t) + y).m.cur > 0
    ensures Whole(t, y)
  {
    if !Whole(t, y) {
      OpenEnd(m, t);
      assert Wires(t) + [] == Wires(t);
      AfterCur(View(m), t[..|t| - 1]);
    }
  }

  // The protocol demands it (section 5.4 of RFC 6455): behind a frame that does not end its
  // message comes a continuation or a control frame.
  predicate Orderly(ss: seq<Sent>) {
    var i := FirstOpen(ss);
    i + 1 < |ss| ==> ss[i + 1].opcode != ss[i].opcode
  }

  // In other frames a cut behind the first byte of the next frame does harm: the rest of it is
  // read into the first frame, which keeps its opcode.
  lemma {:induction false} Harm(m: Machine, ss: seq<Sent>) returns (chunks: seq<seq<Byte>>)
    requires Good(m) && m.phase == Fin && m.cur == 0 && AllSendable(ss) && Orderly(ss) && !Steady(View(m), ss)
    ensures Flat(chunks) == Wires(ss) && !Alike(Deliver(m, [], chunks), Read(m, Wires(ss)))
  {
    var i := FirstOpen(ss);
    var t, s := ss[..i + 1], ss[i + 1];
    var a, b := Wires(t) + [Lead(s)], Wire(s)[1..] + Wires(ss[i + 2..]);
    chunks := [a, b];
    CutAt(ss, i + 1);
    TwoChunks(a, b);
    CloseFront(View(m), ss, i + 1);
    assert t[..i] == ss[..i] && t[i] == ss[i] && |t| == i + 1;
    OtherOpcode(m, t, s, a, b);
    FramesBack(m, ss);
    MessagesAt(ss[..ReadCount(View(m), ss)], i + 1, true);
  }

  // What comes behind the cut has the opcode of the first frame.
  lemma {:induction false} OtherOpcode(m: Machine, t: seq<Sent>, s: Sent, a: seq<Byte>, b: seq<Byte>)
    requires Good(m) && m.phase == Fin && m.cur == 0 && AllSendable(t) && Sendable(s)
    requires t != [] && AllFin(t[..|t| - 1]) && !t[|t| - 1].fin && CloseAt(View(m), t) == |t| && a == Wires(t) + [Lead(s)]
    ensures var d := Deliver(m, [], [a, b]).messages; |d| > |t| ==> d[|t|].opcode == t[|t| - 1].opcode
  {
    var n2 := HeadRead(m, t, s, a);
    var r := DeliverTwo(m, a, b, n2);
    FirstOpcode(Restart(n2), b);
    MessagesAt(t, 0, true);
  }

  lemma {:induction false} CutAt(ss: seq<Sent>, k: nat)
    requires AllSendable(ss) && k < |ss|
    ensures Wires(ss) == (Wires(ss[..k]) + [Lead(ss[k])]) + (Wire(ss[k])[1..] + Wires(ss[k + 1..]))
  {
    WiresAt(ss, k);
    CutBehind(Wires(ss[..k]), Lead(ss[k]), Wire(ss[k]), Wires(ss[k + 1..]));
  }

  lemma CutBehind(a: seq<Byte>, x: Byte, w: seq<Byte>, c: seq<Byte>)
    requires w != [] && w[0] == x
    ensures a + (w + c) == (a + [x]) + (w[1..] + c)
  {
    assert w == [x] + w[1..];
  }

  lemma {:induction false} TwoChunks(a: seq<Byte>, b: seq<Byte>)
    ensures Flat([a, b]) == a + b
  {
    var chunks := [a, b];
    assert chunks[1..] == [b] && [b][1..] == [] && b + [] == b;
    assert Flat(chunks[1..]) == b + Flat([b][1..]);
  }

  // The first byte of the next frame is read into the second one of the list.
  lemma {:induction false} HeadRead(m: Machine, t: seq<Sent>, s: Sent, a: seq<Byte>) returns (n2: Machine)
    requires Good(m) && m.phase == Fin && m.cur == 0 && AllSendable(t) && Sendable(s)
    requires t != [] && AllFin(t[..|t| - 1]) && !t[|t| - 1].fin && CloseAt(View(m), t) == |t| && a == Wires(t) + [Lead(s)]
    ensures Good(n2) && n2.phase == Mask && n2.list[0].opcode == t[|t| - 1].opcode
    ensures Read(m, a) == Reading(MessagesOf(t, true), Handed(View(m), t), n2, [], Waiting)
  {
    var n1 := FramesThen(m, t, [Lead(s)]);
    AfterCur(View(m), t);
    HeadStays(View(m), t);
    n2 := With(n1, Mask, FirstByte(Cur(n1), Lead(s)));
    assert Turn(n1, [Lead(s)]) == Go(n2, 1) && [Lead(s)][1..] == [];
    assert Parse(n1, [Lead(s)]) == Parse(n2, []) == More(n2, []);
    var x, y := MessagesOf(t, true), Handed(View(m), t);
    assert x + [] == x && y + [] == y;
    assert Shown(n1.list)[0].opcode == t[|t| - 1].opcode;
  }

  // A frame that does not end its message stays the first of the list, when it came first.
  lemma {:induction false} HeadStays(r: Row, t: seq<Sent>)
    requires Sound(r) && r.cur == 0 && AllSendable(t) && t != [] && AllFin(t[..|t| - 1]) && !t[|t| - 1].fin
    ensures After(r, t).cur == 1 && After(r, t).list[0] == Delivered(t[|t| - 1], true)
    decreases |t|
  {
    if |t| == 1 {
      assert t[1..] == [];
    } else {
      AllFinCons(t[..|t| - 1]);
      assert t[..|t| - 1][1..] == t[1..][..|t| - 2] && t[1..][|t| - 2] == t[|t| - 1];
      HeadStays(Step(r, t[0]), t[1..]);
    }
  }

  lemma {:induction false} DeliverTwo(m: Machine, a: seq<Byte>, b: seq<Byte>, n: Machine) returns (r: Reading)
    requires Good(m) && m.cur == 0 && Good(n) && var q := Read(m, a); q.stop == Waiting && q.m == n && q.rest == []
    ensures r == Read(Restart(n), b) && Deliver(m, [], [a, b]).messages == Read(m, a).messages + r.messages
  {
    var chunks := [a, b];
    assert [] + a == a && [] + b == b && chunks[1..] == [b] && Restart(m) == m;
    r := Read(Restart(n), b);
    assert [b][1..] == [] && r.messages + [] == r.messages;
    assert Deliver(n, [], chunks[1..]).messages == r.messages;
  }

  lemma {:induction false} FirstOpcode(m: Machine, d: seq<Byte>)
    requires Good(m) && m.phase != Fin
    ensures var r := Read(m, d); r.messages != [] ==> r.messages[0].opcode == Cur(m).opcode
  {
    ParseKeeps(m, d);
  }

  lemma {:induction false} MessagesAt(ss: seq<Sent>, k: nat, first: bool)
    requires AllSendable(ss) && k < |ss|
    ensures |MessagesOf(ss, first)| == |ss| && MessagesOf(ss, first)[k].opcode == ss[k].opcode
  {
    if |ss| > 1 {
      MessagesAt(ss[1..], if k > 0 then k - 1 else 0, first && ss[0].fin);
    }
  }

  // The main result on cuts: frames come out in the same way however their bytes are received
  // if and only if all that are read, but the last, end their messages.
  lemma {:induction false} ChunksIff(m: Machine, ss: seq<Sent>)
    requires Good(m) && m.phase == Fin && m.cur == 0 && AllSendable(ss) && Orderly(ss)
    ensures Steady(View(m), ss) <==>
      forall chunks {:trigger Deliver(m, [], chunks)} :: Flat(chunks) == Wires(ss) ==> Alike(Deliver(m, [], chunks), Read(m, Wires(ss)))
  {
    if Steady(View(m), ss) {
      forall chunks | Flat(chunks) == Wires(ss) ensures Alike(Deliver(m, [], chunks), Read(m, Wires(ss))) {
        Harmless(m, ss, chunks);
      }
    } else {
      var chunks := Harm(m, ss);
      assert !Alike(Deliver(m, [], chunks), Read(m, Wires(ss)));
    }
  }

  // So such frames are read back in order.
  lemma {:induction false} ChunksBack(m: Machine, ss: seq<Sent>, chunks: seq<seq<Byte>>)
    requires Good(m) && m.phase == Fin && m.cur == 0 && AllSendable(ss) && Steady(View(m), ss) && Flat(chunks) == Wires(ss)
    ensures var d, n := Deliver(m, [], chunks), ReadCount(View(m), ss);
      && d.messages == MessagesOf(ss[..n], true) && d.requests == Handed(View(m), ss[..n])
      && d.stop == if ClosesAt(ss, CloseAt(View(m), ss)) then Closed else Waiting
  {
    Harmless(m, ss, chunks);
    FramesBack(m, ss);
  }

  // ----- Messages in one frame --------------------------------------------------------

  // What a sender means to be handed on.
  function Texts(ss: seq<Sent>): seq<seq<Byte>> {
    if ss == [] then [] else (if Text(ss[0].opcode) then Given(ss[0].payload) else []) + Texts(ss[1..])
  }

  function FirstClose(ss: seq<Sent>): (k: nat)
    ensures k <= |ss|
  {
    if ss == [] || ss[0].opcode == CLOSE_OP then 0 else 1 + FirstClose(ss[1..])
  }

  // A frame of the list that neither adds to a message nor closes.
  predicate Silent(x: Message) {
    x.opcode != CLOSE_OP && (Text(x.opcode) ==> x.payload == [])
  }

  predicate AllSilent(list: seq<Message>) {
    forall j {:trigger list[j]} :: 0 <= j < |list| ==> Silent(list[j])
  }

  predicate SilentBut(list: seq<Message>, k: nat) {
    forall j {:trigger list[j]} :: 0 <= j < |list| && j != k ==> Silent(list[j])
  }

  function Part(x: Message): seq<Byte> {
    if Text(x.opcode) then x.payload else []
  }

  lemma {:induction false} JoinedSilent(list: seq<Message>)
    requires AllSilent(list)
    ensures Joined(list) == [] && !HasClose(list)
  {
    if list != [] {
      assert Silent(list[0]);
      forall j | 0 <= j < |list[1..]| ensures Silent(list[1..][j]) {
        assert list[1..][j] == list[j + 1];
      }
      JoinedSilent(list[1..]);
    }
  }

  lemma {:induction false} JoinedOnly(list: seq<Message>, k: nat)
    requires k < |list| && SilentBut(list, k)
    ensures Joined(list) == Part(list[k]) && (HasClose(list) <==> list[k].opcode == CLOSE_OP)
  {
    var rest := list[1..];
    if k == 0 {
      forall j | 0 <= j < |rest| ensures Silent(rest[j]) {
        assert rest[j] == list[j + 1];
      }
      JoinedSilent(rest);
      assert Part(list[0]) + [] == Part(list[0]);
    } else {
      assert Silent(list[0]) && rest[k - 1] == list[k];
      forall j | 0 <= j < |rest| && j != k - 1 ensures Silent(rest[j]) {
        assert rest[j] == list[j + 1];
      }
      JoinedOnly(rest, k - 1);
      assert [] + Joined(rest) == Joined(rest);
    }
  }

  lemma ClearSilent(list: seq<Message>)
    requires !HasClose(list)
    ensures AllSilent(Clear(list))
  {
  }

  lemma {:induction false} HandedWhole(r: Row, ss: seq<Sent>)
    requires Sound(r) && r.cur == 0 && SilentBut(r.list, 0) && AllSendable(ss) && AllFin(ss)
    ensures CloseAt(r, ss) == FirstClose(ss) && Handed(r, ss) == Texts(ss[..FirstClose(ss)])
    decreases |ss|
  {
    if ss != [] {
      var list := Placed(r, ss[0]).list;
      JoinedOnly(list, 0);
      if ss[0].opcode != CLOSE_OP {
        AllFinCons(ss);
        ClearSilent(list);
        HandedWhole(Step(r, ss[0]), ss[1..]);
        assert ss[..FirstClose(ss)][1..] == ss[1..][..FirstClose(ss[1..])];
      }
    }
  }

  // A frame that hands nothing on may be left out at the end.
  lemma {:induction false} TextsButLast(ss: seq<Sent>, n: nat)
    requires n + 1 == |ss| && (ss[n].payload == [] || !Text(ss[n].opcode))
    ensures Texts(ss[..n]) == Texts(ss)
  {
    if n == 0 {
      assert ss[1..] == [];
    } else {
      assert ss[..n][1..] == ss[1..][..n - 1];
      TextsButLast(ss[1..], n - 1);
    }
  }

  lemma {:induction false} FirstCloseFront(ss: seq<Sent>, n: nat)
    requires n <= |ss|
    ensures FirstClose(ss[..n]) == if FirstClose(ss) < n then FirstClose(ss) else n
  {
    if n > 0 && ss[0].opcode != CLOSE_OP {
      assert ss[..n][1..] == ss[1..][..n - 1];
      FirstCloseFront(ss[1..], n - 1);
    }
  }

  lemma {:induction false} TextsRead(r: Row, ss: seq<Sent>)
    requires Sound(r) && r.cur == 0 && SilentBut(r.list, 0) && AllSendable(ss) && AllFin(ss)
    ensures Handed(r, ss[..ReadCount(r, ss)]) == Texts(ss[..FirstClose(ss)])
  {
    var k, n := FirstClose(ss), ReadCount(r, ss);
    HandedWhole(r, ss);
    HandedWhole(r, ss[..n]);
    FirstCloseFront(ss, n);
    if k < n {
      assert ss[..n][..k] == ss[..k];
    } else {
      assert ss[..n][..n] == ss[..n] && k <= |ss| <= n + 1;
      if n < k {
        assert ss[..k] == ss;
        TextsButLast(ss, n);
      }
    }
  }

  lemma {:induction false} FinIsSteady(r: Row, ss: seq<Sent>)
    requires Sound(r) && AllSendable(ss) && AllFin(ss)
    ensures Steady(r, ss)
  {
    assert FirstOpen(ss) == |ss|;
  }

  // However the bytes are received: if every message is one frame, what is handed on are the
  // payloads of the text and binary frames in front of the first close frame, as they were
  // sent.
  lemma {:induction false} RequestsBack(m: Machine, ss: seq<Sent>, chunks: seq<seq<Byte>>)
    requires Good(m) && m.phase == Fin && m.cur == 0 && SilentBut(Shown(m.list), 0)
    requires AllSendable(ss) && AllFin(ss) && Flat(chunks) == Wires(ss)
    ensures Read(m, Wires(ss)).requests == Deliver(m, [], chunks).requests == Texts(ss[..FirstClose(ss)])
  {
    FramesBack(m, ss);
    FinIsSteady(View(m), ss);
    Harmless(m, ss, chunks);
    TextsRead(View(m), ss);
  }

  lemma {:induction false} FirstCloseIs(ss: seq<Sent>)
    ensures var k := FirstClose(ss); (k < |ss| ==> ss[k].opcode == 8) && forall i :: 0 <= i < k ==> ss[i].opcode != 8
  {
    if ss != [] && ss[0].opcode != CLOSE_OP {
      FirstCloseIs(ss[1..]);
    }
  }

  // Where the frames are whose payloads these are.
  lemma {:induction false} TextsAt(ss: seq<Sent>) returns (at: seq<nat>)
    ensures |Texts(ss)| == |at|
    ensures forall j {:trigger at[j]} :: 0 <= j < |at| ==> at[j] < |ss| && Texts(ss)[j] == ss[at[j]].payload
    ensures forall j {:trigger at[j]} :: 0 <= j < |at| ==>
      (ss[at[j]].opcode == 1 || ss[at[j]].opcode == 2) && ss[at[j]].payload != []
    ensures forall j, k {:trigger at[j], at[k]} :: 0 <= j < k < |at| ==> at[j] < at[k]
    ensures forall i {:trigger i in at} :: 0 <= i < |ss| && (ss[i].opcode == 1 || ss[i].opcode == 2) && ss[i].payload != [] ==> i in at
  {
    if ss == [] {
      return [];
    }
    var rest := ss[1..];
    var later := TextsAt(rest);
    at := seq(|later|, j requires 0 <= j < |later| => later[j] + 1);
    OneLater(later, at);
    forall j | 0 <= j < |at| ensures 0 < at[j] < |ss| && ss[at[j]] == rest[later[j]] {
    }
    forall i | 0 < i < |ss| && (ss[i].opcode == 1 || ss[i].opcode == 2) && ss[i].payload != [] ensures i in at {
      assert rest[i - 1] == ss[i] && i - 1 in later;
    }
    if (ss[0].opcode == 1 || ss[0].opcode == 2) && ss[0].payload != [] {
      at := WithFirst(ss, at);
    } else {
      assert Texts(ss) == [] + Texts(rest);
    }
  }

  lemma OneLater(later: seq<nat>, at: seq<nat>)
    requires |at| == |later| && forall j {:trigger at[j]} {:trigger later[j]} :: 0 <= j < |at| ==> at[j] == later[j] + 1
    ensures forall i: nat {:trigger i in later} :: i in later ==> i + 1 in at
  {
    forall i: nat | i in later ensures i + 1 in at {
      var j :| 0 <= j < |later| && later[j] == i;
      assert at[j] == i + 1;
    }
  }

  lemma WithFirst(ss: seq<Sent>, later: seq<nat>) returns (at: seq<nat>)
    requires ss != [] && Texts(ss) == [ss[0].payload] + Texts(ss[1..]) && |Texts(ss[1..])| == |later|
    requires forall j {:trigger later[j]} :: 0 <= j < |later| ==> 0 < later[j] < |ss| && Texts(ss[1..])[j] == ss[later[j]].payload
    requires forall j, k {:trigger later[j], later[k]} :: 0 <= j < k < |later| ==> later[j] < later[k]
    ensures at == [0] + later && |at| == |Texts(ss)|
    ensures forall j {:trigger at[j]} :: 0 <= j < |at| ==> at[j] < |ss| && Texts(ss)[j] == ss[at[j]].payload
    ensures forall j, k {:trigger at[j], at[k]} :: 0 <= j < k < |at| ==> at[j] < at[k]
    ensures forall i {:trigger i in at} :: i in later || i == 0 <==> i in at
  {
    at := [0] + later;
    assert forall j {:trigger at[j]} :: 0 < j < |at| ==> at[j] == later[j - 1];
  }

  // In plain words: frame by frame, each payload once and in order. `c` is where the first
  // close frame is.
  lemma {:induction false} RequestsAre(m: Machine, ss: seq<Sent>, chunks: seq<seq<Byte>>) returns (c: nat, at: seq<nat>)
    requires Good(m) && m.phase == Fin && m.cur == 0
    requires forall j {:trigger m.list[j]} :: 0 < j < |m.list| ==>
      m.list[j].opcode != 8 && (m.list[j].opcode == 1 || m.list[j].opcode == 2 ==> m.list[j].payload == [])
    requires AllSendable(ss) && (forall i :: 0 <= i < |ss| ==> ss[i].fin) && Flat(chunks) == Wires(ss)
    ensures c <= |ss| && (c < |ss| ==> ss[c].opcode == 8) && forall i :: 0 <= i < c ==> ss[i].opcode != 8
    ensures var requests := Deliver(m, [], chunks).requests;
      |requests| == |at| && forall j :: 0 <= j < |at| ==> at[j] < c && requests[j] == ss[at[j]].payload
    ensures forall j, k {:trigger at[j], at[k]} :: 0 <= j < k < |at| ==> at[j] < at[k]
    ensures forall i :: 0 <= i < c ==> (i in at <==> (ss[i].opcode == 1 || ss[i].opcode == 2) && ss[i].payload != [])
    ensures Deliver(m, [], chunks).stop == Closed <==> c < |ss| && (ss[c].payload != [] || c + 1 < |ss|)
  {
    RequestsBack(m, ss, chunks);
    StopsAt(m, ss, chunks);
    c := FirstClose(ss);
    FirstCloseIs(ss);
    at := TextsAt(ss[..c]);
  }

  lemma {:induction false} StopsAt(m: Machine, ss: seq<Sent>, chunks: seq<seq<Byte>>)
    requires Good(m) && m.phase == Fin && m.cur == 0 && SilentBut(Shown(m.list), 0)
    requires AllSendable(ss) && AllFin(ss) && Flat(chunks) == Wires(ss)
    ensures Deliver(m, [], chunks).stop == if ClosesAt(ss, FirstClose(ss)) then Closed else Waiting
  {
    FinIsSteady(View(m), ss);
    ChunksBack(m, ss, chunks);
    HandedWhole(View(m), ss);
  }

  lemma {:induction false} TextsAll(ss: seq<Sent>)
    requires forall i :: 0 <= i < |ss| ==> (ss[i].opcode == 1 || ss[i].opcode == 2) && ss[i].payload != []
    ensures |Texts(ss)| == |ss| && forall i :: 0 <= i < |ss| ==> Texts(ss)[i] == ss[i].payload
  {
    if ss != [] {
      TextsAll(ss[1..]);
    }
  }

  // If every frame is a text with something in it, each is handed on, once.
  lemma {:induction false} TextsOnce(m: Machine, ss: seq<Sent>, chunks: seq<seq<Byte>>)
    requires Good(m) && m.phase == Fin && m.cur == 0 && SilentBut(Shown(m.list), 0)
    requires AllSendable(ss) && Flat(chunks) == Wires(ss)
    requires forall i :: 0 <= i < |ss| ==> ss[i].fin && (ss[i].opcode == 1 || ss[i].opcode == 2) && ss[i].payload != []
    ensures var requests := Deliver(m, [], chunks).requests;
      |requests| == |ss| && forall i :: 0 <= i < |ss| ==> requests[i] == ss[i].payload
  {
    RequestsBack(m, ss, chunks);
    FirstCloseIs(ss);
    assert ss[..FirstClose(ss)] == ss;
    TextsAll(ss);
  }

  // ----- Messages in several frames ---------------------------------------------------

  // A text or binary frame and its continuations (section 5.4 of RFC 6455).
  predicate Fragments(ss: seq<Sent>) {
    |ss| >= 2 && !ss[0].fin && Text(ss[0].opcode) && Continues(ss[1..])
  }

  predicate Continues(ss: seq<Sent>) {
    forall i {:trigger ss[i]} :: 0 <= i < |ss| ==> ss[i].opcode == 0 && (ss[i].fin <==> i == |ss| - 1)
  }

  lemma FragmentsAre(ss: seq<Sent>)
    ensures Fragments(ss) <==>
      && |ss| >= 2 && (ss[0].opcode == 1 || ss[0].opcode == 2) && !ss[0].fin
      && forall i :: 0 < i < |ss| ==> ss[i].opcode == 0 && (ss[i].fin <==> i + 1 == |ss|)
  {
    assert |ss| >= 2 ==> forall i :: 0 < i < |ss| ==> ss[1..][i - 1] == ss[i];
  }

  function Payloads(ss: seq<Sent>): seq<Byte> {
    if ss == [] then [] else ss[0].payload + Payloads(ss[1..])
  }

  // Continuations add nothing to what the list holds; behind the last one nothing is left.
  lemma {:induction false} ContinuedHanded(r: Row, ss: seq<Sent>, rest: seq<Sent>)
    requires Sound(r) && r.cur > 0 && SilentBut(r.list, 0) && r.list[0].opcode != CLOSE_OP
    requires AllSendable(ss) && AllSendable(rest) && ss != [] && Continues(ss)
    ensures After(r, ss).cur > 0 && AllSilent(After(r, ss).list) && AllSendable(ss + rest) && CloseAt(r, ss) == |ss|
    ensures Handed(r, ss + rest) == Given(Part(r.list[0])) + Handed(After(r, ss), rest)
    decreases |ss|
  {
    var p := Placed(r, ss[0]).list;
    JoinedOnly(p, 0);
    assert (ss + rest)[1..] == ss[1..] + rest;
    if |ss| > 1 {
      var h := Handed(Step(r, ss[0]), ss[1..] + rest);
      assert [] + h == h;
      ContinuedHanded(Step(r, ss[0]), ss[1..], rest);
    } else {
      ClearSilent(p);
      assert ss[1..] + rest == rest && ss[1..] == [];
    }
  }

  lemma {:induction false} FragmentsHanded(r: Row, ss: seq<Sent>, rest: seq<Sent>)
    requires Sound(r) && r.cur == 0 && SilentBut(r.list, 0) && AllSendable(ss) && AllSendable(rest) && Fragments(ss)
    ensures After(r, ss).cur > 0 && AllSilent(After(r, ss).list) && AllSendable(ss + rest) && CloseAt(r, ss) == |ss|
    ensures Handed(r, ss + rest) == Given(ss[0].payload) + Handed(After(r, ss), rest)
  {
    assert (ss + rest)[1..] == ss[1..] + rest;
    var h := Handed(Step(r, ss[0]), ss[1..] + rest);
    assert [] + h == h;
    ContinuedHanded(Step(r, ss[0]), ss[1..], rest);
  }

  // A message in several frames that are received at once is handed on whole exactly if all
  // but its first frame are empty: the rest is lost.
  lemma {:induction false} FragmentsIff(r: Row, ss: seq<Sent>)
    requires Sound(r) && r.cur == 0 && SilentBut(r.list, 0) && AllSendable(ss) && Fragments(ss)
    ensures Handed(r, ss) == Given(Payloads(ss)) <==> Payloads(ss[1..]) == []
    ensures Handed(r, ss) == if ss[0].payload == [] then [] else [ss[0].payload]
  {
    FragmentsHanded(r, ss, []);
    var a, b := ss[0].payload, Payloads(ss[1..]);
    assert ss + [] == ss && Given(a) + [] == Given(a);
    if b != [] {
      assert |a + b| > |a|;
    } else {
      assert a + b == a;
    }
  }

  // Behind such a message, among bytes that are received with it, a key is not found: a text
  // is handed on as it was sent exactly if it is not masked or its key changes nothing.
  lemma {:induction false} BehindFragmentsIff(r: Row, ss: seq<Sent>, s: Sent)
    requires Sound(r) && r.cur == 0 && SilentBut(r.list, 0)
    requires AllSendable(ss) && Fragments(ss) && Sendable(s) && s.fin && Text(s.opcode)
    ensures AllSendable(ss + [s])
    ensures Handed(r, ss + [s]) == Given(ss[0].payload) + Given(s.payload) <==> s.key.None? || ZeroKey(s)
  {
    FragmentsHanded(r, ss, [s]);
    var p, x := After(r, ss), Delivered(s, false);
    LaterHanded(p, s);
    DeliveredIff(s, false);
    var a, b, c := Given(ss[0].payload), Given(x.payload), Given(s.payload);
    if a + b == a + c {
      assert b == (a + b)[|a|..] == (a + c)[|a|..] == c;
    }
  }

  lemma {:induction false} LaterHanded(r: Row, s: Sent)
    requires Sound(r) && r.cur > 0 && AllSilent(r.list) && Sendable(s) && s.fin && Text(s.opcode)
    ensures AllSendable([s]) && Handed(r, [s]) == Given(Delivered(s, false).payload) && CloseAt(r, [s]) == 1
  {
    var ss, p := [s], Placed(r, s).list;
    JoinedOnly(p, r.cur);
    var h := Given(Joined(p));
    assert Handed(Step(r, s), ss[1..]) == [] && h + [] == h;
  }

  // ----- Messages that are received in several lots -----------------------------------

  // Only the first machine of a delivery need not be put back to the first frame.
  lemma {:induction false} DeliverRestart(m: Machine, left: seq<Byte>, chunks: seq<seq<Byte>>)
    requires Good(m)
    ensures Alike(Deliver(m, left, chunks), Deliver(Restart(m), left, chunks))
  {
  }

  // Frames that are complete when they have been received, and do not close.
  predicate Settled(r: Row, ss: seq<Sent>)
    requires Sound(r) && AllSendable(ss)
  {
    CloseAt(r, ss) == |ss| && Whole(ss, [])
  }

  lemma {:induction false} FirstLot(m: Machine, ss: seq<Sent>, chunks: seq<seq<Byte>>) returns (n: Machine)
    requires Good(m) && m.phase == Fin && m.cur == 0 && AllSendable(ss) && Settled(View(m), ss)
    ensures Good(n) && n.phase == Fin && n.cur == 0 && Shown(n.list) == After(View(m), ss).list
    ensures Deliver(m, [], [Wires(ss)] + chunks).requests == Handed(View(m), ss) + Deliver(n, [], chunks).requests
  {
    var n1 := FramesThen(m, ss, []);
    assert Wires(ss) + [] == Wires(ss) == [] + Wires(ss);
    ThenNothing(MessagesOf(ss, true), Handed(View(m), ss), n1);
    assert Restart(m) == m && ([Wires(ss)] + chunks)[1..] == chunks;
    n := Restart(n1);
    DeliverRestart(n1, [], chunks);
  }

  // When a message has ended, all is well again with what is received next, whatever came
  // before.
  lemma {:induction false} Recovers(m: Machine, ss: seq<Sent>, us: seq<Sent>, chunks: seq<seq<Byte>>)
    requires Good(m) && m.phase == Fin && m.cur == 0 && AllSendable(ss) && Settled(View(m), ss) && ss != [] && ss[|ss| - 1].fin
    requires AllSendable(us) && AllFin(us) && Flat(chunks) == Wires(us)
    ensures Deliver(m, [], [Wires(ss)] + chunks).requests == Handed(View(m), ss) + Texts(us[..FirstClose(us)])
  {
    var n := FirstLot(m, ss, chunks);
    EndedSilent(View(m), ss);
    RequestsBack(n, us, chunks);
  }

  lemma {:induction false} EndedSilent(r: Row, ss: seq<Sent>)
    requires Sound(r) && AllSendable(ss) && ss != [] && ss[|ss| - 1].fin && CloseAt(r, ss) == |ss|
    ensures AllSilent(After(r, ss).list)
    decreases |ss|
  {
    if |ss| == 1 {
      ClearSilent(Placed(r, ss[0]).list);
      assert ss[1..] == [];
    } else {
      EndedSilent(Step(r, ss[0]), ss[1..]);
    }
  }

  function FlatSent(gs: seq<seq<Sent>>): seq<Sent> {
    if gs == [] then [] else gs[0] + FlatSent(gs[1..])
  }

  predicate Lot(ss: seq<Sent>) {
    AllSendable(ss) && ss != [] && ss[|ss| - 1].payload != []
  }

  predicate AllLots(gs: seq<seq<Sent>>) {
    forall i {:trigger gs[i]} :: 0 <= i < |gs| ==> Lot(gs[i])
  }

  // The bytes of groups of frames.
  function Lots(gs: seq<seq<Sent>>): (r: seq<seq<Byte>>)
    requires AllLots(gs)
    ensures |r| == |gs|
  {
    if gs == [] then [] else [Wires(gs[0])] + Lots(gs[1..])
  }

  predicate AllZero(ss: seq<Sent>) {
    forall i {:trigger ss[i]} :: 0 <= i < |ss| ==> ss[i].opcode == 0
  }

  // Continuations alone hand nothing on.
  lemma {:induction false} ZeroHanded(r: Row, ss: seq<Sent>)
    requires Sound(r) && (AllSilent(r.list) || (r.cur == 0 && SilentBut(r.list, 0))) && AllSendable(ss) && AllZero(ss)
    ensures Handed(r, ss) == [] && CloseAt(r, ss) == |ss| && (ss != [] ==> AllSilent(After(r, ss).list))
    decreases |ss|
  {
    if ss != [] {
      var p := Placed(r, ss[0]).list;
      JoinedSilent(p);
      assert AllSilent(Step(r, ss[0]).list) by {
        if ss[0].fin {
          ClearSilent(p);
        }
      }
      ZeroHanded(Step(r, ss[0]), ss[1..]);
    }
  }

  lemma {:induction false} ZeroLots(m: Machine, gs: seq<seq<Sent>>)
    requires Good(m) && m.phase == Fin && m.cur == 0 && SilentBut(Shown(m.list), 0)
    requires AllLots(gs) && forall i {:trigger gs[i]} :: 0 <= i < |gs| ==> AllZero(gs[i])
    ensures Deliver(m, [], Lots(gs)).requests == []
    decreases |gs|
  {
    if gs != [] {
      ZeroHanded(View(m), gs[0]);
      var n := FirstLot(m, gs[0], Lots(gs[1..]));
      ZeroLots(n, gs[1..]);
    }
  }

  // A message in several frames that are received in several lots is not handed on at all.
  lemma {:induction false} SplitIsLost(m: Machine, g: seq<Sent>, gs: seq<seq<Sent>>)
    requires Good(m) && m.phase == Fin && m.cur == 0 && SilentBut(Shown(m.list), 0)
    requires Lot(g) && gs != [] && AllLots(gs) && Fragments(g + FlatSent(gs))
    ensures Deliver(m, [], [Wires(g)] + Lots(gs)).requests == []
  {
    FlatZero(g, gs);
    OpenHanded(View(m), g);
    var n := FirstLot(m, g, Lots(gs));
    ZeroLots(n, gs);
  }

  // The frames in front, and those behind.
  lemma {:induction false} FlatZero(g: seq<Sent>, gs: seq<seq<Sent>>)
    requires Lot(g) && gs != [] && AllLots(gs) && Fragments(g + FlatSent(gs))
    ensures Text(g[0].opcode) && (forall i {:trigger g[i]} :: 0 <= i < |g| ==> !g[i].fin && (i > 0 ==> g[i].opcode == 0))
    ensures forall i {:trigger gs[i]} :: 0 <= i < |gs| ==> AllZero(gs[i])
  {
    var all := g + FlatSent(gs);
    assert FlatSent(gs) != [] by {
      assert gs[0] != [];
    }
    forall i | 0 <= i < |g| ensures !g[i].fin && (i > 0 ==> g[i].opcode == 0) {
      assert all[i] == g[i] && (i > 0 ==> all[1..][i - 1] == g[i]);
    }
    forall i | 0 <= i < |FlatSent(gs)| ensures FlatSent(gs)[i].opcode == 0 {
      assert all[1..][|g| + i - 1] == FlatSent(gs)[i];
    }
    ZeroParts(gs);
  }

  lemma {:induction false} ZeroParts(gs: seq<seq<Sent>>)
    requires AllZero(FlatSent(gs))
    ensures forall i {:trigger gs[i]} :: 0 <= i < |gs| ==> AllZero(gs[i])
  {
    if gs != [] {
      var all := FlatSent(gs);
      forall i | 0 <= i < |gs[0]| ensures gs[0][i].opcode == 0 {
        assert all[i] == gs[0][i];
      }
      forall i | 0 <= i < |FlatSent(gs[1..])| ensures FlatSent(gs[1..])[i].opcode == 0 {
        assert all[|gs[0]| + i] == FlatSent(gs[1..])[i];
      }
      ZeroParts(gs[1..]);
      forall i | 0 < i < |gs| ensures AllZero(gs[i]) {
        assert gs[1..][i - 1] == gs[i];
      }
    }
  }

  // Frames that do not end their message hand nothing on yet.
  lemma {:induction false} OpenHanded(r: Row, ss: seq<Sent>)
    requires Sound(r) && SilentBut(r.list, 0) && AllSendable(ss) && (r.cur == 0 && ss != [] ==> Text(ss[0].opcode))
    requires forall i {:trigger ss[i]} :: 0 <= i < |ss| ==> !ss[i].fin && (i > 0 || r.cur > 0 ==> ss[i].opcode == 0)
    ensures Handed(r, ss) == [] && CloseAt(r, ss) == |ss| && SilentBut(After(r, ss).list, 0)
    decreases |ss|
  {
    if ss != [] {
      OpenHanded(Step(r, ss[0]), ss[1..]);
    }
  }

  lemma {:induction false} OneLot(m: Machine, ss: seq<Sent>)
    requires Good(m) && m.phase == Fin && m.cur == 0 && AllSendable(ss) && Settled(View(m), ss)
    ensures Deliver(m, [], [Wires(ss)]).requests == Handed(View(m), ss)
  {
    var n := FirstLot(m, ss, []);
    var h := Handed(View(m), ss);
    assert [Wires(ss)] + [] == [Wires(ss)] && h + [] == h;
  }

  lemma {:induction false} CloseConcat(r: Row, ss: seq<Sent>, tt: seq<Sent>)
    requires Sound(r) && AllSendable(ss) && AllSendable(tt) && CloseAt(r, ss) == |ss|
    ensures AllSendable(ss + tt) && CloseAt(r, ss + tt) == |ss| + CloseAt(After(r, ss), tt)
    decreases |ss|
  {
    if ss == [] {
      assert ss + tt == tt;
    } else {
      assert (ss + tt)[1..] == ss[1..] + tt;
      CloseConcat(Step(r, ss[0]), ss[1..], tt);
    }
  }

  lemma {:induction false} WiresSnoc(ss: seq<Sent>, s: Sent)
    requires AllSendable(ss) && Sendable(s)
    ensures AllSendable(ss + [s]) && Wires(ss + [s]) == Wires(ss) + Wire(s)
  {
    WiresSplit(ss + [s], |ss|);
    assert (ss + [s])[..|ss|] == ss && (ss + [s])[|ss|..] == [s];
    LastWire([s], s);
  }

  // Of "a" and "b", two frames of a message, only "a" is handed on if they are received at
  // once, and nothing if they are not.
  lemma {:induction false} RestIsLost()
    ensures var a, b := Wire(Sent(false, TEXT_OP, [97], None)), Wire(Sent(true, 0, [98], None));
      Deliver(START, [], [a + b]).requests == [[97]] && Deliver(START, [], [a, b]).requests == []
  {
    var a, b, r := Sent(false, TEXT_OP, [97], None), Sent(true, 0, [98], None), View(START);
    var ab := [a] + [b];
    LastWire([a], a);
    LastWire([b], b);
    WiresSnoc([a], b);
    FragmentsHanded(r, ab, []);
    assert ab + [] == ab && Handed(After(r, ab), []) == [] && Given([97]) + [] == [[97]];
    OneLot(START, ab);
    var gs := [[b]];
    assert gs[1..] == [] && FlatSent(gs) == [b] + FlatSent(gs[1..]) && [b] + [] == [b];
    SplitIsLost(START, [a], gs);
    assert Lots(gs) == [Wires([b])] + Lots(gs[1..]) == [Wire(b)];
    assert [Wires([a])] + Lots(gs) == [Wire(a), Wire(b)];
  }

  // A masked text behind them comes out as 254 if it is received with them, and as it was
  // sent, as 1, if it is received later.
  lemma {:induction false} KeyIsLost()
    ensures var a, b := Wire(Sent(false, TEXT_OP, [97], None)), Wire(Sent(true, 0, [98], None));
      var s := Wire(Sent(true, TEXT_OP, [1], Some([255, 0, 0, 0])));
      Deliver(START, [], [a + b + s]).requests == [[97], [254]] && Deliver(START, [], [a + b, s]).requests == [[97], [1]]
  {
    var a, b, r := Sent(false, TEXT_OP, [97], None), Sent(true, 0, [98], None), View(START);
    var ab, s := [a] + [b], Sent(true, TEXT_OP, [1], Some([255, 0, 0, 0]));
    LastWire([a], a);
    WiresSnoc([a], b);
    WiresSnoc(ab, s);
    FragmentsHanded(r, ab, [s]);
    LaterHanded(After(r, ab), s);
    SomeStayMasked();
    CloseConcat(r, ab, [s]);
    OneLot(START, ab + [s]);
    assert Given([97]) + Given([254]) == [[97], [254]];
    WholeLater(ab, s);
  }

  lemma {:induction false} WholeLater(ab: seq<Sent>, s: Sent)
    requires AllSendable(ab) && Fragments(ab) && ab[0].payload == [97] && ab[|ab| - 1].payload != []
    requires Sendable(s) && s.fin && s.opcode == TEXT_OP && s.payload == [1]
    ensures Deliver(START, [], [Wires(ab), Wire(s)]).requests == [[97], [1]]
  {
    var r, us, chunks := View(START), [s], [Wire(s)];
    FragmentsHanded(r, ab, []);
    assert ab + [] == ab && Handed(After(r, ab), []) == [] && Given([97]) + [] == [[97]];
    LastWire(us, s);
    assert chunks[1..] == [] && Flat(chunks) == Wire(s) + Flat(chunks[1..]) && Wire(s) + [] == Wire(s);
    assert ab[1..][|ab| - 2] == ab[|ab| - 1];
    Recovers(START, ab, us, chunks);
    assert [Wires(ab)] + chunks == [Wires(ab), Wire(s)];
    assert us[1..] == [] && FirstClose(us) == 1 + FirstClose(us[1..]) && us[..1] == us;
    assert Texts(us) == Given([1]) + Texts(us[1..]) && Given([1]) + [] == [[1]];
    assert [[97]] + [[1]] == [[97], [1]];
  }
}
