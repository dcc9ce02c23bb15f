// stu_unescape_uri of stu_string.c: percent-decoding in place.
module Uri {
  import opened Bytes

  const PERCENT: Byte := '%' as int
  const PLUS: Byte := '+' as int
  const QUESTION: Byte := '?' as int
  const BLANK: Byte := 32

  predicate LetterHex(ch: Byte) {
    'a' as int <= ch <= 'f' as int || 'A' as int <= ch <= 'F' as int
  }

  predicate Hex(ch: Byte) {
    Digit(ch) || LetterHex(ch)
  }

  function HexValue(ch: Byte): (v: nat)
    requires Hex(ch)
    ensures v < 16
  {
    if Digit(ch) then ch - '0' as int else if ch >= 'a' as int then ch - 'a' as int + 10 else ch - 'A' as int + 10
  }

  // The digits: 0-9, and A-F or a-f for 10 to 15.
  lemma HexIs(ch: Byte)
    ensures Hex(ch) <==> 48 <= ch <= 57 || 65 <= ch <= 70 || 97 <= ch <= 102
    ensures 48 <= ch <= 57 ==> HexValue(ch) == ch - 48
    ensures 65 <= ch <= 70 ==> HexValue(ch) == 10 + (ch - 65)
    ensures 97 <= ch <= 102 ==> HexValue(ch) == 10 + (ch - 97)
  {
  }

  // ch | 0x20
  function Or20(ch: Byte): Byte {
    if ch / 32 % 2 == 0 then ch + 32 else ch
  }

  // How the program tells a letter and finds its value.
  lemma LetterBits(ch: Byte)
    ensures LetterHex(ch) <==> 'a' as int <= Or20(ch) <= 'f' as int
    ensures LetterHex(ch) ==> HexValue(ch) == Or20(ch) - 'a' as int + 10
  {
  }

  // The bits of the type argument.
  datatype Kind = Kind(uri: bool, redirect: bool)

  // What one step writes, how many bytes it reads, and whether it is the last.
  datatype Piece = Piece(text: seq<Byte>, size: nat, stop: bool)

  // An escape is left alone in a redirect if it stands for a control character, a blank, a
  // quote or a percent sign or is not ASCII.
  function Escape(s: seq<Byte>, kind: Kind): (r: Piece)
    requires |s| > 2 && Hex(s[1]) && Hex(s[2])
    ensures |r.text| <= r.size <= |s|
  {
    var v: Byte := HexValue(s[1]) * 16 + HexValue(s[2]);
    if LetterHex(s[2]) && v == QUESTION && (kind.uri || kind.redirect) then Piece([v], 3, true)
    else if kind.redirect && !(LetterHex(s[2]) && kind.uri) && !(PERCENT < v < 0x7f) then Piece(s[..3], 3, false)
    else Piece([v], 3, false)
  }

  function First(s: seq<Byte>, kind: Kind): (r: Piece)
    requires s != []
    ensures |r.text| <= r.size <= |s| && 0 < r.size
  {
    if s[0] == QUESTION && (kind.uri || kind.redirect) then Piece([QUESTION], 1, true)
    else if s[0] == PERCENT && |s| > 2 && Hex(s[1]) && Hex(s[2]) then Escape(s, kind)
    else if s[0] == PLUS then Piece([BLANK], 1, false)
    else Piece([s[0]], 1, false)
  }

  datatype Decoded = Decoded(text: seq<Byte>, size: nat)

  // The text that s stands for, and how much of s was read.
  function Decode(s: seq<Byte>, kind: Kind): (r: Decoded)
    ensures |r.text| <= r.size <= |s|
  {
    if s == [] then Decoded([], 0)
    else
      var x := First(s, kind);
      if x.stop then Decoded(x.text, x.size)
      else
        var r := Decode(s[x.size..], kind);
        Decoded(x.text + r.text, x.size + r.size)
  }

  // ----- Encoding ---------------------------------------------------------------------

  // How a byte is written: as it is, as an escape with digits of either case (section 2.1 of
  // RFC 3986), or as a plus sign.
  datatype Form = Raw | Escaped(upper1: bool, upper2: bool) | PlusSign

  function HexChar(v: nat, upper: bool): (c: Byte)
    requires v < 16
    ensures Hex(c) && HexValue(c) == v
  {
    if v < 10 then '0' as int + v else if upper then 'A' as int + v - 10 else 'a' as int + v - 10
  }

  datatype Written = Written(c: Byte, form: Form)

  predicate Sound(w: Written) {
    match w.form
    case Raw => w.c != PERCENT && w.c != PLUS
    case Escaped(_, _) => true
    case PlusSign => w.c == BLANK
  }

  function Encode1(w: Written): (r: seq<Byte>)
    ensures r != []
  {
    match w.form
    case Raw => [w.c]
    case Escaped(u1, u2) => [PERCENT, HexChar(w.c / 16, u1), HexChar(w.c % 16, u2)]
    case PlusSign => [PLUS]
  }

  function Encode(ws: seq<Written>): seq<Byte> {
    if ws == [] then [] else Encode1(ws[0]) + Encode(ws[1..])
  }

  function Plain(ws: seq<Written>): (r: seq<Byte>)
    ensures |r| == |ws| && forall i :: 0 <= i < |ws| ==> r[i] == ws[i].c
  {
    seq(|ws|, i requires 0 <= i < |ws| => ws[i].c)
  }

  lemma FirstBack(w: Written, rest: seq<Byte>, kind: Kind)
    requires Sound(w) && !kind.redirect && (kind.uri ==> w.c != QUESTION)
    ensures First(Encode1(w) + rest, kind) == Piece([w.c], |Encode1(w)|, false)
  {
    var s := Encode1(w) + rest;
    assert w.form.Escaped? ==> s[1] == Encode1(w)[1] && s[2] == Encode1(w)[2];
  }

  // Whatever form each byte was written in, decoding gives the bytes back.
  lemma {:induction false} DecodeEncode(ws: seq<Written>, rest: seq<Byte>, kind: Kind)
    requires forall i {:trigger ws[i]} :: 0 <= i < |ws| ==> Sound(ws[i]) && (kind.uri ==> ws[i].c != QUESTION)
    requires !kind.redirect
    ensures var r := Decode(rest, kind);
      Decode(Encode(ws) + rest, kind) == Decoded(Plain(ws) + r.text, |Encode(ws)| + r.size)
    decreases |ws|
  {
    if ws == [] {
      assert Encode(ws) + rest == rest;
    } else {
      var a, b := Encode1(ws[0]), Encode(ws[1..]);
      Regroup(a, b, rest);
      assert (a + (b + rest))[|a|..] == b + rest;
      FirstBack(ws[0], b + rest, kind);
      DecodeEncode(ws[1..], rest, kind);
      DecodeFirst(a + (b + rest), kind);
      Regroup([ws[0].c], Plain(ws[1..]), Decode(rest, kind).text);
      assert Plain(ws) == [ws[0].c] + Plain(ws[1..]);
    }
  }

  lemma DecodeFirst(s: seq<Byte>, kind: Kind)
    requires s != [] && !First(s, kind).stop
    ensures var x := First(s, kind); var r := Decode(s[x.size..], kind);
      Decode(s, kind) == Decoded(x.text + r.text, x.size + r.size)
  {
  }

  // What becomes of the first byte or escape: x and y are the values of its digits.
  lemma DecodeIs(s: seq<Byte>, kind: Kind, x: nat, y: nat)
    requires s != []
    requires |s| > 2 && Hex(s[1]) && Hex(s[2]) ==> x == HexValue(s[1]) && y == HexValue(s[2])
    ensures s[0] == 63 && (kind.uri || kind.redirect) ==> Decode(s, kind) == Decoded([63], 1)
    ensures s[0] == 43 ==> var r := Decode(s[1..], kind); Decode(s, kind) == Decoded([32] + r.text, 1 + r.size)
    ensures (s[0] != 43 && s[0] != 37 && s[0] != 63) || (s[0] == 63 && !kind.uri && !kind.redirect) ==>
      var r := Decode(s[1..], kind); Decode(s, kind) == Decoded([s[0]] + r.text, 1 + r.size)
    ensures s[0] == 37 && !(|s| > 2 && Hex(s[1]) && Hex(s[2])) ==>
      var r := Decode(s[1..], kind); Decode(s, kind) == Decoded([37] + r.text, 1 + r.size)
    ensures s[0] == 37 && |s| > 2 && Hex(s[1]) && Hex(s[2]) ==>
      var v, r := x * 16 + y, Decode(s[3..], kind);
      if v == 63 && (kind.uri || kind.redirect) then Decode(s, kind) == Decoded([63], 3)
      else if kind.redirect && !(37 < v < 127) && (y < 10 || !kind.uri) then Decode(s, kind) == Decoded(s[..3] + r.text, 3 + r.size)
      else 0 <= v < 256 && Decode(s, kind) == Decoded([v] + r.text, 3 + r.size)
  {
    HexSecond(s);
  }

  // "3F" ends in a letter, so that its second digit decides.
  lemma HexSecond(s: seq<Byte>)
    ensures |s| > 2 && Hex(s[2]) ==> (LetterHex(s[2]) <==> HexValue(s[2]) >= 10)
  {
  }

  // The main result for type 0: every byte string survives, in every way of writing it.
  lemma RoundTrip(ws: seq<Written>)
    requires forall i {:trigger ws[i]} :: 0 <= i < |ws| ==> Sound(ws[i])
    ensures Decode(Encode(ws), Kind(false, false)) == Decoded(Plain(ws), |Encode(ws)|)
  {
    DecodeEncode(ws, [], Kind(false, false));
    assert Encode(ws) + [] == Encode(ws) && Plain(ws) + [] == Plain(ws);
  }

  // In a URI decoding stops behind the question mark.
  lemma StopsAtQuery(ws: seq<Written>, query: seq<Byte>)
    requires forall i {:trigger ws[i]} :: 0 <= i < |ws| ==> Sound(ws[i]) && ws[i].c != QUESTION
    ensures Decode(Encode(ws) + ([QUESTION] + query), Kind(true, false)) == Decoded(Plain(ws) + [QUESTION], |Encode(ws)| + 1)
  {
    DecodeEncode(ws, [QUESTION] + query, Kind(true, false));
  }

  // ----- The loop ---------------------------------------------------------------------

  datatype State = Usual | Quoted | QuotedSecond

  // Decoding goes on: `done` is written, i bytes are read, the rest is to come.
  function Resume(done: seq<Byte>, i: nat, rest: seq<Byte>, kind: Kind): Decoded
    decreases |rest|
  {
    if rest == [] then Decoded(done, i)
    else
      var x := First(rest, kind);
      if x.stop then Decoded(done + x.text, i + x.size) else Resume(done + x.text, i + x.size, rest[x.size..], kind)
  }

  lemma {:induction false} ResumeIsDecode(done: seq<Byte>, i: nat, rest: seq<Byte>, kind: Kind)
    ensures var r := Decode(rest, kind); Resume(done, i, rest, kind) == Decoded(done + r.text, i + r.size)
    decreases |rest|
  {
    if rest == [] {
      assert done + [] == done;
    } else {
      var x := First(rest, kind);
      if !x.stop {
        ResumeIsDecode(done + x.text, i + x.size, rest[x.size..], kind);
        Regroup(done, x.text, Decode(rest[x.size..], kind).text);
      }
    }
  }

  ghost predicate Going(all: Decoded, done: seq<Byte>, i: nat, rest: seq<Byte>, kind: Kind) {
    all == Resume(done, i, rest, kind)
  }

  lemma Taken(all: Decoded, done: seq<Byte>, i: nat, rest: seq<Byte>, kind: Kind)
    requires rest != [] && Going(all, done, i, rest, kind)
    ensures var x := First(rest, kind);
      if x.stop then all == Decoded(done + x.text, i + x.size) else Going(all, done + x.text, i + x.size, rest[x.size..], kind)
  {
  }

  predicate EscapeAt(s: seq<Byte>) {
    |s| > 2 && s[0] == PERCENT && Hex(s[1]) && Hex(s[2])
  }

  // Writing text that ends in front of s leaves the rest as it is.
  lemma Untouched(a: seq<Byte>, b: seq<Byte>, dst: nat, d0: nat, d: nat, s: nat, end: nat)
    requires |a| == |b| && dst <= d0 <= d <= s <= end <= |a|
    requires forall k {:trigger b[k]} :: 0 <= k < |b| && !(d0 <= k < d) ==> b[k] == a[k]
    ensures b[s..end] == a[s..end] && b[dst..d] == a[dst..d0] + b[d0..d]
  {
  }

  function Lag(state: State): nat {
    match state case Usual => 0 case Quoted => 1 case QuotedSecond => 2
  }

  // Between two turns of the loop: an escape that is under way counts as not yet read.
  ghost predicate Ready(b: array<Byte>, dst: nat, d: nat, src: nat, s: nat, end: nat, state: State, decoded: nat, all: Decoded, kind: Kind)
    reads b
  {
    var p := s - Lag(state);
    && dst <= d <= p && src <= p && s <= end <= b.Length && Going(all, b[dst..d], p - src, b[p..end], kind)
    && (state != Usual ==> EscapeAt(b[p..end]))
    && (state == QuotedSecond ==> decoded == HexValue(b[p..end][1]))
  }

  // The case sw_usual.
  method UsualByte(b: array<Byte>, ghost dst: nat, d0: nat, ghost src: nat, s: nat, end: nat, kind: Kind, ghost all: Decoded)
    returns (d: nat, state: State, done: bool)
    requires Ready(b, dst, d0, src, s, end, Usual, 0, all, kind) && s < end
    modifies b
    ensures d0 <= d <= s + 1 && forall k {:trigger b[k]} :: 0 <= k < b.Length && !(d0 <= k < d) ==> b[k] == old(b[k])
    ensures if done then all == Decoded(b[dst..d], s + 1 - src)
      else state != QuotedSecond && Ready(b, dst, d, src, s + 1, end, state, 0, all, kind)
  {
    var ch, size := b[s], end - s - 1;
    d, state, done := d0, Usual, false;
    if ch == QUESTION && (kind.uri || kind.redirect) {
      d := CopyByte(b, dst, d, src, s, end, ch, kind, all);
      done := true;
      return;
    }
    if ch == PERCENT && size > 1 {
      if Hex(b[s + 1]) && Hex(b[s + 2]) {
        state := Quoted;
        return;
      }
    }
    d := CopyByte(b, dst, d, src, s, end, if ch == PLUS then BLANK else ch, kind, all);
  }

  // A byte that is not the beginning of an escape.
  method CopyByte(b: array<Byte>, ghost dst: nat, d0: nat, ghost src: nat, ghost s: nat, ghost end: nat, c: Byte, ghost kind: Kind, ghost all: Decoded)
    returns (d: nat)
    requires Ready(b, dst, d0, src, s, end, Usual, 0, all, kind) && s < end && !EscapeAt(b[s..end])
    requires c == if b[s] == PLUS then BLANK else b[s]
    modifies b
    ensures d == d0 + 1 && forall k {:trigger b[k]} :: 0 <= k < b.Length && !(d0 <= k < d) ==> b[k] == old(b[k])
    ensures if old(b[s]) == QUESTION && (kind.uri || kind.redirect) then all == Decoded(b[dst..d], s + 1 - src)
      else Ready(b, dst, d, src, s + 1, end, Usual, 0, all, kind)
  {
    ghost var was := b[..];
    b[d0] := c;
    d := d0 + 1;
    WroteByte(all, was, b[..], dst, d0, src, s, end, kind);
  }

  lemma WroteByte(all: Decoded, was: seq<Byte>, now: seq<Byte>, dst: nat, d0: nat, src: nat, s: nat, end: nat, kind: Kind)
    requires dst <= d0 <= s < end <= |was| && src <= s && Going(all, was[dst..d0], s - src, was[s..end], kind)
    requires !EscapeAt(was[s..end]) && now == was[d0 := if was[s] == PLUS then BLANK else was[s]]
    ensures if was[s] == QUESTION && (kind.uri || kind.redirect) then all == Decoded(now[dst..d0 + 1], s + 1 - src)
            else Going(all, now[dst..d0 + 1], s + 1 - src, now[s + 1..end], kind)
  {
    var rest := was[s..end];
    Taken(all, was[dst..d0], s - src, rest, kind);
    assert now[dst..d0 + 1] == was[dst..d0] + [now[d0]] && now[s + 1..end] == rest[1..];
  }

  // The byte that an escape stands for, or the escape as it is; s is behind it.
  method PutEscape(b: array<Byte>, d0: nat, s: nat, letter: bool, ch: Byte, kind: Kind) returns (d: nat, done: bool)
    requires s <= b.Length && d0 + 3 <= s && b[s - 3] == PERCENT && Hex(b[s - 2]) && Hex(b[s - 1])
    requires letter == !Digit(b[s - 1]) && ch == HexValue(b[s - 2]) * 16 + HexValue(b[s - 1])
    modifies b
    ensures var x := Escape(old(b[s - 3..s]), kind);
      d0 <= d <= s && b[d0..d] == x.text && done == x.stop
    ensures forall k {:trigger b[k]} :: 0 <= k < b.Length && !(d0 <= k < d) ==> b[k] == old(b[k])
  {
    d, done := d0, false;
    if letter && kind.uri {
      b[d] := ch;
      return d + 1, ch == QUESTION;
    }
    if kind.redirect {
      if letter && ch == QUESTION {
        b[d] := ch;
        return d + 1, true;
      }
      if PERCENT < ch < 0x7f {
        b[d] := ch;
        return d + 1, false;
      }
      b[d] := PERCENT;
      b[d + 1] := b[s - 2];
      b[d + 2] := b[s - 1];
      return d + 3, false;
    }
    b[d] := ch;
    d := d + 1;
  }

  lemma EscapeTaken(all: Decoded, done: seq<Byte>, i: nat, rest: seq<Byte>, kind: Kind)
    requires EscapeAt(rest) && Going(all, done, i, rest, kind)
    ensures var x := Escape(rest[..3], kind);
      if x.stop then all == Decoded(done + x.text, i + 3) else Going(all, done + x.text, i + 3, rest[3..], kind)
  {
    Taken(all, done, i, rest, kind);
    assert rest[..3][..3] == rest[..3];
  }

  // The case sw_quoted_second; s is at the second digit.
  method SecondByte(b: array<Byte>, ghost dst: nat, d0: nat, ghost src: nat, s: nat, end: nat, decoded: nat, kind: Kind, ghost all: Decoded)
    returns (d: nat, done: bool)
    requires Ready(b, dst, d0, src, s, end, QuotedSecond, decoded, all, kind) && s < end
    modifies b
    ensures d0 <= d <= s + 1 && forall k {:trigger b[k]} :: 0 <= k < b.Length && !(d0 <= k < d) ==> b[k] == old(b[k])
    ensures if done then all == Decoded(b[dst..d], s + 1 - src) else Ready(b, dst, d, src, s + 1, end, Usual, 0, all, kind)
  {
    ghost var was, rest := b[..], b[s - 2..end];
    assert rest[0] == b[s - 2] && rest[1] == b[s - 1] && rest[2] == b[s];
    var ch := b[s];
    d, done := PutEscape(b, d0, s + 1, !Digit(ch), decoded * 16 + HexValue(ch), kind);
    WroteEscape(all, was, b[..], dst, d0, d, src, s, end, kind);
  }

  lemma WroteEscape(
    all: Decoded, was: seq<Byte>, now: seq<Byte>, dst: nat, d0: nat, d: nat, src: nat, s: nat, end: nat, kind: Kind)
    requires |was| == |now| && dst <= d0 <= d <= s + 1 <= end <= |was| && src + 2 <= s && d0 + 2 <= s
    requires EscapeAt(was[s - 2..end]) && Going(all, was[dst..d0], s - 2 - src, was[s - 2..end], kind)
    requires now[d0..d] == Escape(was[s - 2..s + 1], kind).text
    requires forall k {:trigger now[k]} :: 0 <= k < |now| && !(d0 <= k < d) ==> now[k] == was[k]
    ensures if Escape(was[s - 2..s + 1], kind).stop then all == Decoded(now[dst..d], s + 1 - src)
            else Going(all, now[dst..d], s + 1 - src, now[s + 1..end], kind)
  {
    var rest := was[s - 2..end];
    assert rest[..3] == was[s - 2..s + 1] && rest[3..] == was[s + 1..end];
    EscapeTaken(all, was[dst..d0], s - 2 - src, rest, kind);
    Untouched(was, now, dst, d0, d, s + 1, end);
  }

  // At the end no escape is under way.
  lemma Finished(
    b: array<Byte>, dst: nat, d: nat, src: nat, s: nat, end: nat, state: State, decoded: nat, done: bool, all: Decoded, kind: Kind)
    requires Reached(b, dst, d, src, s, end, state, decoded, done, all, kind) && (s == end || done)
    ensures dst <= d <= s <= end <= b.Length && src <= s && all == Decoded(b[dst..d], s - src)
  {
    if !done {
      assert |b[end - Lag(state)..end]| == Lag(state) <= 2;
    }
  }

  // Where the loop is: between two turns, or behind the byte that ends the decoding.
  ghost predicate Reached(
    b: array<Byte>, dst: nat, d: nat, src: nat, s: nat, end: nat, state: State, decoded: nat, done: bool, all: Decoded, kind: Kind)
    reads b
  {
    if done then dst <= d <= s <= end <= b.Length && src <= s && all == Decoded(b[dst..d], s - src)
    else Ready(b, dst, d, src, s, end, state, decoded, all, kind) && (state != QuotedSecond ==> decoded == 0)
  }

  // The case sw_quoted.
  method QuotedByte(ch: Byte) returns (decoded: nat)
    requires Hex(ch)
    ensures decoded == HexValue(ch)
  {
    if Digit(ch) {
      decoded := ch - '0' as int;
    } else {
      LetterBits(ch);
      decoded := Or20(ch) - 'a' as int + 10;
    }
  }

  // One turn of the loop.
  method Turn(b: array<Byte>, ghost dst: nat, d0: nat, ghost src: nat, s: nat, end: nat, state0: State, decoded0: nat, kind: Kind, ghost all: Decoded)
    returns (d: nat, state: State, decoded: nat, done: bool)
    requires Ready(b, dst, d0, src, s, end, state0, decoded0, all, kind) && s < end
    requires state0 != QuotedSecond ==> decoded0 == 0
    modifies b
    ensures d0 <= d <= s + 1 && forall k {:trigger b[k]} :: 0 <= k < b.Length && !(d0 <= k < d) ==> b[k] == old(b[k])
    ensures state != QuotedSecond ==> decoded == 0
    ensures if done then all == Decoded(b[dst..d], s + 1 - src)
      else Ready(b, dst, d, src, s + 1, end, state, decoded, all, kind)
  {
    d, state, decoded, done := d0, Usual, 0, false;
    match state0 {
      case Usual =>
        d, state, done := UsualByte(b, dst, d, src, s, end, kind, all);
      case Quoted =>
        QuotedReady(b, dst, d, src, s, end, all, kind);
        decoded := QuotedByte(b[s]);
        state := QuotedSecond;
      case QuotedSecond =>
        d, done := SecondByte(b, dst, d, src, s, end, decoded0, kind, all);
    }
  }

  lemma QuotedReady(b: array<Byte>, dst: nat, d: nat, src: nat, s: nat, end: nat, all: Decoded, kind: Kind)
    requires Ready(b, dst, d, src, s, end, Quoted, 0, all, kind) && s < end
    ensures Hex(b[s]) && Ready(b, dst, d, src, s + 1, end, QuotedSecond, HexValue(b[s]), all, kind)
  {
    assert b[s] == b[s - 1..end][1];
  }

  lemma Started(b: array<Byte>, dst: nat, src: nat, end: nat, all: Decoded, kind: Kind)
    requires dst <= src <= end <= b.Length && all == Decode(b[src..end], kind)
    ensures Ready(b, dst, dst, src, src, end, Usual, 0, all, kind)
  {
    ResumeIsDecode([], 0, b[src..end], kind);
    assert b[dst..dst] == [] && [] + all.text == all.text;
  }

  // Only dst up to d was written.
  ghost predicate KeptBut(was: seq<Byte>, now: seq<Byte>, dst: nat, d: nat) {
    |was| == |now| && forall k {:trigger now[k]} :: 0 <= k < |now| && !(dst <= k < d) ==> now[k] == was[k]
  }

  // The turn, in view of what was written before.
  method Onward(b: array<Byte>, ghost was: seq<Byte>, ghost dst: nat, d0: nat, ghost src: nat, s: nat, end: nat, state0: State, decoded0: nat, kind: Kind, ghost all: Decoded)
    returns (d: nat, state: State, decoded: nat, done: bool)
    requires Reached(b, dst, d0, src, s, end, state0, decoded0, false, all, kind) && s < end && KeptBut(was, b[..], dst, d0)
    modifies b
    ensures d0 <= d <= s + 1 && KeptBut(was, b[..], dst, d)
    ensures Reached(b, dst, d, src, s + 1, end, state, decoded, done, all, kind)
  {
    ghost var before := b[..];
    d, state, decoded, done := Turn(b, dst, d0, src, s, end, state0, decoded0, kind, all);
    assert forall k {:trigger b[k]} :: 0 <= k < b.Length && !(dst <= k < d) ==> b[k] == before[k];
  }

  // The loop, towards a result that is named beforehand.
  method Loop(b: array<Byte>, dst: nat, src: nat, end: nat, kind: Kind, ghost all: Decoded) returns (d: nat, s: nat)
    requires Ready(b, dst, dst, src, src, end, Usual, 0, all, kind)
    modifies b
    ensures dst <= d <= s <= end && src <= s && all == Decoded(b[dst..d], s - src)
    ensures forall k {:trigger b[k]} :: 0 <= k < b.Length && !(dst <= k < d) ==> b[k] == old(b[k])
  {
    d, s := dst, src;
    var state, decoded, done := Usual, 0, false;
    ghost var was := b[..];
    while s < end && !done
      invariant src <= s <= end && dst <= d <= s && KeptBut(was, b[..], dst, d)
      invariant Reached(b, dst, d, src, s, end, state, decoded, done, all, kind)
    {
      d, state, decoded, done := Onward(b, was, dst, d, src, s, end, state, decoded, kind, all);
      s := s + 1;
    }
    Finished(b, dst, d, src, s, end, state, decoded, done, all, kind);
  }

  method UnescapeTo(b: array<Byte>, dst: nat, src: nat, size: nat, kind: Kind, ghost all: Decoded) returns (d: nat, s: nat)
    requires dst <= src && src + size <= b.Length && all == Decode(b[src..src + size], kind)
    modifies b
    ensures d == dst + |all.text| && s == src + all.size && b[dst..d] == all.text && d - dst <= s - src
    ensures forall k {:trigger b[k]} :: 0 <= k < b.Length && !(dst <= k < d) ==> b[k] == old(b[k])
  {
    Started(b, dst, src, src + size, all, kind);
    d, s := Loop(b, dst, src, src + size, kind, all);
  }

  // Source and destination lie in the same buffer, the destination not behind the source;
  // they may be the same. Only what was read is written over.
  method UnescapeUri(b: array<Byte>, dst: nat, src: nat, size: nat, kind: Kind) returns (d: nat, s: nat)
    requires dst <= src && src + size <= b.Length
    modifies b
    ensures var r := Decode(old(b[src..src + size]), kind);
      && d == dst + |r.text| && s == src + r.size && b[dst..d] == r.text
    ensures d - dst <= s - src
    ensures forall k {:trigger b[k]} :: 0 <= k < b.Length && !(dst <= k < d) ==> b[k] == old(b[k])
  {
    d, s := UnescapeTo(b, dst, src, size, kind, Decode(b[src..src + size], kind));
  }
}
