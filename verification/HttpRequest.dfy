// The header loop of stu_http_request.c.
module HttpRequest {
  import opened Words
  import opened Bytes
  import opened Hash
  import opened HttpHeader

  // A header as it is pushed on the list.
  datatype Entry = Entry(key: seq<Byte>, value: seq<Byte>, hash: Word, lowcaseKey: seq<Byte>)

  datatype Result = Complete | Incomplete | BadRequest | Refused
  datatype Processed = Processed(result: Result, entries: seq<Entry>, last: nat)

  function EntryOf(key: seq<Byte>, value: seq<Byte>): Entry {
    Entry(key, value, Wrap(Poly(Lower(key))), Lower(key))
  }

  // The handlers of known headers: whether a header is accepted behind those pushed before it.
  type Accept = (seq<Entry>, Entry) -> bool

  // The loop over an unchanging buffer, when `before` was pushed already; `last` says nothing
  // on a bad request.
  function Entries(data: seq<Byte>, l: Line, p: nat, end: nat, accept: Accept, before: seq<Entry>): Processed
    requires p <= end <= |data| && Tracks(data, l, p, true)
    decreases end - p
  {
    RunTracks(data, l, p, end, true);
    match Run(data, l, p, end, true)
    case Again(_) => Processed(Incomplete, [], end)
    case Failed => Processed(BadRequest, [], 0)
    case HeaderDone(_, last) => Processed(Complete, [], last)
    case LineOk(n, last) =>
      if n.invalid then Processed(BadRequest, [], 0)
      else
        var e := EntryOf(data[n.nameStart..n.nameEnd], data[n.start..n.end]);
        if !accept(before, e) then Processed(Refused, [e], last)
        else
          var rest := Entries(data, n.(state := Start), last, end, accept, before + [e]);
          Processed(rest.result, [e] + rest.entries, rest.last)
  }

  // ----- Later lines do not see what is written into earlier ones ---------------------

  predicate SameFrom(a: seq<Byte>, b: seq<Byte>, base: nat) {
    |a| == |b| && forall k :: base <= k < |a| ==> a[k] == b[k]
  }

  // Where the part of the buffer begins that a line still depends on.
  function Base(l: Line, p: nat): nat {
    if l.state == Start then p else l.nameStart
  }

  lemma {:induction false} RunSame(a: seq<Byte>, b: seq<Byte>, l: Line, p: nat, end: nat, allow: bool)
    requires p <= end <= |a| && Valid(l, p) && SameFrom(a, b, Base(l, p))
    ensures Run(a, l, p, end, allow) == Run(b, l, p, end, allow)
    decreases end - p
  {
    if p < end {
      if l.state == Name {
        assert a[l.nameStart..p] == b[l.nameStart..p];
      }
      assert Step(a, l, p, allow) == Step(b, l, p, allow);
      var m := Step(a, l, p, allow);
      if m.Go? {
        RunSame(a, b, m.l, p + 1, end, allow);
      }
    }
  }

  lemma TracksSame(a: seq<Byte>, b: seq<Byte>, l: Line, p: nat)
    requires p <= |a| && SameFrom(a, b, Base(l, p)) && Tracks(a, l, p, true)
    ensures Tracks(b, l, p, true)
  {
    if l.state == Name {
      assert a[l.nameStart..p] == b[l.nameStart..p];
    } else if Ordered(l, p) && l.state != Start && l.state != IgnoreLine && l.state != HeaderAlmostDone {
      assert a[l.nameStart..l.nameEnd] == b[l.nameStart..l.nameEnd];
    }
  }

  // The slices of a run begin no earlier than the line.
  lemma {:induction false} RunBase(data: seq<Byte>, l: Line, p: nat, end: nat, allow: bool)
    requires p <= end <= |data| && Valid(l, p)
    ensures match Run(data, l, p, end, allow)
      case LineOk(n, _) => Base(l, p) <= n.nameStart
      case Again(n) => Base(l, p) <= Base(n, end)
      case _ => true
    decreases end - p
  {
    if p < end {
      var m := Step(data, l, p, allow);
      if m.Go? {
        RunBase(data, m.l, p + 1, end, allow);
      }
    }
  }

  // ----- The loop on a buffer that it writes to ---------------------------------------

  // A pushed header: where key and value lie in the buffer.
  datatype Elt = Elt(key: nat, keyLen: nat, value: nat, valueLen: nat, hash: Word, lowcaseKey: seq<Byte>)

  // What an element shows in a buffer: both strings in place and ended by a NUL.
  ghost predicate Shows(b: seq<Byte>, x: Elt, e: Entry) {
    && x.key + x.keyLen < |b| && x.value + x.valueLen < |b|
    && b[x.key..x.key + x.keyLen] == e.key && b[x.key + x.keyLen] == 0
    && b[x.value..x.value + x.valueLen] == e.value && b[x.value + x.valueLen] == 0
    && x.hash == e.hash && x.lowcaseKey == e.lowcaseKey
  }

  // Elements whose strings lie in front of a position.
  ghost predicate Before(x: Elt, p: nat) {
    x.key + x.keyLen < p && x.value + x.valueLen < p
  }

  ghost predicate AllShown(b: seq<Byte>, xs: seq<Elt>, es: seq<Entry>, p: nat) {
    |xs| == |es| && forall k {:trigger xs[k]} :: 0 <= k < |xs| ==> Before(xs[k], p) && Shows(b, xs[k], es[k])
  }

  // Lines 385-405: one accepted line becomes an element.
  method Push(r: Request, b: array<Byte>, last: nat) returns (x: Elt)
    requires last <= b.Length && b != r.lowcaseHeader && !r.invalidHeader && Accepted(b[..], r.Held(), last, true)
    modifies b
    ensures var n := old(r.Held());
      && Shows(b[..], x, EntryOf(old(b[n.nameStart..n.nameEnd]), old(b[n.start..n.end])))
      && Before(x, last) && x.key == n.nameStart && x.value == n.start
      && b[x.key..x.key + x.keyLen] == old(b[n.nameStart..n.nameEnd]) && b[n.nameEnd] == 0
      && b[x.value..x.value + x.valueLen] == old(b[n.start..n.end]) && b[n.end] == 0
      && (forall k :: 0 <= k < b.Length && k != n.nameEnd && k != n.end ==> b[k] == old(b[k]))
  {
    var key, keyLen := r.headerNameStart, r.headerNameEnd - r.headerNameStart;
    var value, valueLen := r.headerStart, r.headerEnd - r.headerStart;
    ghost var name := b[key..key + keyLen];
    b[key + keyLen] := 0;
    b[value + valueLen] := 0;
    assert b[key..key + keyLen] == name;
    var lowcaseKey;
    if keyLen == r.lowcaseIndex {
      lowcaseKey := r.lowcaseHeader[..keyLen];
    } else {
      lowcaseKey := Lower(b[key..key + keyLen]);
    }
    x := Elt(key, keyLen, value, valueLen, r.headerHash, lowcaseKey);
  }

  // One turn of the loop, on a buffer of which the part from the line on is still `data`.
  method NextHeader(r: Request, b: array<Byte>, p: nat, end: nat, ghost data: seq<Byte>)
    returns (rc: Rc, next: nat, x: Elt, e: Entry)
    requires p <= end <= b.Length && b != r.lowcaseHeader && |data| == b.Length
    requires Tracks(data, r.Held(), p, true) && SameFrom(data, b[..], Base(r.Held(), p))
    modifies r, r.lowcaseHeader, b
    ensures forall k :: 0 <= k < Base(old(r.Held()), p) ==> b[k] == old(b[k])
    ensures match Run(data, old(r.Held()), p, end, true)
      case Again(n) => rc == AGAIN && next == end && r.Held() == n && b[..] == old(b[..])
      case Failed => rc == ERROR
      case HeaderDone(_, last) => rc == DONE && next == last && b[..] == old(b[..])
      case LineOk(n, last) =>
        && rc == OK && next == last && r.Held() == n.(state := Start)
        && (!n.invalid ==>
              && Base(old(r.Held()), p) <= n.nameStart && n.nameStart <= n.nameEnd <= n.start <= n.end <= |data|
              && e == EntryOf(data[n.nameStart..n.nameEnd], data[n.start..n.end])
              && Shows(b[..], x, e) && Before(x, last) && SameFrom(data, b[..], last))
  {
    x, e := Elt(0, 0, 0, 0, 0, []), Entry([], [], 0, []);
    LineFacts(data, b[..], r.Held(), p, end);
    rc, next := r.ParseHeaderLine(b, p, end, true);
    if rc == OK && !r.invalidHeader {
      x := Push(r, b, next);
      e := Entry(b[x.key..x.key + x.keyLen], b[x.value..x.value + x.valueLen], x.hash, x.lowcaseKey);
    }
  }

  // What is read does not depend on the bytes that were overwritten.
  lemma LineFacts(data: seq<Byte>, now: seq<Byte>, l: Line, p: nat, end: nat)
    requires p <= end <= |data| && Tracks(data, l, p, true) && SameFrom(data, now, Base(l, p))
    ensures Tracks(now, l, p, true) && Run(now, l, p, end, true) == Run(data, l, p, end, true)
    ensures var o := Run(data, l, p, end, true); o.LineOk? ==> SameLine(data, now, o.l, o.last, Base(l, p))
  {
    RunSame(data, now, l, p, end, true);
    RunBase(data, l, p, end, true);
    TracksSame(data, now, l, p);
    RunTracks(now, l, p, end, true);
  }

  predicate SameLine(data: seq<Byte>, now: seq<Byte>, n: Line, last: nat, base: nat) {
    && last <= |data| == |now| && base <= n.nameStart && Accepted(now, n, last, true)
    && data[n.nameStart..n.nameEnd] == now[n.nameStart..n.nameEnd] && data[n.start..n.end] == now[n.start..n.end]
  }

  lemma AllShownKept(a: seq<Byte>, b: seq<Byte>, xs: seq<Elt>, es: seq<Entry>, p: nat, q: nat)
    requires AllShown(a, xs, es, p) && |a| == |b| && p <= |a| && p <= q && forall k :: 0 <= k < p ==> a[k] == b[k]
    ensures AllShown(b, xs, es, q)
  {
    forall k | 0 <= k < |xs| ensures Before(xs[k], q) && Shows(b, xs[k], es[k]) {
      var x := xs[k];
      assert Before(x, p) && Shows(a, x, es[k]);
      assert b[x.key..x.key + x.keyLen] == a[x.key..x.key + x.keyLen];
      assert b[x.value..x.value + x.valueLen] == a[x.value..x.value + x.valueLen];
    }
  }

  // The state of the loop: what is done, and what the original buffer still holds.
  ghost predicate Going(r: Request, b: array<Byte>, last: nat, end: nat, data: seq<Byte>, xs: seq<Elt>, es: seq<Entry>)
    reads r, r.lowcaseHeader, b
  {
    && last <= end <= b.Length && b != r.lowcaseHeader && |data| == b.Length && Tracks(data, r.Held(), last, true)
    && Base(r.Held(), last) <= last
    && SameFrom(data, b[..], Base(r.Held(), last)) && AllShown(b[..], xs, es, Base(r.Held(), last))
  }

  method OneTurn(r: Request, b: array<Byte>, last: nat, end: nat, accept: Accept, xs: seq<Elt>, es: seq<Entry>, ghost data: seq<Byte>)
    returns (more: bool, result: Result, xs2: seq<Elt>, es2: seq<Entry>, next: nat)
    requires Going(r, b, last, end, data, xs, es)
    modifies r, r.lowcaseHeader, b
    ensures var o := Entries(data, old(r.Held()), last, end, accept, es);
      if more then
        && last < next && Going(r, b, next, end, data, xs2, es2)
        && var n := Entries(data, r.Held(), next, end, accept, es2); Processed(o.result, es + o.entries, o.last) == Processed(n.result, es2 + n.entries, n.last)
      else
        && result == o.result && (result != BadRequest ==> next == o.last) && AllShown(b[..], xs2, es + o.entries, end)
        && (result == Incomplete ==> next <= |data| && Tracks(data, r.Held(), next, true) && SameFrom(data, b[..], Base(r.Held(), next)))
        && (result == Complete ==> SameFrom(data, b[..], next))
  {
    ghost var was, l := b[..], r.Held();
    RunTracks(data, l, last, end, true);
    RunBase(data, l, last, end, true);
    var rc, n, x, e := NextHeader(r, b, last, end, data);
    AllShownKept(was, b[..], xs, es, Base(l, last), end);
    more, xs2, es2, next := false, xs, es, n;
    match rc {
      case AGAIN => result := Incomplete;
      case DONE => result := Complete;
      case ERROR => result := BadRequest;
      case OK =>
        if r.invalidHeader {
          result := BadRequest;
          return;
        }
        AllShownKept(was, b[..], xs, es, Base(l, last), n);
        result, xs2, es2 := Refused, xs + [x], es + [e];
        more := accept(es, e);
        if more {
          Regroup(es, [e], Entries(data, r.Held(), n, end, accept, es2).entries);
        }
    }
  }

  // The loop. Every pushed element shows its header in the final buffer, although the loop
  // wrote into it.
  method ProcessHeaders(r: Request, b: array<Byte>, last0: nat, end: nat, accept: Accept)
    returns (result: Result, xs: seq<Elt>, last: nat)
    requires last0 <= end <= b.Length && b != r.lowcaseHeader && Tracks(b[..], r.Held(), last0, true)
    modifies r, r.lowcaseHeader, b
    ensures var o := Entries(old(b[..]), old(r.Held()), last0, end, accept, []);
      result == o.result && (result != BadRequest ==> last == o.last) && AllShown(b[..], xs, o.entries, end)
    ensures result == Incomplete ==> last <= b.Length && Tracks(b[..], r.Held(), last, true)
    ensures result == Incomplete ==> SameFrom(old(b[..]), b[..], Base(r.Held(), last))
    ensures result == Complete ==> SameFrom(old(b[..]), b[..], last)
    ensures var es := Entries(old(b[..]), old(r.Held()), last0, end, accept, []).entries;
      |xs| == |es| && forall k {:trigger xs[k]} :: 0 <= k < |xs| ==>
        && xs[k].key + xs[k].keyLen < b.Length && xs[k].value + xs[k].valueLen < b.Length
        && b[xs[k].key..xs[k].key + xs[k].keyLen] == es[k].key && b[xs[k].key + xs[k].keyLen] == 0
        && b[xs[k].value..xs[k].value + xs[k].valueLen] == es[k].value && b[xs[k].value + xs[k].valueLen] == 0
        && xs[k].hash == es[k].hash && xs[k].lowcaseKey == es[k].lowcaseKey
  {
    ghost var data := b[..];
    ghost var all := Entries(data, r.Held(), last0, end, accept, []);
    xs, last, result := [], last0, Incomplete;
    var es := [];
    var more := true;
    while more
      invariant more ==> Going(r, b, last, end, data, xs, es)
      invariant more ==> var o := Entries(data, r.Held(), last, end, accept, es); all == Processed(o.result, es + o.entries, o.last)
      invariant !more ==> result == all.result && (result != BadRequest ==> last == all.last) && AllShown(b[..], xs, all.entries, end)
      invariant !more && result == Incomplete ==>
        last <= |data| && Tracks(data, r.Held(), last, true) && SameFrom(data, b[..], Base(r.Held(), last))
      invariant !more && result == Complete ==> SameFrom(data, b[..], last)
      decreases more, end - last
    {
      more, result, xs, es, last := OneTurn(r, b, last, end, accept, xs, es, data);
    }
    if result == Incomplete {
      TracksSame(data, b[..], r.Held(), last);
    }
  }

  // ----- Headers as they are sent -----------------------------------------------------

  // The first line at p, byte by byte as in HttpHeader.LineIs: a name with a byte that is no
  // letter, digit, hyphen or underscore is refused.
  lemma OddLineIs(
    data: seq<Byte>, l: Line, p: nat, q: nat, v: nat, w: nat, e: nat, n: nat, end: nat, accept: Accept, before: seq<Entry>, x: nat)
    requires p < q < v <= w <= e < n <= end <= |data| && Tracks(data, l, p, true) && l.state == Start
    requires forall j :: p <= j < q ==> data[j] != 0 && data[j] != 10 && data[j] != 13 && (p < j ==> data[j] != 58)
    requires p + 4 < q ==> !(data[p..p + 4] == [72, 84, 84, 80] && data[p + 4] == 47)
    requires data[q] == 58 && (forall j :: q < j < v ==> data[j] == 32) && (forall j :: w <= j < e ==> data[j] == 32)
    requires forall j :: v <= j < w ==> data[j] != 0 && data[j] != 10 && data[j] != 13
    requires if v == w then w == e else data[v] != 32 && data[w - 1] != 32
    requires (forall j :: e <= j < n - 1 ==> data[j] == 13) && data[n - 1] == 10
    requires p <= x < q
    requires !(48 <= data[x] <= 57 || 65 <= data[x] <= 90 || 97 <= data[x] <= 122 || data[x] == 45 || data[x] == 95)
    ensures var r := Entries(data, l, p, end, accept, before); r.result == BadRequest && r.entries == []
  {
    LineIs(data, l, p, q, v, w, e, n, end, true);
  }

  // Any other line, if it is wanted, gives the first header, and the rest is read behind it.
  lemma FirstLineIs(
    data: seq<Byte>, l: Line, p: nat, q: nat, v: nat, w: nat, e: nat, n: nat, end: nat, accept: Accept, before: seq<Entry>)
    returns (x: Entry, m: Line)
    requires p < q < v <= w <= e < n <= end <= |data| && Tracks(data, l, p, true) && l.state == Start
    requires forall j :: p <= j < q ==> data[j] != 0 && data[j] != 10 && data[j] != 13 && (p < j ==> data[j] != 58)
    requires p + 4 < q ==> !(data[p..p + 4] == [72, 84, 84, 80] && data[p + 4] == 47)
    requires data[q] == 58 && (forall j :: q < j < v ==> data[j] == 32) && (forall j :: w <= j < e ==> data[j] == 32)
    requires forall j :: v <= j < w ==> data[j] != 0 && data[j] != 10 && data[j] != 13
    requires if v == w then w == e else data[v] != 32 && data[w - 1] != 32
    requires (forall j :: e <= j < n - 1 ==> data[j] == 13) && data[n - 1] == 10
    requires forall j :: p <= j < q ==>
      48 <= data[j] <= 57 || 65 <= data[j] <= 90 || 97 <= data[j] <= 122 || data[j] == 45 || data[j] == 95
    ensures x.key == data[p..q] && x.value == data[v..w] && x.hash == Wrap(Poly(x.lowcaseKey)) && |x.lowcaseKey| == q - p
    ensures forall j :: p <= j < q ==> x.lowcaseKey[j - p] == if 65 <= data[j] <= 90 then data[j] + 32 else data[j]
    ensures Tracks(data, m, n, true) && m.state == Start
    ensures var r := Entries(data, l, p, end, accept, before);
      if !accept(before, x) then r.result == Refused && r.entries == [x]
      else
        var rest := Entries(data, m, n, end, accept, before + [x]);
        r.result == rest.result && r.entries == [x] + rest.entries && r.last == rest.last
  {
    LineIs(data, l, p, q, v, w, e, n, end, true);
    x := EntryOf(data[p..q], data[v..w]);
    m := Run(data, l, p, end, true).l.(state := Start);
  }

  function Texts(hs: seq<Header>): seq<Byte> {
    if hs == [] then [CR, LF] else Text(hs[0]) + Texts(hs[1..])
  }

  function EntriesOf(hs: seq<Header>): (es: seq<Entry>)
    ensures |es| == |hs| && forall k :: 0 <= k < |hs| ==> es[k] == EntryOf(hs[k].name, hs[k].value)
  {
    seq(|hs|, k requires 0 <= k < |hs| => EntryOf(hs[k].name, hs[k].value))
  }

  // Headers that can be sent and are accepted one after the other.
  predicate Welcome(hs: seq<Header>, accept: Accept, before: seq<Entry>) {
    hs == [] ||
    (Sendable(hs[0], true) &&
     var e := EntryOf(hs[0].name, hs[0].value); accept(before, e) && Welcome(hs[1..], accept, before + [e]))
  }

  // The main result: a block of headers is read back as the list it was written from.
  lemma {:induction false} HeadersBack(
    data: seq<Byte>, l: Line, p: nat, end: nat, hs: seq<Header>, accept: Accept, before: seq<Entry>)
    requires p <= |data| && Tracks(data, l, p, true) && l.state == Start && Welcome(hs, accept, before)
    requires Starts(data, p, Texts(hs)) && p + |Texts(hs)| <= end <= |data|
    ensures Entries(data, l, p, end, accept, before) == Processed(Complete, EntriesOf(hs), p + |Texts(hs)|)
    decreases |hs|
  {
    if hs == [] {
      assert data[p + 0] == [CR, LF][0] && data[p + 1] == [CR, LF][1];
      var n := l.(nameStart := p, invalid := false, end := p, state := HeaderAlmostDone);
      assert Run(data, l, p, end, true) == Run(data, n, p + 1, end, true);
    } else {
      StartsSplit(data, p, Text(hs[0]), Texts(hs[1..]));
      var e := EntryOf(hs[0].name, hs[0].value);
      var last := p + |Text(hs[0])|;
      var n := LineTaken(data, l, p, end, hs[0], last, accept, before);
      HeadersBack(data, n, last, end, hs[1..], accept, before + [e]);
      assert EntriesOf(hs) == [e] + EntriesOf(hs[1..]);
    }
  }

  // ----- Headers that do not come whole -----------------------------------------------

  // Where the loop stops for want of input: in what state of the line.
  function Stop(data: seq<Byte>, l: Line, p: nat, end: nat, accept: Accept, before: seq<Entry>): Line
    requires p <= end <= |data| && Tracks(data, l, p, true)
    decreases end - p
  {
    RunTracks(data, l, p, end, true);
    match Run(data, l, p, end, true)
    case Again(n) => n
    case LineOk(n, last) =>
      var e := EntryOf(data[n.nameStart..n.nameEnd], data[n.start..n.end]);
      if !n.invalid && accept(before, e) then Stop(data, n.(state := Start), last, end, accept, before + [e]) else l
    case _ => l
  }

  // It stops for want of input, and not within a line that is ignored.
  predicate Waits(data: seq<Byte>, l: Line, p: nat, end: nat, accept: Accept, before: seq<Entry>)
    requires p <= end <= |data| && Tracks(data, l, p, true)
  {
    Entries(data, l, p, end, accept, before).result == Incomplete && Stop(data, l, p, end, accept, before).state != IgnoreLine
  }

  // What was received ends at mid; up to `end` the buffer holds zeros.
  predicate ZeroFrom(data: seq<Byte>, mid: nat, end: nat) {
    mid <= end <= |data| && forall k :: mid <= k < end ==> data[k] == 0
  }

  lemma {:induction false} RunZeros(data: seq<Byte>, l: Line, p: nat, end: nat)
    requires p < end && ZeroFrom(data, p, end) && Valid(l, p)
    ensures Run(data, l, p, end, true) == if l.state == IgnoreLine then Again(l) else Failed
    decreases end - p
  {
    if l.state == IgnoreLine && p + 1 < end {
      RunZeros(data, l, p + 1, end);
    }
  }

  // The parser does not stop where the received bytes stop but at the end of the buffer, which
  // was filled with zeros: a block that did not come whole is refused, unless it breaks off
  // within a line that is ignored.
  lemma {:induction false} ShortIsRefused(
    data: seq<Byte>, l: Line, p: nat, mid: nat, end: nat, accept: Accept, before: seq<Entry>)
    requires p <= mid < end && ZeroFrom(data, mid, end) && Tracks(data, l, p, true)
    ensures var a, o := Entries(data, l, p, mid, accept, before), Entries(data, l, p, end, accept, before);
      if a.result != Incomplete then o == a
      else
        && o.entries == a.entries
        && o.result == if Stop(data, l, p, mid, accept, before).state == IgnoreLine then Incomplete else BadRequest
    decreases mid - p
  {
    RunTracks(data, l, p, mid, true);
    RunSplit(data, l, p, mid, end, true);
    match Run(data, l, p, mid, true)
    case Again(n) => RunZeros(data, n, mid, end);
    case LineOk(n, last) =>
      var e := EntryOf(data[n.nameStart..n.nameEnd], data[n.start..n.end]);
      if !n.invalid && accept(before, e) {
        ShortIsRefused(data, n.(state := Start), last, mid, end, accept, before + [e]);
      }
    case _ =>
  }

  // A line that follows an ignored one starts behind it.
  lemma {:induction false} IgnoredIsPassed(data: seq<Byte>, l: Line, p: nat, end: nat)
    requires p <= end <= |data| && Valid(l, p) && l.state == IgnoreLine && Run(data, l, p, end, true).LineOk?
    ensures p < Run(data, l, p, end, true).l.nameStart
    decreases end - p
  {
    var m := Step(data, l, p, true);
    if m.l.state == IgnoreLine {
      IgnoredIsPassed(data, m.l, p + 1, end);
    } else {
      RunBase(data, m.l, p + 1, end, true);
    }
  }

  // Within a sent line the machine waits, and never for the end of an ignored line.
  lemma CutLine(data: seq<Byte>, l: Line, p: nat, mid: nat, h: Header)
    requires p <= mid <= |data| && Tracks(data, l, p, true) && l.state == Start && Sendable(h, true)
    requires mid < p + |Text(h)| && Starts(data, p, Text(h)[..mid - p])
    ensures var o := Run(data, l, p, mid, true); o.Again? && o.l.state != IgnoreLine
  {
    var full := data[..mid] + Text(h)[mid - p..];
    forall k | 0 <= k < |Text(h)| ensures full[p + k] == Text(h)[k] {
      if p + k < mid {
        assert data[p + k] == Text(h)[..mid - p][k];
      }
    }
    LineBack(full, l, p, |full|, h, true);
    RunSplit(full, l, p, mid, |full|, true);
    RunTracks(full, l, p, mid, true);
    assert full[..mid] == data[..mid];
    RunPrefix(full, l, p, mid, true);
    RunPrefix(data, l, p, mid, true);
    var n := Run(full, l, p, mid, true).l;
    if n.state == IgnoreLine {
      IgnoredIsPassed(full, n, mid, |full|);
    }
  }

  lemma CutFront(data: seq<Byte>, p: nat, mid: nat, a: seq<Byte>, b: seq<Byte>)
    requires p <= mid <= p + |a| && Starts(data, p, (a + b)[..mid - p])
    ensures Starts(data, p, a[..mid - p])
  {
    assert (a + b)[..mid - p] == a[..mid - p];
  }

  lemma CutPieces(data: seq<Byte>, p: nat, mid: nat, a: seq<Byte>, b: seq<Byte>) returns (q: nat)
    requires p + |a| <= mid < p + |a + b| && Starts(data, p, (a + b)[..mid - p])
    ensures q == p + |a| && q <= mid < q + |b|
    ensures Starts(data, p, a) && Starts(data, q, b[..mid - q])
  {
    q := p + |a|;
    assert (a + b)[..mid - p] == a + b[..mid - p - |a|];
    StartsSplit(data, p, a, b[..mid - p - |a|]);
  }

  lemma {:induction false} CutBlock(
    data: seq<Byte>, l: Line, p: nat, mid: nat, hs: seq<Header>, accept: Accept, before: seq<Entry>)
    requires p <= mid <= |data| && Tracks(data, l, p, true) && l.state == Start && Welcome(hs, accept, before)
    requires mid < p + |Texts(hs)| && Starts(data, p, Texts(hs)[..mid - p])
    ensures Waits(data, l, p, mid, accept, before)
    decreases |hs|
  {
    if hs == [] {
      CutEnd(data, l, p, mid);
    } else if mid < p + |Text(hs[0])| {
      CutFront(data, p, mid, Text(hs[0]), Texts(hs[1..]));
      CutLine(data, l, p, mid, hs[0]);
      assert Waits(data, l, p, mid, accept, before);
    } else {
      var last := CutPieces(data, p, mid, Text(hs[0]), Texts(hs[1..]));
      var n := LineTaken(data, l, p, mid, hs[0], last, accept, before);
      CutBlock(data, n, last, mid, hs[1..], accept, before + [EntryOf(hs[0].name, hs[0].value)]);
    }
  }

  // Within the end of a block.
  lemma CutEnd(data: seq<Byte>, l: Line, p: nat, mid: nat)
    requires p <= mid <= |data| && Tracks(data, l, p, true) && l.state == Start
    requires mid < p + 2 && Starts(data, p, [CR, LF][..mid - p])
    ensures var o := Run(data, l, p, mid, true); o.Again? && o.l.state != IgnoreLine
  {
    if mid == p + 1 {
      assert data[p + 0] == [CR, LF][..1][0];
      var n := l.(nameStart := p, invalid := false, end := p, state := HeaderAlmostDone);
      assert Run(data, l, p, mid, true) == Run(data, n, p + 1, mid, true);
    }
  }

  // A whole line in front: the loop goes on behind it.
  lemma LineTaken(
    data: seq<Byte>, l: Line, p: nat, end: nat, h: Header, last: nat, accept: Accept, before: seq<Entry>)
    returns (n: Line)
    requires p <= end <= |data| && Tracks(data, l, p, true) && l.state == Start && Sendable(h, true)
    requires Starts(data, p, Text(h)) && last == p + |Text(h)| <= end && accept(before, EntryOf(h.name, h.value))
    ensures n.state == Start && Tracks(data, n, last, true)
    ensures var e := EntryOf(h.name, h.value);
      var rest := Entries(data, n, last, end, accept, before + [e]);
      && Entries(data, l, p, end, accept, before) == Processed(rest.result, [e] + rest.entries, rest.last)
      && Stop(data, l, p, end, accept, before) == Stop(data, n, last, end, accept, before + [e])
      && (Waits(data, n, last, end, accept, before + [e]) ==> Waits(data, l, p, end, accept, before))
  {
    LineBack(data, l, p, end, h, true);
    RunTracks(data, l, p, end, true);
    var o := Run(data, l, p, end, true);
    n := o.l.(state := Start);
  }

  // A block of headers of which the first bytes were received is read if all of it was, and
  // else refused.
  lemma WholeOrRefused(data: seq<Byte>, l: Line, p: nat, mid: nat, end: nat, hs: seq<Header>, accept: Accept)
    requires p <= mid < end && ZeroFrom(data, mid, end) && Tracks(data, l, p, true) && l.state == Start
    requires Welcome(hs, accept, []) && mid <= p + |Texts(hs)| && Starts(data, p, Texts(hs)[..mid - p])
    ensures var o := Entries(data, l, p, end, accept, []);
      if mid == p + |Texts(hs)| then o == Processed(Complete, EntriesOf(hs), mid) else o.result == BadRequest
  {
    if mid == p + |Texts(hs)| {
      assert Texts(hs)[..mid - p] == Texts(hs);
      HeadersBack(data, l, p, end, hs, accept, []);
    } else {
      CutBlock(data, l, p, mid, hs, accept, []);
      ShortIsRefused(data, l, p, mid, end, accept, []);
    }
  }
}
