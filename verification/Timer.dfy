// Event timers over the red-black tree: stu_timer.c.
//
// The abstract value of the tree is a queue of entries in deadline order, equal deadlines
// in the order in which they were armed. Deadlines are unbounded integers; the program's
// 64-bit keys are their residues, and `base` witnesses that all live deadlines, the
// deadlines being armed and the current time lie within less than 2^63 of each other.
module Timer {
  import opened Words
  import opened RbTree
  import opened Bytes

  const LAZY_DELAY := 300
  const INFINITE: Word := 0xFFFF_FFFF_FFFF_FFFF

  // ----- Queues of deadlines ----------------------------------------------------------

  datatype Entry = Entry(node: Node, due: int)

  // Stable insertion: after every entry that is not later.
  ghost function Place(q: seq<Entry>, e: Entry): seq<Entry> {
    if q == [] || e.due < q[0].due then [e] + q else [q[0]] + Place(q[1..], e)
  }

  ghost function PlaceAll(q: seq<Entry>, es: seq<Entry>): seq<Entry> {
    if es == [] then q else Place(PlaceAll(q, es[..|es| - 1]), es[|es| - 1])
  }

  ghost predicate Ordered(q: seq<Entry>) {
    forall i, j :: 0 <= i < j < |q| ==> q[i].due <= q[j].due
  }

  // The number of leading entries that are due.
  ghost function DueCount(q: seq<Entry>, now: int): (k: nat)
    ensures k <= |q|
  {
    if q == [] || q[0].due > now then 0 else 1 + DueCount(q[1..], now)
  }

  lemma {:induction false} PlaceAt(q: seq<Entry>, e: Entry, p: nat)
    requires p <= |q| && (forall i :: 0 <= i < p ==> q[i].due <= e.due)
    requires p < |q| ==> e.due < q[p].due
    ensures Place(q, e) == q[..p] + [e] + q[p..]
  {
    if p > 0 {
      PlaceAt(q[1..], e, p - 1);
      assert q[1..][..p - 1] == q[1..p] && q[1..][p - 1..] == q[p..];
      assert q[..p] == [q[0]] + q[1..p];
    }
  }

  // In an ordered queue the due entries are exactly the counted prefix.
  lemma {:induction false} DueIsPrefix(q: seq<Entry>, now: int)
    requires Ordered(q)
    ensures forall i :: 0 <= i < |q| ==> (q[i].due <= now <==> i < DueCount(q, now))
  {
    if q != [] && q[0].due <= now {
      DueIsPrefix(q[1..], now);
      forall i | 0 <= i < |q| ensures q[i].due <= now <==> i < DueCount(q, now) {
        if i > 0 {
          assert q[i] == q[1..][i - 1];
        }
      }
    }
  }

  // Entries not earlier than the head never overtake it.
  lemma {:induction false} PlaceAllKeepsHead(q: seq<Entry>, es: seq<Entry>)
    requires q != [] && (forall i :: 0 <= i < |es| ==> q[0].due <= es[i].due)
    ensures PlaceAll(q, es) == [q[0]] + PlaceAll(q[1..], es)
  {
    if es != [] {
      PlaceAllKeepsHead(q, es[..|es| - 1]);
      assert ([q[0]] + PlaceAll(q[1..], es[..|es| - 1]))[1..] == PlaceAll(q[1..], es[..|es| - 1]);
    }
  }

  // What has been placed is there, in order, and nothing else is.
  lemma {:induction false} PlaceHolds(q: seq<Entry>, e: Entry)
    ensures multiset(Place(q, e)) == multiset(q) + multiset{e}
    ensures Ordered(q) ==> Ordered(Place(q, e))
  {
    if q != [] && e.due >= q[0].due {
      PlaceHolds(q[1..], e);
      assert q == [q[0]] + q[1..];
      if Ordered(q) {
        forall i | 0 <= i < |Place(q[1..], e)| ensures q[0].due <= Place(q[1..], e)[i].due {
          assert Place(q[1..], e)[i] in multiset(Place(q[1..], e));
        }
      }
    }
  }

  lemma {:induction false} PlaceAllHolds(q: seq<Entry>, es: seq<Entry>)
    ensures multiset(PlaceAll(q, es)) == multiset(q) + multiset(es)
    ensures Ordered(q) ==> Ordered(PlaceAll(q, es))
  {
    if es != [] {
      var i := |es| - 1;
      PlaceAllHolds(q, es[..i]);
      PlaceHolds(PlaceAll(q, es[..i]), es[i]);
      assert es == es[..i] + [es[i]];
    }
  }

  ghost predicate AllLater(q: seq<Entry>, now: int) {
    forall i :: 0 <= i < |q| ==> now < q[i].due
  }

  lemma {:induction false} PlaceLater(q: seq<Entry>, e: Entry, now: int)
    requires AllLater(q, now) && now < e.due
    ensures AllLater(Place(q, e), now)
  {
    if q != [] && e.due >= q[0].due {
      PlaceLater(q[1..], e, now);
    }
  }

  lemma {:induction false} PlaceAllLater(q: seq<Entry>, es: seq<Entry>, now: int)
    requires AllLater(q, now) && AllLater(es, now)
    ensures AllLater(PlaceAll(q, es), now)
  {
    if es != [] {
      PlaceAllLater(q, es[..|es| - 1], now);
      PlaceLater(PlaceAll(q, es[..|es| - 1]), es[|es| - 1], now);
    }
  }

  ghost function Without(q: seq<Entry>, n: Node): seq<Entry> {
    if q == [] then [] else (if q[0].node == n then [] else [q[0]]) + Without(q[1..], n)
  }

  lemma {:induction false} WithoutAbsent(q: seq<Entry>, n: Node)
    requires forall i :: 0 <= i < |q| ==> q[i].node != n
    ensures Without(q, n) == q
  {
    if q != [] {
      WithoutAbsent(q[1..], n);
    }
  }

  lemma {:induction false} WithoutAt(q: seq<Entry>, n: Node, p: nat)
    requires p < |q| && q[p].node == n
    requires forall i :: 0 <= i < |q| && i != p ==> q[i].node != n
    ensures Without(q, n) == q[..p] + q[p + 1..]
  {
    if p == 0 {
      WithoutAbsent(q[1..], n);
    } else {
      WithoutAt(q[1..], n, p - 1);
      assert q[1..][..p - 1] == q[1..p] && q[1..][p..] == q[p + 1..];
      assert q[..p] == [q[0]] + q[1..p];
    }
  }

  // What the handlers of the fired entries arm, in firing order: nothing for a delay of 0.
  ghost function Rearmed(fired: seq<Entry>, delays: seq<Word>, now: int): (es: seq<Entry>)
    requires |fired| == |delays|
    ensures AllLater(es, now)
  {
    if fired == [] then []
    else
      var i := |fired| - 1;
      Rearmed(fired[..i], delays[..i], now) + (if delays[i] > 0 then [Entry(fired[i].node, now + delays[i])] else [])
  }

  lemma {:induction false} RearmedHolds(fired: seq<Entry>, delays: seq<Word>, now: int, x: Entry)
    requires |fired| == |delays|
    ensures x in Rearmed(fired, delays, now) <==>
      exists i :: 0 <= i < |fired| && delays[i] > 0 && x == Entry(fired[i].node, now + delays[i])
  {
    if fired != [] {
      var k := |fired| - 1;
      RearmedHolds(fired[..k], delays[..k], now, x);
      if i :| 0 <= i < |fired| && delays[i] > 0 && x == Entry(fired[i].node, now + delays[i]) {
        assert i < k ==> fired[..k][i] == fired[i] && delays[..k][i] == delays[i];
      }
    }
  }

  // What is in the queue when the entries in front of the k-th have gone.
  lemma LeftAndRearmed(q: seq<Entry>, k: nat, delays: seq<Word>, now: int, x: Entry)
    requires k <= |q| && |delays| == k
    ensures x in PlaceAll(q[k..], Rearmed(q[..k], delays, now)) <==>
      || (exists i :: k <= i < |q| && x == q[i])
      || (exists i :: 0 <= i < k && delays[i] > 0 && x == Entry(q[i].node, now + delays[i]))
  {
    var es := Rearmed(q[..k], delays, now);
    PlaceAllHolds(q[k..], es);
    RearmedHolds(q[..k], delays, now, x);
    assert x in PlaceAll(q[k..], es) <==> x in multiset(PlaceAll(q[k..], es));
    assert x in q[k..] <==> exists i :: k <= i < |q| && x == q[i];
    assert forall i :: 0 <= i < k ==> q[..k][i] == q[i];
  }

  lemma LeftOrdered(q: seq<Entry>, k: nat, delays: seq<Word>, now: int)
    requires Ordered(q) && k <= |q| && |delays| == k
    ensures Ordered(PlaceAll(q[k..], Rearmed(q[..k], delays, now)))
  {
    PlaceAllHolds(q[k..], Rearmed(q[..k], delays, now));
  }

  // The queue when a handler has armed its event again or, for a delay of 0, has not.
  ghost function Again(node: Node, q: seq<Entry>, now: int, delay: Word): seq<Entry> {
    if delay > 0 then Place(q, Entry(node, now + delay)) else q
  }

  // The queue while the first i due entries have fired and `es` have been armed meanwhile:
  // its head is the next due entry as long as there is one.
  lemma ExpireState(q: seq<Entry>, delays: seq<Word>, now: int, i: nat)
    requires Ordered(q) && i <= DueCount(q, now) && |delays| == i
    ensures var es := Rearmed(q[..i], delays, now);
      && (i < DueCount(q, now) ==>
            && q[i].due <= now
            && PlaceAll(q[i..], es) == [q[i]] + PlaceAll(q[i + 1..], es)
            && PlaceAll(q[i..], es)[1..] == PlaceAll(q[i + 1..], es))
      && (i == DueCount(q, now) ==> AllLater(PlaceAll(q[i..], es), now))
  {
    var es := Rearmed(q[..i], delays, now);
    DueIsPrefix(q, now);
    if i < DueCount(q, now) {
      assert q[i].due <= now && q[i..][0] == q[i] && q[i..][1..] == q[i + 1..];
      PlaceAllKeepsHead(q[i..], es);
      assert ([q[i]] + PlaceAll(q[i + 1..], es))[1..] == PlaceAll(q[i + 1..], es);
    } else {
      PlaceAllLater(q[i..], es, now);
    }
  }

  lemma ExpireNext(q: seq<Entry>, delays: seq<Word>, d: Word, now: int, i: nat)
    requires i < |q| && |delays| == i
    ensures var rest := PlaceAll(q[i + 1..], Rearmed(q[..i], delays, now));
      PlaceAll(q[i + 1..], Rearmed(q[..i + 1], delays + [d], now)) == Again(q[i].node, rest, now, d)
  {
    assert q[..i + 1][..i] == q[..i] && (delays + [d])[..i] == delays;
    var es := Rearmed(q[..i], delays, now);
    var e := Entry(q[i].node, now + d);
    assert (es + [e])[..|es|] == es;
    assert es + [] == es;
  }

  // One turn of the expiry loop, on queues.
  lemma ExpireTurn(q: seq<Entry>, delays: seq<Word>, d: Word, now: int, i: nat, before: seq<Entry>, after: seq<Entry>)
    requires Ordered(q) && i <= DueCount(q, now) && |delays| == i
    requires before == PlaceAll(q[i..], Rearmed(q[..i], delays, now))
    requires before != [] && before[0].due <= now
    requires after == Again(before[0].node, before[1..], now, d)
    ensures i < DueCount(q, now) && before[0] == q[i]
    ensures after == PlaceAll(q[i + 1..], Rearmed(q[..i + 1], delays + [d], now))
  {
    ExpireState(q, delays, now, i);
    ExpireNext(q, delays, d, now, i);
  }

  // ----- The loop of stu_timer_cancel on queues ---------------------------------------

  // What matters of an event there: whether it may be cancelled and what its handler does then.
  datatype Deed = Deed(cancelable: bool, rearm: Word)

  ghost predicate Goes(e: Entry, deeds: map<Node, Deed>) {
    e.node in deeds && deeds[e.node].cancelable
  }

  ghost function Delay(e: Entry, deeds: map<Node, Deed>): Word {
    if e.node in deeds then deeds[e.node].rearm else 0
  }

  // One turn, or the end of the loop.
  ghost function CancelTurn(q: seq<Entry>, now: int, deeds: map<Node, Deed>): Option<seq<Entry>> {
    if q == [] || !Goes(q[0], deeds) then None else Some(Again(q[0].node, q[1..], now, Delay(q[0], deeds)))
  }

  // The turn in terms of what the first event says.
  lemma TurnIs(q: seq<Entry>, now: int, deeds: map<Node, Deed>)
    requires q != [] && q[0].node in deeds
    ensures var d, r := deeds[q[0].node], CancelTurn(q, now, deeds);
      && (r == None <==> !d.cancelable)
      && (d.cancelable && d.rearm == 0 ==> r == Some(q[1..]))
      && (d.cancelable && d.rearm > 0 ==> r == Some(Place(q[1..], Entry(q[0].node, now + d.rearm))))
  {
  }

  ghost function CancelTurns(q: seq<Entry>, now: int, deeds: map<Node, Deed>, n: nat): Option<seq<Entry>>
    decreases n
  {
    if n == 0 then Some(q)
    else
      match CancelTurn(q, now, deeds)
      case None => None
      case Some(t) => CancelTurns(t, now, deeds, n - 1)
  }

  // Where the first entry is that may not be cancelled, behind the end if there is none.
  ghost function FirstKept(q: seq<Entry>, deeds: map<Node, Deed>): (k: nat)
    ensures k <= |q| && (k < |q| ==> !Goes(q[k], deeds))
    ensures forall i :: 0 <= i < k ==> Goes(q[i], deeds)
    ensures k < |q| && q[k].node in deeds ==> !deeds[q[k].node].cancelable
    ensures forall i :: 0 <= i < k ==> q[i].node in deeds && deeds[q[i].node].cancelable
  {
    if q == [] || !Goes(q[0], deeds) then 0 else 1 + FirstKept(q[1..], deeds)
  }

  // No entry in front of the kept one comes back in front of it.
  ghost predicate CancelEnds(q: seq<Entry>, now: int, deeds: map<Node, Deed>) {
    var k := FirstKept(q, deeds);
    forall i :: 0 <= i < k ==> Delay(q[i], deeds) == 0 || (k < |q| && q[k].due <= now + Delay(q[i], deeds))
  }

  // The deadline of the first entry that may not be cancelled.
  ghost function Limit(q: seq<Entry>, deeds: map<Node, Deed>): Option<int> {
    if q == [] then None else if Goes(q[0], deeds) then Limit(q[1..], deeds) else Some(q[0].due)
  }

  // An entry that comes back in front of that deadline.
  ghost predicate Returns(e: Entry, now: int, deeds: map<Node, Deed>, limit: Option<int>) {
    Delay(e, deeds) > 0 && (limit.Some? ==> now + Delay(e, deeds) < limit.value)
  }

  ghost predicate Stuck(q: seq<Entry>, now: int, deeds: map<Node, Deed>, limit: Option<int>) {
    q != [] && Goes(q[0], deeds) && (Returns(q[0], now, deeds, limit) || Stuck(q[1..], now, deeds, limit))
  }

  lemma {:induction false} LimitIs(q: seq<Entry>, deeds: map<Node, Deed>)
    ensures var k := FirstKept(q, deeds); Limit(q, deeds) == if k < |q| then Some(q[k].due) else None
  {
    if q != [] && Goes(q[0], deeds) {
      LimitIs(q[1..], deeds);
    }
  }

  lemma {:induction false} StuckAt(q: seq<Entry>, now: int, deeds: map<Node, Deed>, limit: Option<int>)
    ensures Stuck(q, now, deeds, limit) <==> exists i :: 0 <= i < FirstKept(q, deeds) && Returns(q[i], now, deeds, limit)
  {
    if q != [] && Goes(q[0], deeds) {
      StuckAt(q[1..], now, deeds, limit);
      var k := FirstKept(q[1..], deeds);
      forall i | 0 <= i < k ensures q[1..][i] == q[i + 1] {
      }
      if i :| 0 <= i < k && Returns(q[1..][i], now, deeds, limit) {
        assert Returns(q[i + 1], now, deeds, limit);
      }
      if i :| 0 <= i < FirstKept(q, deeds) && Returns(q[i], now, deeds, limit) && i > 0 {
        assert Returns(q[1..][i - 1], now, deeds, limit);
      }
    }
  }

  lemma StuckIff(q: seq<Entry>, now: int, deeds: map<Node, Deed>)
    ensures Stuck(q, now, deeds, Limit(q, deeds)) <==> !CancelEnds(q, now, deeds)
  {
    LimitIs(q, deeds);
    StuckAt(q, now, deeds, Limit(q, deeds));
  }

  // Placing an entry that may be cancelled changes neither the limit nor that the loop is stuck.
  lemma {:induction false} PlaceStuck(q: seq<Entry>, e: Entry, now: int, deeds: map<Node, Deed>, limit: Option<int>)
    requires Goes(e, deeds)
    ensures Limit(Place(q, e), deeds) == Limit(q, deeds)
    ensures Stuck(q, now, deeds, limit) ==> Stuck(Place(q, e), now, deeds, limit)
    ensures e.due == now + Delay(e, deeds) && limit == Limit(q, deeds) && Returns(e, now, deeds, limit) ==>
      Stuck(Place(q, e), now, deeds, limit)
  {
    if q == [] || e.due < q[0].due {
      assert ([e] + q)[1..] == q;
    } else {
      PlaceStuck(q[1..], e, now, deeds, limit);
      assert ([q[0]] + Place(q[1..], e))[1..] == Place(q[1..], e);
    }
  }

  // A loop that is stuck goes on for ever.
  lemma {:induction false} NeverEnds(q: seq<Entry>, now: int, deeds: map<Node, Deed>, n: nat)
    requires Stuck(q, now, deeds, Limit(q, deeds))
    ensures CancelTurns(q, now, deeds, n) != None
    decreases n
  {
    if n > 0 {
      PlaceStuck(q[1..], Entry(q[0].node, now + Delay(q[0], deeds)), now, deeds, Limit(q, deeds));
      NeverEnds(CancelTurn(q, now, deeds).value, now, deeds, n - 1);
    }
  }

  lemma {:induction false} RearmedLate(fired: seq<Entry>, delays: seq<Word>, now: int, limit: int)
    requires |fired| == |delays| && forall j :: 0 <= j < |delays| ==> delays[j] > 0 ==> limit <= now + delays[j]
    ensures forall j :: 0 <= j < |Rearmed(fired, delays, now)| ==> limit <= Rearmed(fired, delays, now)[j].due
  {
    if fired != [] {
      var i := |fired| - 1;
      RearmedLate(fired[..i], delays[..i], now, limit);
    }
  }

  lemma {:induction false} RearmedNone(fired: seq<Entry>, delays: seq<Word>, now: int)
    requires |fired| == |delays| && forall j :: 0 <= j < |delays| ==> delays[j] == 0
    ensures Rearmed(fired, delays, now) == []
  {
    if fired != [] {
      RearmedNone(fired[..|fired| - 1], delays[..|fired| - 1], now);
    }
  }

  // The delays of the first i entries.
  ghost function Delays(q: seq<Entry>, deeds: map<Node, Deed>, i: nat): (r: seq<Word>)
    requires i <= |q|
    ensures |r| == i && forall j :: 0 <= j < i ==> r[j] == Delay(q[j], deeds)
  {
    if i == 0 then [] else Delays(q, deeds, i - 1) + [Delay(q[i - 1], deeds)]
  }

  // The queue when the first i entries have been cancelled.
  ghost function Cancelled(q: seq<Entry>, now: int, deeds: map<Node, Deed>, i: nat): seq<Entry>
    requires i <= |q|
  {
    PlaceAll(q[i..], Rearmed(q[..i], Delays(q, deeds, i), now))
  }

  // In a loop that ends what is armed again comes behind the next entry.
  lemma CancelHead(q: seq<Entry>, now: int, deeds: map<Node, Deed>, i: nat, es: seq<Entry>)
    requires Ordered(q) && CancelEnds(q, now, deeds) && i <= FirstKept(q, deeds) && i < |q|
    requires es == Rearmed(q[..i], Delays(q, deeds, i), now)
    ensures PlaceAll(q[i..], es) == [q[i]] + PlaceAll(q[i + 1..], es)
  {
    var k := FirstKept(q, deeds);
    assert q[i..] == [q[i]] + q[i + 1..];
    if k < |q| {
      assert q[i].due <= q[k].due;
      assert forall j :: 0 <= j < |es| ==> q[k].due <= es[j].due by {
        RearmedLate(q[..i], Delays(q, deeds, i), now, q[k].due);
      }
      PlaceAllKeepsHead(q[i..], es);
    } else {
      RearmedNone(q[..i], Delays(q, deeds, i), now);
    }
  }

  lemma CancelEmpty(q: seq<Entry>, now: int, deeds: map<Node, Deed>)
    requires CancelEnds(q, now, deeds) && FirstKept(q, deeds) == |q|
    ensures Cancelled(q, now, deeds, |q|) == []
  {
    RearmedNone(q[..|q|], Delays(q, deeds, |q|), now);
  }

  // So the next one heads the queue.
  lemma CancelState(q: seq<Entry>, now: int, deeds: map<Node, Deed>, i: nat) returns (rest: seq<Entry>)
    requires Ordered(q) && CancelEnds(q, now, deeds) && i <= FirstKept(q, deeds) && i < |q|
    ensures Cancelled(q, now, deeds, i) == [q[i]] + rest
    ensures Cancelled(q, now, deeds, i + 1) == Again(q[i].node, rest, now, Delay(q[i], deeds))
  {
    var es := Rearmed(q[..i], Delays(q, deeds, i), now);
    CancelHead(q, now, deeds, i, es);
    rest := PlaceAll(q[i + 1..], es);
    ExpireNext(q, Delays(q, deeds, i), Delay(q[i], deeds), now, i);
  }

  lemma CancelStart(q: seq<Entry>, now: int, deeds: map<Node, Deed>)
    ensures Cancelled(q, now, deeds, 0) == q
  {
    assert q[..0] == [] && q[0..] == q;
  }

  // What such a loop ends with.
  lemma CancelDone(q: seq<Entry>, now: int, deeds: map<Node, Deed>)
    requires Ordered(q) && CancelEnds(q, now, deeds)
    ensures var k := FirstKept(q, deeds);
      var r := Cancelled(q, now, deeds, k);
      && r == PlaceAll(q[k..], Rearmed(q[..k], Delays(q, deeds, k), now))
      && if k < |q| then r != [] && r[0] == q[k] else r == []
  {
    if FirstKept(q, deeds) < |q| {
      var _ := CancelState(q, now, deeds, FirstKept(q, deeds));
    } else {
      CancelEmpty(q, now, deeds);
    }
  }

  // One turn of such a loop.
  lemma CancelNext(q: seq<Entry>, now: int, deeds: map<Node, Deed>, i: nat)
    requires Ordered(q) && CancelEnds(q, now, deeds) && i <= FirstKept(q, deeds)
    ensures CancelTurn(Cancelled(q, now, deeds, i), now, deeds) ==
      if i == FirstKept(q, deeds) then None else Some(Cancelled(q, now, deeds, i + 1))
  {
    if i < |q| {
      var rest := CancelState(q, now, deeds, i);
      TurnOf(Cancelled(q, now, deeds, i), q[i], rest, now, deeds);
    } else {
      CancelEmpty(q, now, deeds);
    }
  }

  lemma TurnOf(q: seq<Entry>, e: Entry, rest: seq<Entry>, now: int, deeds: map<Node, Deed>)
    requires q == [e] + rest
    ensures CancelTurn(q, now, deeds) == if Goes(e, deeds) then Some(Again(e.node, rest, now, Delay(e, deeds))) else None
  {
    assert q[1..] == rest && q[0] == e;
  }

  ghost predicate Follows(qs: seq<seq<Entry>>, j: nat, now: int, deeds: map<Node, Deed>)
    requires j < |qs|
  {
    CancelTurn(qs[j], now, deeds) == if j + 1 < |qs| then Some(qs[j + 1]) else None
  }

  lemma {:induction false} TurnsAlong(qs: seq<seq<Entry>>, now: int, deeds: map<Node, Deed>, i: nat)
    requires i < |qs|
    requires forall j :: 0 <= j < |qs| ==> Follows(qs, j, now, deeds)
    ensures CancelTurns(qs[i], now, deeds, |qs| - i) == None
    decreases |qs| - i
  {
    assert Follows(qs, i, now, deeds);
    if i + 1 < |qs| {
      TurnsAlong(qs, now, deeds, i + 1);
    }
  }

  lemma CancelSteps(q: seq<Entry>, now: int, deeds: map<Node, Deed>) returns (qs: seq<seq<Entry>>)
    requires Ordered(q) && CancelEnds(q, now, deeds)
    ensures |qs| == FirstKept(q, deeds) + 1 && qs[0] == q
    ensures forall j :: 0 <= j < |qs| ==> Follows(qs, j, now, deeds)
  {
    var k := FirstKept(q, deeds);
    qs := seq(k + 1, i requires 0 <= i <= k => Cancelled(q, now, deeds, i));
    forall j | 0 <= j < |qs| ensures Follows(qs, j, now, deeds) {
      assert qs[j] == Cancelled(q, now, deeds, j) && (j < k ==> qs[j + 1] == Cancelled(q, now, deeds, j + 1));
      CancelNext(q, now, deeds, j);
    }
    CancelStart(q, now, deeds);
  }

  // The loop ends exactly if no entry in front of the kept one is armed again for a time in
  // front of it, and then it cancels each of them once.
  lemma CancelEndsIff(q: seq<Entry>, now: int, deeds: map<Node, Deed>)
    requires Ordered(q)
    ensures CancelEnds(q, now, deeds) <==>
      var k := FirstKept(q, deeds);
      forall i :: 0 <= i < k ==> deeds[q[i].node].rearm == 0 || (k < |q| && q[k].due <= now + deeds[q[i].node].rearm)
    ensures CancelEnds(q, now, deeds) <==> CancelTurns(q, now, deeds, FirstKept(q, deeds) + 1) == None
    ensures !CancelEnds(q, now, deeds) ==> forall n: nat :: CancelTurns(q, now, deeds, n) != None
  {
    if CancelEnds(q, now, deeds) {
      var qs := CancelSteps(q, now, deeds);
      TurnsAlong(qs, now, deeds, 0);
    } else {
      StuckIff(q, now, deeds);
      forall n: nat ensures CancelTurns(q, now, deeds, n) != None {
        NeverEnds(q, now, deeds, n);
      }
    }
  }

  // ----- Events and the timer queue ---------------------------------------------------

  class Event {
    const timer: Node
    var timerSet: bool
    var timedout: bool
    var cancelable: bool
    var rearm: Word  // what the handler does: nothing (0), or arm its own event again

    ghost var requested: int  // the deadline asked for by the latest add

    constructor (node: Node)
      ensures timer == node && !timerSet && !timedout && !cancelable && rearm == 0
    {
      timer := node;
      timerSet, timedout, cancelable, rearm := false, false, false, 0;
    }
  }

  class Timers {
    const tree: Tree
    const container: map<Node, Event>  // the event that a node is embedded in
    var currentMsec: Word
    ghost var clock: int  // the current time before truncation

    ghost predicate Ok()
      reads this, tree, tree.nodes, tree.sentinel, tree.order, container.Values
    {
      tree.Valid() && Linked()
    }

    // timerSet holds exactly for the events in the tree, and every key is close to the
    // latest deadline asked for.
    ghost predicate Linked()
      reads this, tree, tree.nodes, container.Values
    {
      && currentMsec == Wrap(clock)
      && tree.nodes <= container.Keys && tree.sentinel !in container.Keys
      && (forall n {:trigger container[n]} :: n in container ==> container[n].timer == n)
      && (forall n {:trigger container[n]} :: n in container ==> (container[n].timerSet <==> n in tree.nodes))
      && (forall n {:trigger container[n]} :: n in tree.nodes ==>
            -LAZY_DELAY < n.time - container[n].requested < LAZY_DELAY)
    }

    // All live deadlines and the current time lie in [base, base + 2^63).
    ghost predicate InWindow(base: int)
      reads this, tree, tree.nodes
    {
      base <= clock < base + HALF && (forall n :: n in tree.nodes ==> base <= n.time < base + HALF)
    }

    // What the handlers may arm lies there too.
    ghost predicate DelaysInWindow(base: int)
      reads this, tree, tree.nodes, container.Values
    {
      forall n {:trigger container[n]} :: n in tree.nodes && n in container && container[n].rearm > 0 ==>
        base <= clock + container[n].rearm < base + HALF
    }

    lemma WaitsInWindow(ev: Event, base: int)
      requires DelaysInWindow(base) && ev.timer in tree.nodes && ev.timer in container && container[ev.timer] == ev
      ensures ev.rearm > 0 ==> base <= clock + ev.rearm < base + HALF
    {
    }

    ghost function Queue(): (q: seq<Entry>)
      reads tree, tree.order
      ensures |q| == |tree.order|
      ensures forall i :: 0 <= i < |q| ==> q[i] == Entry(tree.order[i], tree.order[i].time)
    {
      seq(|tree.order|, i requires 0 <= i < |tree.order| reads tree, tree.order => Entry(tree.order[i], tree.order[i].time))
    }

    // stu_timer_init
    constructor (sentinel: Node, events: map<Node, Event>, now: int)
      requires sentinel !in events
      requires forall n :: n in events ==> events[n].timer == n && !events[n].timerSet
      modifies sentinel
      ensures Ok() && Queue() == [] && clock == now && container == events && tree.sentinel == sentinel && fresh(tree)
    {
      tree := new Tree(sentinel);
      container := events;
      currentMsec := Wrap(now);
      clock := now;
    }

    lemma QueueOrdered()
      requires Ok()
      ensures Ordered(Queue())
      ensures forall i :: 0 <= i < |Queue()| ==> Queue()[i].node in tree.nodes && Queue()[i].node.pos == i
      ensures forall n :: n in tree.nodes ==> 0 <= n.pos < |Queue()| && Queue()[n.pos].node == n
    {
      forall n | n in tree.nodes ensures 0 <= n.pos < |Queue()| && Queue()[n.pos].node == n {
        assert tree.Local(n);
      }
    }

    // The tree does not depend on events, nor on nodes outside it.
    twostate lemma StillValid()
      requires old(tree.Valid()) && unchanged(tree) && unchanged(tree.nodes) && unchanged(tree.sentinel)
      ensures tree.Valid()
    {
      assert forall n :: n in tree.order ==> n in tree.nodes;
    }

    twostate lemma ArmedQueue(new ev: Event, new due: int, new p: int)
      requires 0 <= p <= |old(tree.order)| && ev.timer.time == due
      requires tree.order == old(tree.order)[..p] + [ev.timer] + old(tree.order)[p..]
      requires forall i :: 0 <= i < |old(tree.order)| ==> old(tree.order)[i].time == old(tree.order[i].time)
      requires forall i :: 0 <= i < p ==> old(tree.order)[i].time <= due
      requires forall i :: p <= i < |old(tree.order)| ==> due < old(tree.order)[i].time
      ensures Queue() == Place(old(Queue()), Entry(ev.timer, due))
    {
      var q := old(Queue());
      PlaceAt(q, Entry(ev.timer, due), p);
      assert Queue() == q[..p] + [Entry(ev.timer, due)] + q[p..];
    }

    twostate lemma ArmedLinks(new ev: Event)
      requires old(Linked()) && ev.timer in container && container[ev.timer] == ev && ev.timerSet
      requires tree.nodes == old(tree.nodes) + {ev.timer} && ev.timer.time == ev.requested
      requires currentMsec == old(currentMsec) && clock == old(clock)
      requires forall n {:trigger n.time} :: n in old(tree.nodes) && n != ev.timer ==> n.time == old(n.time)
      requires forall n {:trigger container[n]} :: n in container && n != ev.timer ==>
                 container[n].timerSet == old(container[n].timerSet) && container[n].requested == old(container[n].requested)
      ensures Linked()
    {
    }

    // Lines 170-173: the node goes into the tree.
    method ArmTree(ev: Event, key: Word, ghost due: int, ghost base: int, ghost q: seq<Entry>)
      requires tree.Valid() && q == Queue() && ev.timer !in tree.nodes && ev.timer != tree.sentinel
      requires InWindow(base) && base <= due < base + HALF && key == Wrap(due)
      modifies tree`root, tree`nodes, tree`order
      modifies tree.nodes`left, tree.nodes`right, tree.nodes`parent, tree.nodes`red
      modifies tree.nodes`bh, tree.nodes`lo, tree.nodes`pos, tree.nodes`hi
      modifies ev.timer`left, ev.timer`right, ev.timer`parent, ev.timer`red
      modifies ev.timer`bh, ev.timer`lo, ev.timer`pos, ev.timer`hi, ev.timer`key, ev.timer`time
      ensures tree.Valid() && InWindow(base) && ev.timer.time == due
      ensures tree.nodes == old(tree.nodes) + {ev.timer} && Queue() == Place(q, Entry(ev.timer, due))
    {
      assert forall n :: n in tree.order ==> n in tree.nodes;
      ev.timer.key := key;
      ev.timer.time := due;
      StillValid();
      tree.Insert(ev.timer);
      ArmedQueue(ev, due, ev.timer.pos);
    }

    // Lines 170-175: an event that is not in the tree goes in with the given key.
    method Arm(ev: Event, key: Word, ghost due: int, ghost base: int, ghost q: seq<Entry>)
      requires Ok() && q == Queue() && ev.timer in container && container[ev.timer] == ev && !ev.timerSet
      requires InWindow(base) && base <= due < base + HALF && key == Wrap(due)
      modifies tree`root, tree`nodes, tree`order
      modifies tree.nodes`left, tree.nodes`right, tree.nodes`parent, tree.nodes`red
      modifies tree.nodes`bh, tree.nodes`lo, tree.nodes`pos, tree.nodes`hi
      modifies ev.timer`left, ev.timer`right, ev.timer`parent, ev.timer`red
      modifies ev.timer`bh, ev.timer`lo, ev.timer`pos, ev.timer`hi, ev.timer`key, ev.timer`time
      modifies ev`timerSet, ev`requested
      ensures tree.Valid() && Linked() && InWindow(base)
      ensures ev.timerSet && ev.requested == due && tree.nodes == old(tree.nodes) + {ev.timer}
      ensures Queue() == Place(q, Entry(ev.timer, due))
    {
      ArmTree(ev, key, due, base, q);
      label Inserted:
      ev.timerSet := true;
      ev.requested := due;
      StillValid@Inserted();
      ArmedLinks(ev);
    }

    lemma QueueDistinct()
      requires Ok()
      ensures Distinct(Queue())
    {
      QueueOrdered();
    }

    twostate lemma DisarmedQueue(new node: Node, new p: int)
      requires 0 <= p < |old(tree.order)| && old(tree.order)[p] == node
      requires forall i :: 0 <= i < |old(tree.order)| && i != p ==> old(tree.order)[i] != node
      requires tree.order == old(tree.order)[..p] + old(tree.order)[p + 1..]
      requires forall i :: 0 <= i < |old(tree.order)| ==> old(tree.order)[i].time == old(tree.order[i].time)
      ensures Queue() == Without(old(Queue()), node)
    {
      var q := old(Queue());
      WithoutAt(q, node, p);
      assert Queue() == q[..p] + q[p + 1..];
    }

    // Events other than the one that leaves the tree keep their links.
    twostate lemma DisarmedLinks(new ev: Event)
      requires old(Linked()) && ev.timer in container && container[ev.timer] == ev && !ev.timerSet
      requires tree.nodes == old(tree.nodes) - {ev.timer}
      requires currentMsec == old(currentMsec) && clock == old(clock)
      requires forall n {:trigger n.time} :: n in old(tree.nodes) ==> n.time == old(n.time)
      requires forall n {:trigger container[n]} :: n in container && n != ev.timer ==>
                 container[n].timerSet == old(container[n].timerSet) && container[n].requested == old(container[n].requested)
      ensures Linked()
      ensures forall base :: old(InWindow(base)) ==> InWindow(base)
    {
    }

    method DelLocked(ev: Event)
      requires Ok() && ev.timer in container && container[ev.timer] == ev && ev.timerSet
      modifies tree`root, tree`nodes, tree`order
      modifies tree.sentinel`parent, tree.sentinel`red, tree.sentinel`lo, tree.sentinel`pos, tree.sentinel`hi, tree.sentinel`bh
      modifies tree.nodes`left, tree.nodes`right, tree.nodes`parent, tree.nodes`red
      modifies tree.nodes`bh, tree.nodes`lo, tree.nodes`pos, tree.nodes`hi, ev.timer`key, ev`timerSet
      ensures tree.Valid() && Linked() && !ev.timerSet && tree.nodes == old(tree.nodes) - {ev.timer}
      ensures Queue() == Without(old(Queue()), ev.timer)
      ensures forall base :: old(InWindow(base)) ==> InWindow(base)
    {
      ghost var p := ev.timer.pos;
      tree.Delete(ev.timer);
      label Deleted:
      ev.timerSet := false;
      StillValid@Deleted();
      DisarmedLinks(ev);
      DisarmedQueue(ev.timer, p);
    }

    // The deadline asked for moves by less than the lazy delay away from the key: the tree
    // stays as it is.
    twostate lemma LazyLinks(new ev: Event)
      requires old(Ok()) && ev.timer in container && container[ev.timer] == ev
      requires unchanged(tree) && unchanged(tree.nodes) && unchanged(tree.sentinel) && unchanged(ev.timer)
      requires unchanged(this) && ev.timerSet == old(ev.timerSet)
      requires forall n {:trigger container[n]} :: n in container && n != ev.timer ==>
                 container[n].timerSet == old(container[n].timerSet) && container[n].requested == old(container[n].requested)
      requires ev.timer in tree.nodes ==> -LAZY_DELAY < ev.timer.time - ev.requested < LAZY_DELAY
      ensures tree.Valid() && Linked() && Queue() == old(Queue())
    {
      StillValid();
      assert forall n :: n in tree.order ==> n in tree.nodes;
    }

    // Lines 161-165: whether the old key may stay; if so it does.
    method KeepLazily(ev: Event, key: Word, ghost due: int) returns (kept: bool)
      requires Ok() && ev.timer in tree.nodes && container[ev.timer] == ev && ev.timerSet
      requires key == Wrap(due) && -HALF < due - ev.timer.time < HALF
      modifies ev`requested
      ensures kept <==> -LAZY_DELAY < due - ev.timer.time < LAZY_DELAY
      ensures tree.Valid() && Linked() && Queue() == old(Queue()) && ev.timerSet
      ensures ev.requested == if kept then due else old(ev.requested)
    {
      TimerKey(ev);
      WrappedDifference(due, ev.timer.time);
      var diff := Signed(Wrap(key - ev.timer.key));
      kept := (if diff >= 0 then diff else -diff) < LAZY_DELAY;
      if kept {
        ev.requested := due;
      }
      LazyLinks(ev);
    }

    // Lines 154-168: an event in the tree stays if its key may stay, and else leaves it.
    method KeepOrDelete(ev: Event, key: Word, ghost due: int, ghost base: int) returns (kept: bool)
      requires Ok() && ev.timer in container && container[ev.timer] == ev && InWindow(base)
      requires key == Wrap(due) && (ev.timerSet ==> -HALF < due - ev.timer.time < HALF)
      modifies tree`root, tree`nodes, tree`order
      modifies tree.sentinel`parent, tree.sentinel`red, tree.sentinel`lo, tree.sentinel`pos, tree.sentinel`hi, tree.sentinel`bh
      modifies tree.nodes`left, tree.nodes`right, tree.nodes`parent, tree.nodes`red
      modifies tree.nodes`bh, tree.nodes`lo, tree.nodes`pos, tree.nodes`hi, ev.timer`key, ev`timerSet, ev`requested
      ensures tree.Valid() && Linked() && InWindow(base)
      ensures kept <==> old(ev.timerSet) && -LAZY_DELAY < due - old(ev.timer.time) < LAZY_DELAY
      ensures ev.timer.time == old(ev.timer.time) && ev.timerSet == kept
      ensures if kept then Queue() == old(Queue()) && ev.requested == due && tree.nodes == old(tree.nodes)
              else Queue() == Without(old(Queue()), ev.timer) && tree.nodes == old(tree.nodes) - {ev.timer}
    {
      kept := false;
      if ev.timerSet {
        kept := KeepLazily(ev, key, due);
        if !kept {
          DelLocked(ev);
        }
      } else {
        TimerAbsent(ev);
      }
    }

    // Lines 154-175, for a key that is worked out.
    method AddKey(ev: Event, key: Word, ghost due: int, ghost base: int, ghost q: seq<Entry>)
      requires Ok() && ev.timer in container && container[ev.timer] == ev && InWindow(base) && q == Queue()
      requires base <= due < base + HALF && key == Wrap(due) && (ev.timerSet ==> -HALF < due - ev.timer.time < HALF)
      modifies tree`root, tree`nodes, tree`order
      modifies tree.sentinel`parent, tree.sentinel`red, tree.sentinel`lo, tree.sentinel`pos, tree.sentinel`hi, tree.sentinel`bh
      modifies tree.nodes`left, tree.nodes`right, tree.nodes`parent, tree.nodes`red
      modifies tree.nodes`bh, tree.nodes`lo, tree.nodes`pos, tree.nodes`hi
      modifies ev.timer`left, ev.timer`right, ev.timer`parent, ev.timer`red
      modifies ev.timer`bh, ev.timer`lo, ev.timer`pos, ev.timer`hi, ev.timer`key, ev.timer`time
      modifies ev`timerSet, ev`requested
      ensures tree.Valid() && Linked() && InWindow(base)
      ensures ev.timerSet && ev.requested == due && tree.nodes == old(tree.nodes) + {ev.timer}
      ensures if old(ev.timerSet) && -LAZY_DELAY < due - old(ev.timer.time) < LAZY_DELAY
              then Queue() == q && ev.timer.time == old(ev.timer.time)
              else Queue() == Place(Without(q, ev.timer), Entry(ev.timer, due))
    {
      var kept := KeepOrDelete(ev, key, due, base);
      if !kept {
        Arm(ev, key, due, base, Without(q, ev.timer));
      }
    }

    lemma KeyClose(ev: Event, due: int, base: int)
      requires Ok() && ev.timer in container && container[ev.timer] == ev && InWindow(base) && base <= due < base + HALF
      ensures ev.timerSet ==> -HALF < due - ev.timer.time < HALF
    {
    }

    method AddLocked(ev: Event, timer: Word, ghost base: int)
      requires Ok() && ev.timer in container && container[ev.timer] == ev
      requires InWindow(base) && base <= clock + timer < base + HALF
      modifies tree`root, tree`nodes, tree`order
      modifies tree.sentinel`parent, tree.sentinel`red, tree.sentinel`lo, tree.sentinel`pos, tree.sentinel`hi, tree.sentinel`bh
      modifies tree.nodes`left, tree.nodes`right, tree.nodes`parent, tree.nodes`red
      modifies tree.nodes`bh, tree.nodes`lo, tree.nodes`pos, tree.nodes`hi
      modifies ev.timer`left, ev.timer`right, ev.timer`parent, ev.timer`red
      modifies ev.timer`bh, ev.timer`lo, ev.timer`pos, ev.timer`hi, ev.timer`key, ev.timer`time
      modifies ev`timerSet, ev`requested
      ensures tree.Valid() && Linked() && InWindow(base)
      ensures ev.timerSet && ev.requested == clock + timer && tree.nodes == old(tree.nodes) + {ev.timer}
      ensures -300 < ev.timer.time - (clock + timer) < 300
      ensures if old(ev.timerSet) && -300 < clock + timer - old(ev.timer.time) < 300
              then Queue() == old(Queue()) && ev.timer.time == old(ev.timer.time)
              else Queue() == Place(Without(old(Queue()), ev.timer), Entry(ev.timer, clock + timer))
    {
      var key := Wrap(currentMsec + timer);
      WrapAdd(clock, timer);
      KeyClose(ev, clock + timer, base);
      AddKey(ev, key, clock + timer, base, Queue());
    }

    lemma TimerKey(ev: Event)
      requires Ok() && ev.timer in tree.nodes
      ensures ev.timer.key == Wrap(ev.timer.time)
    {
      QueueOrdered();
    }

    lemma TimerAbsent(ev: Event)
      requires Ok() && ev.timer !in tree.nodes
      ensures Without(Queue(), ev.timer) == Queue()
    {
      QueueOrdered();
      WithoutAbsent(Queue(), ev.timer);
    }
  
    // stu_timer_find
    method Find() returns (timer: Word)
      requires Ok()
      ensures Queue() == [] ==> timer == 0xFFFF_FFFF_FFFF_FFFF
      ensures Queue() != [] ==>
        && (forall i :: 0 <= i < |Queue()| ==> Queue()[0].due <= Queue()[i].due)
        && (-HALF <= Queue()[0].due - clock < HALF ==>
              timer == (if Queue()[0].due > clock then Queue()[0].due - clock else 0))
    {
      var node := FirstNode();
      if node == null {
        return INFINITE;
      }
      QueueOrdered();
      TimerKey(container[node]);
      if -HALF <= node.time - clock < HALF {
        WrappedDifference(node.time, clock);
      }
      var t := Signed(Wrap(node.key - currentMsec));
      timer := if t > 0 then t else 0;
    }

    // Lines 76-87 for the first entry of the queue, up to the call of its handler.
    method FireFirst(ev: Event)
      requires Ok() && ev.timer in tree.nodes && container[ev.timer] == ev
      requires Queue() != [] && Queue()[0].node == ev.timer
      modifies tree`root, tree`nodes, tree`order
      modifies tree.sentinel`parent, tree.sentinel`red, tree.sentinel`lo, tree.sentinel`pos, tree.sentinel`hi, tree.sentinel`bh
      modifies tree.nodes`left, tree.nodes`right, tree.nodes`parent, tree.nodes`red
      modifies tree.nodes`bh, tree.nodes`lo, tree.nodes`pos, tree.nodes`hi, ev.timer`key, ev`timerSet, ev`timedout
      ensures tree.Valid() && Linked() && !ev.timerSet && ev.timedout && tree.nodes == old(tree.nodes) - {ev.timer}
      ensures Queue() == old(Queue())[1..]
      ensures forall base :: old(InWindow(base)) ==> InWindow(base)
    {
      QueueOrdered();
      ghost var q := Queue();
      tree.Delete(ev.timer);
      label Deleted:
      ev.timedout := true;
      ev.timerSet := false;
      StillValid@Deleted();
      DisarmedLinks(ev);
      assert Queue() == q[1..] by {
        DisarmedQueue(ev.timer, 0);
        WithoutAt(q, ev.timer, 0);
      }
    }

    // A handler that may arm its own event again.
    method Handler(ev: Event, ghost base: int)
      requires Ok() && ev.timer in container && container[ev.timer] == ev && !ev.timerSet
      requires InWindow(base) && (ev.rearm > 0 ==> base <= clock + ev.rearm < base + HALF)
      modifies tree`root, tree`nodes, tree`order
      modifies tree.sentinel`parent, tree.sentinel`red, tree.sentinel`lo, tree.sentinel`pos, tree.sentinel`hi, tree.sentinel`bh
      modifies tree.nodes`left, tree.nodes`right, tree.nodes`parent, tree.nodes`red
      modifies tree.nodes`bh, tree.nodes`lo, tree.nodes`pos, tree.nodes`hi
      modifies ev.timer`left, ev.timer`right, ev.timer`parent, ev.timer`red
      modifies ev.timer`bh, ev.timer`lo, ev.timer`pos, ev.timer`hi, ev.timer`key, ev.timer`time
      modifies ev`timerSet, ev`requested
      ensures tree.Valid() && Linked() && InWindow(base) && (ev.timerSet <==> ev.rearm > 0)
      ensures tree.nodes == old(tree.nodes) + (if ev.rearm > 0 then {ev.timer} else {})
      ensures Queue() == Again(ev.timer, old(Queue()), clock, ev.rearm)
    {
      if ev.rearm > 0 {
        TimerAbsent(ev);
        AddLocked(ev, ev.rearm, base);
      }
    }

    // stu_rbtree_min of the whole tree; null when the tree is empty.
    method FirstNode() returns (node: Node?)
      requires Ok()
      ensures node == null ==> Queue() == []
      ensures node != null ==> node in tree.nodes && Queue() != [] && Queue()[0] == Entry(node, node.time)
    {
      QueueOrdered();
      if tree.root == tree.sentinel {
        return null;
      }
      ghost var visited;
      node, visited := tree.Min(tree.root);
    }

    // The test of lines 64-73: the node of the earliest timer if it is due.
    method DueNode() returns (node: Node?)
      requires Ok() && (forall n :: n in tree.nodes ==> -HALF <= n.time - clock < HALF)
      ensures node == null ==> Queue() == [] || clock < Queue()[0].due
      ensures node != null ==> Queue() != [] && Queue()[0] == Entry(node, node.time) && node.time <= clock
                               && node in tree.nodes
    {
      node := FirstNode();
      if node != null {
        TimerKey(container[node]);
        WrappedDifference(node.time, clock);
        if Signed(Wrap(node.key - currentMsec)) > 0 {
          node := null;
        }
      }
    }

    // Lines 75-88.
    method Fire(ev: Event, ghost base: int)
      requires Ok() && InWindow(base) && ev.timer in tree.nodes && container[ev.timer] == ev
      requires ev.rearm > 0 ==> base <= clock + ev.rearm < base + HALF
      requires Queue() != [] && Queue()[0].node == ev.timer
      modifies tree`root, tree`nodes, tree`order
      modifies tree.sentinel`parent, tree.sentinel`red, tree.sentinel`lo, tree.sentinel`pos, tree.sentinel`hi, tree.sentinel`bh
      modifies tree.nodes`left, tree.nodes`right, tree.nodes`parent, tree.nodes`red
      modifies tree.nodes`bh, tree.nodes`lo, tree.nodes`pos, tree.nodes`hi
      modifies ev.timer`left, ev.timer`right, ev.timer`parent, ev.timer`red
      modifies ev.timer`bh, ev.timer`lo, ev.timer`pos, ev.timer`hi, ev.timer`key, ev.timer`time
      modifies ev`timerSet, ev`timedout, ev`requested
      ensures tree.Valid() && Linked() && InWindow(base) && tree.nodes <= old(tree.nodes)
      ensures Queue() == Again(ev.timer, old(Queue())[1..], clock, ev.rearm)
      ensures ev.timedout && (ev.timerSet <==> ev.rearm > 0)
    {
      FireFirst(ev);
      Handler(ev, base);
    }

    // The events of the first entries of q have run with the given delays.
    ghost predicate HaveFired(q: seq<Entry>, fired: seq<Event>, delays: seq<Word>)
      reads fired
    {
      && |fired| == |delays| <= |q|
      && forall i :: 0 <= i < |fired| ==>
           && fired[i].timer == q[i].node && fired[i].timer in container && container[fired[i].timer] == fired[i]
           && delays[i] == fired[i].rearm && fired[i].timedout && (fired[i].timerSet <==> fired[i].rearm > 0)
    }

    twostate lemma HaveFiredNext(new q: seq<Entry>, new fired: seq<Event>, new delays: seq<Word>, new ev: Event)
      requires |fired| < |q| && ev.timer in container && container[ev.timer] == ev && ev.timer == q[|fired|].node
      requires Distinct(q)
      requires old(allocated(q) && allocated(fired)) && old(HaveFired(q, fired, delays))
      requires forall e :: e in fired && e != ev ==>
                 e.rearm == old(e.rearm) && e.timedout == old(e.timedout) && e.timerSet == old(e.timerSet)
      requires ev.timedout && (ev.timerSet <==> ev.rearm > 0)
      ensures HaveFired(q, fired + [ev], delays + [ev.rearm])
    {
    }
  
    ghost predicate Distinct(q: seq<Entry>) {
      forall i, j {:trigger q[i], q[j]} :: 0 <= i < j < |q| ==> q[i].node != q[j].node
    }

    // The state of the loop of stu_timer_expire: q was the queue at entry.
    ghost predicate Expiring(q: seq<Entry>, now: int, fired: seq<Event>, delays: seq<Word>)
      reads this, tree, tree.nodes, tree.sentinel, tree.order, container.Values, fired
    {
      && tree.Valid() && Linked() && clock == now && Ordered(q)
      && Distinct(q) && HaveFired(q, fired, delays) && |fired| <= DueCount(q, now)
      && Queue() == PlaceAll(q[|fired|..], Rearmed(q[..|fired|], delays, now))
    }

    twostate lemma ExpiringNext(new ev: Event, new q: seq<Entry>, new fired: seq<Event>, new delays: seq<Word>)
      requires old(allocated(q) && allocated(fired)) && old(Expiring(q, clock, fired, delays))
      requires ev.timer in container && container[ev.timer] == ev && clock == old(clock)
      requires old(Queue() != [] && Queue()[0].node == ev.timer && Queue()[0].due <= clock)
      requires tree.Valid() && Linked()
      requires Queue() == Again(ev.timer, old(Queue())[1..], clock, ev.rearm)
      requires ev.timedout && (ev.timerSet <==> ev.rearm > 0)
      requires forall e :: e in fired && e != ev ==>
                 e.rearm == old(e.rearm) && e.timedout == old(e.timedout) && e.timerSet == old(e.timerSet)
      ensures Expiring(q, clock, fired + [ev], delays + [ev.rearm])
    {
      var i := |fired|;
      ExpireTurn(q, delays, ev.rearm, clock, i, old(Queue()), Queue());
      assert ev.timer == q[i].node;
      assert HaveFired(q, fired + [ev], delays + [ev.rearm]) by {
        HaveFiredNext(q, fired, delays, ev);
      }
    }

    // Lines 75-88 within the loop.
    method FireNext(ev: Event, ghost q: seq<Entry>, ghost fired: seq<Event>, ghost delays: seq<Word>, ghost base: int)
      requires Expiring(q, clock, fired, delays) && InWindow(base)
      requires ev.timer in tree.nodes && container[ev.timer] == ev
      requires ev.rearm > 0 ==> base <= clock + ev.rearm < base + HALF
      requires Queue() != [] && Queue()[0].node == ev.timer && Queue()[0].due <= clock
      modifies tree`root, tree`nodes, tree`order
      modifies tree.sentinel`parent, tree.sentinel`red, tree.sentinel`lo, tree.sentinel`pos, tree.sentinel`hi, tree.sentinel`bh
      modifies tree.nodes`left, tree.nodes`right, tree.nodes`parent, tree.nodes`red
      modifies tree.nodes`bh, tree.nodes`lo, tree.nodes`pos, tree.nodes`hi, ev.timer`key, ev.timer`time
      modifies ev`timerSet, ev`timedout, ev`requested
      ensures InWindow(base) && tree.nodes <= old(tree.nodes)
      ensures Expiring(q, clock, fired + [ev], delays + [ev.rearm])
    {
      Fire(ev, base);
      ExpiringNext(ev, q, fired, delays);
    }

    // Lines 62-89: one turn of the loop; null means that it ends.
    method ExpireOne(ghost q: seq<Entry>, ghost fired: seq<Event>, ghost delays: seq<Word>, ghost base: int)
      returns (ev: Event?)
      requires Expiring(q, clock, fired, delays) && InWindow(base)
      requires DelaysInWindow(base)
      modifies tree`root, tree`nodes, tree`order
      modifies tree.sentinel`parent, tree.sentinel`red, tree.sentinel`lo, tree.sentinel`pos, tree.sentinel`hi, tree.sentinel`bh
      modifies tree.nodes`left, tree.nodes`right, tree.nodes`parent, tree.nodes`red
      modifies tree.nodes`bh, tree.nodes`lo, tree.nodes`pos, tree.nodes`hi, tree.nodes`key, tree.nodes`time
      modifies container.Values`timerSet, container.Values`timedout, container.Values`requested
      ensures InWindow(base) && tree.nodes <= old(tree.nodes)
      ensures ev == null ==> Expiring(q, clock, fired, delays) && AllLater(Queue(), clock) && |fired| == DueCount(q, clock)
      ensures ev != null ==> Expiring(q, clock, fired + [ev], delays + [ev.rearm])
    {
      ExpireState(q, delays, clock, |fired|);
      var node := DueNode();
      ev := null;
      if node != null {
        ev := container[node];
        FireNext(ev, q, fired, delays, base);
      }
    }

    lemma ExpiringStart()
      requires Ok()
      ensures Expiring(Queue(), clock, [], [])
    {
      QueueOrdered();
      QueueDistinct();
      assert Queue()[..0] == [] && Queue()[0..] == Queue();
    }

    lemma SeatOf(e: Entry)
      requires Ok() && e in Queue()
      ensures e.node in tree.nodes && e.node.time == e.due
    {
      QueueOrdered();
    }

    // What was not due stays, and what has been armed again is there; q was the queue at entry.
    lemma ToldLeft(q: seq<Entry>, k: nat, delays: seq<Word>)
      requires Ok() && Ordered(q) && k == |delays| <= |q|
      requires Queue() == PlaceAll(q[k..], Rearmed(q[..k], delays, clock))
      ensures forall i :: k <= i < |q| ==> q[i].node in tree.nodes && q[i].node.time == q[i].due
      ensures forall i :: 0 <= i < k && delays[i] > 0 ==> q[i].node in tree.nodes && q[i].node.time == clock + delays[i]
      ensures forall i, j :: 0 <= i < j < |Queue()| ==> Queue()[i].due <= Queue()[j].due
    {
      LeftOrdered(q, k, delays, clock);
      forall i | k <= i < |q| ensures q[i].node in tree.nodes && q[i].node.time == q[i].due {
        LeftAndRearmed(q, k, delays, clock, q[i]);
        SeatOf(q[i]);
      }
      forall i | 0 <= i < k && delays[i] > 0 ensures q[i].node in tree.nodes && q[i].node.time == clock + delays[i] {
        LeftAndRearmed(q, k, delays, clock, Entry(q[i].node, clock + delays[i]));
        SeatOf(Entry(q[i].node, clock + delays[i]));
      }
    }

    // What fired was due.
    lemma ToldFired(q: seq<Entry>, fired: seq<Event>, delays: seq<Word>)
      requires Ordered(q) && |fired| == DueCount(q, clock) && HaveFired(q, fired, delays)
      ensures forall i :: 0 <= i < |q| ==> (q[i].due <= clock <==> i < |fired|)
      ensures forall i :: 0 <= i < |fired| ==> fired[i].timer == q[i].node && fired[i].timedout
    {
      DueIsPrefix(q, clock);
    }

    // The loop of lines 62-89.
    method ExpireDue(ghost base: int) returns (ghost fired: seq<Event>, ghost delays: seq<Word>)
      requires Ok() && InWindow(base)
      requires DelaysInWindow(base)
      modifies tree`root, tree`nodes, tree`order
      modifies tree.sentinel`parent, tree.sentinel`red, tree.sentinel`lo, tree.sentinel`pos, tree.sentinel`hi, tree.sentinel`bh
      modifies tree.nodes`left, tree.nodes`right, tree.nodes`parent, tree.nodes`red
      modifies tree.nodes`bh, tree.nodes`lo, tree.nodes`pos, tree.nodes`hi, tree.nodes`key, tree.nodes`time
      modifies container.Values`timerSet, container.Values`timedout, container.Values`requested
      ensures tree.Valid() && Linked() && InWindow(base) && Ordered(old(Queue())) && tree.nodes <= old(tree.nodes)
      ensures |fired| == |delays| == DueCount(old(Queue()), clock) && HaveFired(old(Queue()), fired, delays)
      ensures Queue() == PlaceAll(old(Queue())[|fired|..], Rearmed(old(Queue())[..|fired|], delays, clock))
      ensures AllLater(Queue(), clock)
    {
      fired, delays := [], [];
      ExpiringStart();
      ghost var q, all := Queue(), tree.nodes;
      while true
        invariant Expiring(q, clock, fired, delays) && InWindow(base) && tree.nodes <= all
        decreases DueCount(q, clock) - |fired|
      {
        var ev := ExpireOne(q, fired, delays, base);
        if ev == null {
          break;
        }
        fired, delays := fired + [ev], delays + [ev.rearm];
      }
    }

    // stu_timer_expire: exactly the entries due at entry fire, in deadline order; what
    // remains is later than now, those armed again among it.
    method Expire(ghost base: int) returns (ghost fired: seq<Event>, ghost delays: seq<Word>)
      requires Ok() && InWindow(base)
      requires DelaysInWindow(base)
      modifies tree`root, tree`nodes, tree`order
      modifies tree.sentinel`parent, tree.sentinel`red, tree.sentinel`lo, tree.sentinel`pos, tree.sentinel`hi, tree.sentinel`bh
      modifies tree.nodes`left, tree.nodes`right, tree.nodes`parent, tree.nodes`red
      modifies tree.nodes`bh, tree.nodes`lo, tree.nodes`pos, tree.nodes`hi, tree.nodes`key, tree.nodes`time
      modifies container.Values`timerSet, container.Values`timedout, container.Values`requested
      ensures tree.Valid() && Linked() && InWindow(base)
      ensures |fired| == |delays| == DueCount(old(Queue()), clock) && HaveFired(old(Queue()), fired, delays)
      ensures Queue() == PlaceAll(old(Queue())[|fired|..], Rearmed(old(Queue())[..|fired|], delays, clock))
      ensures AllLater(Queue(), clock)
      ensures forall i :: 0 <= i < |old(Queue())| ==> (old(Queue())[i].due <= clock <==> i < |fired|)
      ensures forall i :: 0 <= i < |fired| ==> fired[i].timer == old(Queue())[i].node && fired[i].timedout
      ensures forall i :: 0 <= i < |Queue()| ==> clock < Queue()[i].due
      ensures forall i, j :: 0 <= i < j < |Queue()| ==> Queue()[i].due <= Queue()[j].due
      ensures forall i :: 0 <= i < |fired| ==> (fired[i].timer in tree.nodes <==> fired[i].rearm > 0)
      ensures forall i :: 0 <= i < |fired| && fired[i].rearm > 0 ==> fired[i].timer.time == clock + fired[i].rearm
      ensures forall i :: |fired| <= i < |old(Queue())| ==>
        old(Queue())[i].node in tree.nodes && old(Queue())[i].node.time == old(Queue())[i].due
      ensures tree.nodes <= old(tree.nodes)
    {
      ghost var q := Queue();
      fired, delays := ExpireDue(base);
      ToldFired(q, fired, delays);
      ToldLeft(q, |fired|, delays);
    }
  
    ghost function Deeds(): (m: map<Node, Deed>)
      reads container.Values
      ensures m.Keys == container.Keys && forall n {:trigger container[n]} :: n in container ==>
        m[n] == Deed(container[n].cancelable, container[n].rearm)
    {
      map n | n in container :: Deed(container[n].cancelable, container[n].rearm)
    }

    method DropFirst(ev: Event, ghost q: seq<Entry>, ghost base: int)
      requires Ok() && InWindow(base) && ev.timer in tree.nodes && container[ev.timer] == ev
      requires q == Queue() && q != [] && q[0].node == ev.timer
      modifies tree`root, tree`nodes, tree`order
      modifies tree.sentinel`parent, tree.sentinel`red, tree.sentinel`lo, tree.sentinel`pos, tree.sentinel`hi, tree.sentinel`bh
      modifies tree.nodes`left, tree.nodes`right, tree.nodes`parent, tree.nodes`red
      modifies tree.nodes`bh, tree.nodes`lo, tree.nodes`pos, tree.nodes`hi, ev.timer`key, ev`timerSet
      ensures tree.Valid() && Linked() && !ev.timerSet && tree.nodes == old(tree.nodes) - {ev.timer} && Queue() == q[1..]
      ensures InWindow(base)
    {
      WithoutFirst(ev);
      DelLocked(ev);
    }

    // Lines 114-130 for the first entry of the queue.
    method CancelFirst(ev: Event, ghost q: seq<Entry>, ghost base: int)
      requires Ok() && InWindow(base) && ev.timer in tree.nodes && container[ev.timer] == ev
      requires ev.rearm > 0 ==> base <= clock + ev.rearm < base + HALF
      requires q == Queue() && q != [] && q[0].node == ev.timer
      modifies tree`root, tree`nodes, tree`order
      modifies tree.sentinel`parent, tree.sentinel`red, tree.sentinel`lo, tree.sentinel`pos, tree.sentinel`hi, tree.sentinel`bh
      modifies tree.nodes`left, tree.nodes`right, tree.nodes`parent, tree.nodes`red
      modifies tree.nodes`bh, tree.nodes`lo, tree.nodes`pos, tree.nodes`hi
      modifies ev.timer`left, ev.timer`right, ev.timer`parent, ev.timer`red
      modifies ev.timer`bh, ev.timer`lo, ev.timer`pos, ev.timer`hi, ev.timer`key, ev.timer`time
      modifies ev`timerSet, ev`requested
      ensures tree.Valid() && Linked() && InWindow(base) && tree.nodes <= old(tree.nodes)
      ensures Queue() == Again(ev.timer, q[1..], clock, ev.rearm) && (ev.timerSet <==> ev.rearm > 0)
    {
      DropFirst(ev, q, base);
      Handler(ev, base);
    }

    lemma WithoutFirst(ev: Event)
      requires Ok() && Queue() != [] && Queue()[0].node == ev.timer
      ensures Without(Queue(), ev.timer) == Queue()[1..]
    {
      QueueDistinct();
      WithoutAt(Queue(), ev.timer, 0);
    }

    twostate lemma DeedsSame()
      requires forall n {:trigger container[n]} :: n in container ==>
        container[n].cancelable == old(container[n].cancelable) && container[n].rearm == old(container[n].rearm)
      ensures Deeds() == old(Deeds())
    {
    }

    method CancelHere(ev: Event, ghost q: seq<Entry>, ghost deeds: map<Node, Deed>, ghost base: int)
      requires Ok() && InWindow(base) && ev.timer in tree.nodes && container[ev.timer] == ev && ev.cancelable
      requires ev.rearm > 0 ==> base <= clock + ev.rearm < base + HALF
      requires q == Queue() && q != [] && q[0].node == ev.timer && deeds == Deeds()
      modifies tree`root, tree`nodes, tree`order
      modifies tree.sentinel`parent, tree.sentinel`red, tree.sentinel`lo, tree.sentinel`pos, tree.sentinel`hi, tree.sentinel`bh
      modifies tree.nodes`left, tree.nodes`right, tree.nodes`parent, tree.nodes`red
      modifies tree.nodes`bh, tree.nodes`lo, tree.nodes`pos, tree.nodes`hi
      modifies ev.timer`left, ev.timer`right, ev.timer`parent, ev.timer`red
      modifies ev.timer`bh, ev.timer`lo, ev.timer`pos, ev.timer`hi, ev.timer`key, ev.timer`time
      modifies ev`timerSet, ev`requested
      ensures tree.Valid() && Linked() && InWindow(base) && tree.nodes <= old(tree.nodes)
      ensures Deeds() == deeds && CancelTurn(q, clock, deeds) == Some(Queue()) && (ev.timerSet <==> ev.rearm > 0)
    {
      CancelFirst(ev, q, base);
      DeedsSame();
    }

    // Lines 107-116: the event of the first entry, null if the loop ends.
    method FirstCancelable() returns (ev: Event?)
      requires Ok()
      ensures Queue() != [] ==> Queue()[0].node in container
      ensures ev == null <==> Queue() == [] || !container[Queue()[0].node].cancelable
      ensures ev != null ==> ev == container[Queue()[0].node] && ev.timer == Queue()[0].node && ev.timer in tree.nodes
    {
      var node := FirstNode();
      if node == null {
        return null;
      }
      ev := container[node];
      if !ev.cancelable {
        return null;
      }
    }

    // Lines 106-131: one turn of the loop of stu_timer_cancel; null means that it ends.
    method CancelOne(ghost q: seq<Entry>, ghost deeds: map<Node, Deed>, ghost base: int) returns (ev: Event?)
      requires Ok() && InWindow(base) && DelaysInWindow(base) && q == Queue() && deeds == Deeds()
      modifies tree`root, tree`nodes, tree`order
      modifies tree.sentinel`parent, tree.sentinel`red, tree.sentinel`lo, tree.sentinel`pos, tree.sentinel`hi, tree.sentinel`bh
      modifies tree.nodes`left, tree.nodes`right, tree.nodes`parent, tree.nodes`red
      modifies tree.nodes`bh, tree.nodes`lo, tree.nodes`pos, tree.nodes`hi, tree.nodes`key, tree.nodes`time
      modifies container.Values`timerSet, container.Values`requested
      ensures tree.Valid() && Linked() && InWindow(base) && tree.nodes <= old(tree.nodes) && Deeds() == deeds
      ensures CancelTurn(q, clock, deeds) == if ev == null then None else Some(Queue())
      ensures ev == null ==> Queue() == q
      ensures ev != null ==> ev.timer == q[0].node && (ev.timerSet <==> ev.rearm > 0)
      ensures q != [] ==> q[0].node in container
      ensures ev == null <==> q == [] || !container[q[0].node].cancelable
      ensures ev != null ==> ev == container[q[0].node]
    {
      ev := FirstCancelable();
      if ev != null {
        WaitsInWindow(ev, base);
        CancelHere(ev, q, deeds, base);
      }
    }

    // The state of the loop of stu_timer_cancel: q was the queue at entry, its first i entries
    // have been cancelled.
    ghost predicate Cancelling(q: seq<Entry>, deeds: map<Node, Deed>, i: nat)
      reads this, tree, tree.nodes, tree.sentinel, tree.order, container.Values
    {
      && tree.Valid() && Linked() && Deeds() == deeds
      && i <= FirstKept(q, deeds) && Queue() == Cancelled(q, clock, deeds, i)
    }

    method CancelMore(ghost q: seq<Entry>, ghost deeds: map<Node, Deed>, ghost i: nat, ghost base: int) returns (ev: Event?)
      requires Cancelling(q, deeds, i) && Ordered(q) && CancelEnds(q, clock, deeds)
      requires InWindow(base) && DelaysInWindow(base)
      modifies tree`root, tree`nodes, tree`order
      modifies tree.sentinel`parent, tree.sentinel`red, tree.sentinel`lo, tree.sentinel`pos, tree.sentinel`hi, tree.sentinel`bh
      modifies tree.nodes`left, tree.nodes`right, tree.nodes`parent, tree.nodes`red
      modifies tree.nodes`bh, tree.nodes`lo, tree.nodes`pos, tree.nodes`hi, tree.nodes`key, tree.nodes`time
      modifies container.Values`timerSet, container.Values`requested
      ensures InWindow(base) && tree.nodes <= old(tree.nodes)
      ensures ev == null ==> Cancelling(q, deeds, i) && i == FirstKept(q, deeds)
      ensures ev != null ==> Cancelling(q, deeds, i + 1)
    {
      CancelNext(q, clock, deeds, i);
      ev := CancelOne(Queue(), deeds, base);
    }

    // What was cancelled and not armed again is gone.
    lemma ToldGone(q: seq<Entry>, k: nat, delays: seq<Word>)
      requires Ok() && Distinct(q) && k == |delays| <= |q|
      requires Queue() == PlaceAll(q[k..], Rearmed(q[..k], delays, clock))
      ensures forall i :: 0 <= i < k && delays[i] == 0 ==> q[i].node !in tree.nodes
    {
      QueueOrdered();
      forall i | 0 <= i < k && q[i].node in tree.nodes ensures delays[i] > 0 {
        LeftAndRearmed(q, k, delays, clock, Queue()[q[i].node.pos]);
      }
    }

    // The loop of lines 106-131, where it ends.
    method CancelAll(ghost base: int)
      requires Ok() && InWindow(base) && DelaysInWindow(base) && CancelEnds(Queue(), clock, Deeds())
      modifies tree`root, tree`nodes, tree`order
      modifies tree.sentinel`parent, tree.sentinel`red, tree.sentinel`lo, tree.sentinel`pos, tree.sentinel`hi, tree.sentinel`bh
      modifies tree.nodes`left, tree.nodes`right, tree.nodes`parent, tree.nodes`red
      modifies tree.nodes`bh, tree.nodes`lo, tree.nodes`pos, tree.nodes`hi, tree.nodes`key, tree.nodes`time
      modifies container.Values`timerSet, container.Values`requested
      ensures tree.Valid() && Linked() && InWindow(base) && Deeds() == old(Deeds()) && tree.nodes <= old(tree.nodes)
      ensures var q := old(Queue());
        var k := FirstKept(q, Deeds());
        && Queue() == PlaceAll(q[k..], Rearmed(q[..k], Delays(q, Deeds(), k), clock))
        && if k < |q| then Queue() != [] && Queue()[0] == q[k] else Queue() == []
    {
      QueueOrdered();
      ghost var q, deeds, all, i := Queue(), Deeds(), tree.nodes, 0;
      CancelStart(q, clock, deeds);
      while true
        invariant Cancelling(q, deeds, i) && InWindow(base) && tree.nodes <= all
        decreases FirstKept(q, deeds) - i
      {
        var ev := CancelMore(q, deeds, i, base);
        if ev == null {
          break;
        }
        i := i + 1;
      }
      CancelDone(q, clock, deeds);
    }

    // Which entries are cancelled, in terms of their events.
    lemma ToldDeeds(q: seq<Entry>, deeds: map<Node, Deed>)
      requires deeds == Deeds() && forall i :: 0 <= i < |q| ==> q[i].node in container
      ensures var k := FirstKept(q, deeds);
        && (forall i :: 0 <= i < k ==> container[q[i].node].cancelable && Delays(q, deeds, k)[i] == container[q[i].node].rearm)
        && (k < |q| ==> !container[q[k].node].cancelable)
    {
    }

    lemma QueueHeld()
      requires Ok()
      ensures forall i :: 0 <= i < |Queue()| ==> Queue()[i].node in container
    {
      QueueOrdered();
    }

    // stu_timer_cancel, where it ends: the entries in front of the first that may not be
    // cancelled are cancelled, in order, and those armed again by their handlers come behind it.
    method Cancel(ghost base: int)
      requires Ok() && InWindow(base) && DelaysInWindow(base) && CancelEnds(Queue(), clock, Deeds())
      modifies tree`root, tree`nodes, tree`order
      modifies tree.sentinel`parent, tree.sentinel`red, tree.sentinel`lo, tree.sentinel`pos, tree.sentinel`hi, tree.sentinel`bh
      modifies tree.nodes`left, tree.nodes`right, tree.nodes`parent, tree.nodes`red
      modifies tree.nodes`bh, tree.nodes`lo, tree.nodes`pos, tree.nodes`hi, tree.nodes`key, tree.nodes`time
      modifies container.Values`timerSet, container.Values`requested
      ensures tree.Valid() && Linked() && InWindow(base) && Deeds() == old(Deeds()) && tree.nodes <= old(tree.nodes)
      ensures var q := old(Queue());
        var k := FirstKept(q, Deeds());
        && Queue() == PlaceAll(q[k..], Rearmed(q[..k], Delays(q, Deeds(), k), clock))
        && if k < |q| then Queue() != [] && Queue()[0] == q[k] else Queue() == []
      ensures forall i :: 0 <= i < |old(Queue())| ==> old(Queue())[i].node in container
      ensures var q := old(Queue());
        var k := FirstKept(q, Deeds());
        && (forall i :: 0 <= i < k ==> container[q[i].node].cancelable)
        && (k < |q| ==> !container[q[k].node].cancelable)
        && (forall i :: 0 <= i < k ==> (q[i].node in tree.nodes <==> container[q[i].node].rearm > 0))
        && (forall i :: 0 <= i < k && container[q[i].node].rearm > 0 ==> q[i].node.time == clock + container[q[i].node].rearm)
        && (forall i :: k <= i < |q| ==> q[i].node in tree.nodes && q[i].node.time == q[i].due)
      ensures forall i, j :: 0 <= i < j < |Queue()| ==> Queue()[i].due <= Queue()[j].due
    {
      QueueOrdered();
      QueueDistinct();
      QueueHeld();
      ghost var q, deeds := Queue(), Deeds();
      ghost var k := FirstKept(q, deeds);
      ToldDeeds(q, deeds);
      CancelAll(base);
      ToldDeeds(q, deeds);
      ToldLeft(q, k, Delays(q, deeds, k));
      ToldGone(q, k, Delays(q, deeds, k));
    }

    // stu_time_update moves the clock.
    method Advance(msec: int)
      requires Ok()
      modifies this
      ensures Ok() && clock == msec && Queue() == old(Queue())
    {
      currentMsec := Wrap(msec);
      clock := msec;
    }
  }
}
