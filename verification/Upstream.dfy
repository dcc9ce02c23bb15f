// The choice of a server in stu_upstream.c: round robin with weights.
module Upstream {
  import opened Bytes
  import opened Queue

  // ----- The schedule -----------------------------------------------------------------

  // The weights of the first i servers.
  function Prefix(ws: seq<nat>, i: nat): nat
    requires i <= |ws|
  {
    if i == 0 then 0 else Prefix(ws, i - 1) + ws[i - 1]
  }

  function Total(ws: seq<nat>): nat {
    Prefix(ws, |ws|)
  }

  lemma {:induction false} PrefixGrows(ws: seq<nat>, i: nat, j: nat)
    requires i <= j <= |ws|
    ensures Prefix(ws, i) <= Prefix(ws, j)
    decreases j - i
  {
    if i < j {
      PrefixGrows(ws, i, j - 1);
    }
  }

  // The server whose turn it is at place p of a period: each has as many places in a row as
  // its weight.
  function ServerFrom(ws: seq<nat>, p: nat, i: nat): (k: nat)
    requires i <= |ws| && Prefix(ws, i) <= p < Total(ws)
    ensures i <= k < |ws| && Prefix(ws, k) <= p < Prefix(ws, k + 1)
    decreases |ws| - i
  {
    if p < Prefix(ws, i + 1) then i else ServerFrom(ws, p, i + 1)
  }

  function ServerAt(ws: seq<nat>, p: nat): (k: nat)
    requires p < Total(ws)
    ensures k < |ws| && Prefix(ws, k) <= p < Prefix(ws, k + 1)
  {
    ServerFrom(ws, p, 0)
  }

  lemma ServerIs(ws: seq<nat>, p: nat, k: nat)
    requires k < |ws| && Prefix(ws, k) <= p < Prefix(ws, k + 1)
    ensures p < Total(ws) && ServerAt(ws, p) == k
  {
    PrefixGrows(ws, k + 1, |ws|);
    var i := ServerAt(ws, p);
    if i < k {
      PrefixGrows(ws, i + 1, k);
    } else if k < i {
      PrefixGrows(ws, k + 1, i);
    }
  }

  // The place that is filled next: behind the last one the period starts again.
  function NextPlace(ws: seq<nat>, p: nat): nat
    requires p <= Total(ws)
  {
    if p == Total(ws) then 0 else p
  }

  // n choices when places up to p are filled.
  function Choices(ws: seq<nat>, p: nat, n: nat): (r: seq<nat>)
    requires 0 < Total(ws) && p <= Total(ws)
    ensures |r| == n
    decreases n
  {
    if n == 0 then []
    else
      var q := NextPlace(ws, p);
      [ServerAt(ws, q)] + Choices(ws, q + 1, n - 1)
  }

  // The places of the period from p on, as far as n.
  function Places(ws: seq<nat>, p: nat, n: nat): (r: seq<nat>)
    requires p <= n <= Total(ws)
    ensures |r| == n - p
    decreases n - p
  {
    if p == n then [] else [ServerAt(ws, p)] + Places(ws, p + 1, n)
  }

  // A period from place p on: first its rest, then the part in front of p.
  lemma {:induction false} ChoicesArePlaces(ws: seq<nat>, p: nat, n: nat)
    requires 0 < Total(ws) && p <= Total(ws) && n <= Total(ws)
    ensures Choices(ws, p, n) ==
      if p + n <= Total(ws) then Places(ws, p, p + n) else Places(ws, p, Total(ws)) + Places(ws, 0, p + n - Total(ws))
    decreases n
  {
    if n > 0 {
      var q, w := NextPlace(ws, p), Total(ws);
      ChoicesArePlaces(ws, q + 1, n - 1);
      if q != p {
        assert Places(ws, p, w) == [];
        assert q + n <= w && Choices(ws, p, n) == Places(ws, 0, n);
      } else if p + n <= w {
        assert Choices(ws, p, n) == Places(ws, p, p + n);
      } else {
        assert Places(ws, p, w) == [ServerAt(ws, p)] + Places(ws, p + 1, w);
      }
    }
  }

  function Count(s: seq<nat>, i: nat): nat {
    if s == [] then 0 else (if s[0] == i then 1 else 0) + Count(s[1..], i)
  }

  lemma {:induction false} CountConcat(a: seq<nat>, b: seq<nat>, i: nat)
    ensures Count(a + b, i) == Count(a, i) + Count(b, i)
  {
    if a == [] {
      assert a + b == b;
    } else {
      assert (a + b)[1..] == a[1..] + b;
      CountConcat(a[1..], b, i);
    }
  }

  lemma {:induction false} PlacesSplit(ws: seq<nat>, p: nat, q: nat, n: nat)
    requires p <= q <= n <= Total(ws)
    ensures Places(ws, p, n) == Places(ws, p, q) + Places(ws, q, n)
    decreases q - p
  {
    if p < q {
      PlacesSplit(ws, p + 1, q, n);
    }
  }

  // How many of the places from p on fall to server i.
  function Share(ws: seq<nat>, p: nat, i: nat): nat
    requires i < |ws|
  {
    if p <= Prefix(ws, i) then ws[i] else if p <= Prefix(ws, i + 1) then Prefix(ws, i + 1) - p else 0
  }

  lemma {:induction false} CountPlaces(ws: seq<nat>, p: nat, i: nat)
    requires p <= Total(ws) && i < |ws|
    ensures Count(Places(ws, p, Total(ws)), i) == Share(ws, p, i)
    decreases Total(ws) - p
  {
    PrefixGrows(ws, i + 1, |ws|);
    if p < Total(ws) {
      CountPlaces(ws, p + 1, i);
      var k := ServerAt(ws, p);
      if k < i {
        PrefixGrows(ws, k + 1, i);
      } else if i < k {
        PrefixGrows(ws, i + 1, k);
      }
    }
  }

  lemma {:induction false} CountIs(s: seq<nat>, i: nat)
    ensures Count(s, i) == multiset(s)[i]
  {
    if s != [] {
      CountIs(s[1..], i);
      assert s == [s[0]] + s[1..];
    }
  }

  lemma TotalPositive(ws: seq<nat>)
    ensures Total(ws) > 0 <==> exists i :: 0 <= i < |ws| && ws[i] > 0
  {
    PrefixPositive(ws, |ws|);
  }

  lemma {:induction false} PrefixPositive(ws: seq<nat>, n: nat)
    requires n <= |ws|
    ensures Prefix(ws, n) > 0 <==> exists i :: 0 <= i < n && ws[i] > 0
  {
    if n > 0 {
      PrefixPositive(ws, n - 1);
    }
  }

  // The main result: in any row of choices as long as the sum of the weights, each server is
  // chosen exactly as often as its weight says.
  lemma Fair(ws: seq<nat>, p: nat, i: nat)
    requires 0 < Total(ws) && p <= Total(ws) && i < |ws|
    ensures Count(Choices(ws, p, Total(ws)), i) == multiset(Choices(ws, p, Total(ws)))[i] == ws[i]
  {
    CountIs(Choices(ws, p, Total(ws)), i);
    var w := Total(ws);
    ChoicesArePlaces(ws, p, w);
    PlacesSplit(ws, 0, p, w);
    assert p + w <= w ==> Places(ws, w, w) == [];
    CountConcat(Places(ws, 0, p), Places(ws, p, w), i);
    CountConcat(Places(ws, p, w), Places(ws, 0, p), i);
    CountPlaces(ws, 0, i);
  }

  // ----- The choice -------------------------------------------------------------------

  class Server {
    const weight: nat

    constructor (weight: nat)
      ensures this.weight == weight
    {
      this.weight := weight;
    }
  }

  // The place in the period that is filled when server `at` was chosen `size` times in a row.
  function Place(ws: seq<nat>, at: nat, size: nat): (p: nat)
    requires at < |ws| && size <= ws[at]
    ensures p <= Total(ws)
  {
    PrefixGrows(ws, at + 1, |ws|);
    Prefix(ws, at) + size
  }

  // The servers to pass until the next choice: ahead in the list, or once around it.
  function Ahead(ws: seq<nat>, at: nat, size: nat): (n: nat)
    requires at < |ws| && size <= ws[at]
    ensures size < ws[at] ==> n == 0 && Place(ws, at, size) < Total(ws) && ServerAt(ws, Place(ws, at, size)) == at
  {
    var p := Place(ws, at, size);
    if p < Total(ws) then
      AheadOk(ws, at, size);
      ServerAt(ws, p) - at
    else
      FullPlace(ws, at, size);
      2 * |ws| - at
  }

  lemma AheadOk(ws: seq<nat>, at: nat, size: nat)
    requires at < |ws| && size <= ws[at] && Place(ws, at, size) < Total(ws)
    ensures at <= ServerAt(ws, Place(ws, at, size)) && (size < ws[at] ==> ServerAt(ws, Place(ws, at, size)) == at)
  {
    var p := Place(ws, at, size);
    var k := ServerAt(ws, p);
    if size < ws[at] {
      ServerIs(ws, p, at);
    } else if k < at {
      PrefixGrows(ws, k + 1, at);
    }
  }

  lemma FullPlace(ws: seq<nat>, at: nat, size: nat)
    requires at < |ws| && size <= ws[at] && Place(ws, at, size) == Total(ws)
    ensures size == ws[at]
  {
    PrefixGrows(ws, at + 1, |ws|);
  }

  // Going on to the next server keeps the place and comes nearer to the next choice.
  lemma PassKeeps(ws: seq<nat>, at: nat)
    requires at < |ws| && Total(ws) > 0
    ensures var at2 := if at + 1 < |ws| then at + 1 else 0;
      NextPlace(ws, Place(ws, at2, 0)) == NextPlace(ws, Place(ws, at, ws[at])) && Ahead(ws, at2, 0) < Ahead(ws, at, ws[at])
  {
    assert Place(ws, at, ws[at]) == Prefix(ws, at + 1);
  }

  // No server behind a and in front of b, round the end of the list, has a weight.
  predicate Between(ws: seq<nat>, a: nat, b: nat)
    requires a < |ws| && b < |ws|
  {
    if a < b then forall i :: a < i < b ==> ws[i] == 0
    else (forall i :: a < i < |ws| ==> ws[i] == 0) && (forall i :: 0 <= i < b ==> ws[i] == 0)
  }

  // The list of servers; `obj` is the current one, `size` how often it was chosen in a row.
  class Servers {
    const head: Link<Server?>
    var length: nat
    var obj: Link?<Server?>
    var size: nat

    ghost var links: seq<Link<Server?>>
    ghost var weights: seq<nat>
    ghost var at: nat  // where `obj` is in the list

    ghost predicate Valid()
      reads this, head, links
    {
      && Ring(head, links) && length == |links| == |weights|
      && (forall i {:trigger links[i]} :: 0 <= i < |links| ==> links[i].data != null && links[i].data.weight == weights[i])
      && (obj != null ==> at < |links| && links[at] == obj && size <= weights[at])
    }

    // The place in the period that the last choice has filled.
    ghost function Filled(): (p: nat)
      reads this, head, links
      requires Valid()
      ensures p <= Total(weights)
    {
      if obj == null then 0 else Place(weights, at, size)
    }

    constructor ()
      ensures Valid() && links == [] && obj == null && fresh(head)
    {
      head := new Link<Server?>(null, 0);
      length, size, links, weights, at := 0, 0, [], [], 0;
      obj := null;
      new;
      Init(head);
    }

    method Push(server: Server)
      requires Valid()
      modifies this`length, this`links, this`weights, head`prev, head`next, links`next
      ensures Valid() && weights == old(weights) + [server.weight] && obj == old(obj)
      ensures |links| == |old(links)| + 1 && old(links) <= links && fresh(links[|old(links)|])
    {
      var elt := new Link<Server?>(server, 0);
      InsertTail(head, elt, links);
      links := links + [elt];
      weights := weights + [server.weight];
      length := length + 1;
    }

    // Lines 63-71: on to the next server, when the current one has had its share.
    method Pass()
      requires Valid() && obj != null && size == weights[at] && Total(weights) > 0
      modifies this`obj, this`size, this`at
      ensures Valid() && obj != null && at == (if old(at) + 1 < |links| then old(at) + 1 else 0) && size == 0
    {
      assert links[at].next == (if at + 1 < |links| then links[at + 1] else head);
      var q := obj.next;
      if q == head {
        q := head.next;
      }
      obj, size, at := q, 0, if at + 1 < |links| then at + 1 else 0;
    }

    // Lines 52-75 and 229-252. Without a positive weight the loop would not end.
    method Choose() returns (s: Server?)
      requires Valid() && (links != [] ==> Total(weights) > 0)
      modifies this`obj, this`size, this`at
      ensures Valid()
      ensures links == [] ==> s == null && obj == old(obj) && size == old(size)
      ensures links != [] ==>
        var p := NextPlace(weights, old(Filled())); s == links[ServerAt(weights, p)].data && Filled() == p + 1
      // a new list begins with its first server that has a weight
      ensures links != [] ==> obj != null && at < |links| && obj == links[at] && s == links[at].data && 0 < size <= weights[at]
      ensures links != [] && old(obj) == null ==> size == 1 && forall i :: 0 <= i < at ==> weights[i] == 0
      // a server has its share before the next one that has a weight
      ensures links != [] && old(obj) != null && old(size) < weights[old(at)] ==> at == old(at) && size == old(size) + 1
      ensures links != [] && old(obj) != null && old(size) >= weights[old(at)] ==>
        && size == 1 && (forall i :: old(at) < i < at || (at <= old(at) < i < |weights|) ==> weights[i] == 0)
        && (at <= old(at) ==> forall i :: 0 <= i < at ==> weights[i] == 0)
    {
      if length == 0 {
        return null;
      }
      if obj == null {
        assert links[0].data != null;
        obj, size, at := head.next, 0, 0;
      }
      s := Search();
    }

    // Where the loop is: at the server that it began with, or with a new one.
    ghost predicate Passing(from: nat, had: nat)
      reads this, head, links
    {
      && Valid() && obj != null && from < |weights|
      && ((at == from && size == had) || (size == 0 && had >= weights[from] && Between(weights, from, at)))
    }

    method PassOn(ghost from: nat, ghost had: nat)
      requires Passing(from, had) && size == weights[at] && Total(weights) > 0
      modifies this`obj, this`size, this`at
      ensures Passing(from, had) && Filled() == Place(weights, at, 0) && size == 0
      ensures at == if old(at) + 1 < |weights| then old(at) + 1 else 0
    {
      Pass();
    }

    // The loop of lines 62-73.
    method Search() returns (s: Server?)
      requires Valid() && obj != null && Total(weights) > 0
      modifies this`obj, this`size, this`at
      ensures Valid() && obj != null && s == links[at].data && 0 < size <= weights[at]
      ensures var p := NextPlace(weights, old(Filled())); s == links[ServerAt(weights, p)].data && Filled() == p + 1
      ensures old(size) < weights[old(at)] ==> at == old(at) && size == old(size) + 1
      ensures old(size) >= weights[old(at)] ==> size == 1 && Between(weights, old(at), at)
    {
      ghost var filled, from, had := Filled(), at, size;
      s := obj.data;
      while true
        invariant Passing(from, had) && s == obj.data && s != null
        invariant NextPlace(weights, Filled()) == NextPlace(weights, filled)
        decreases Ahead(weights, at, size)
      {
        var lost := size;
        assert links[at].data.weight == weights[at];
        if lost < s.weight {
          size := lost + 1;
          assert Ahead(weights, at, lost) == 0;
          return;
        }
        PassKeeps(weights, at);
        PassOn(from, had);
        assert links[at].data != null;
        s := obj.data;
      }
    }
  }

  // ----- Without a positive weight ----------------------------------------------------

  // The loop as steps: on from a server that has had its share, or out of the loop.
  function Turn(ws: seq<nat>, at: nat, size: nat): Option<(nat, nat)>
    requires at < |ws|
  {
    if size < ws[at] then None else Some((if at + 1 < |ws| then at + 1 else 0, 0))
  }

  function Turns(ws: seq<nat>, at: nat, size: nat, n: nat): Option<(nat, nat)>
    requires at < |ws|
    decreases n
  {
    if n == 0 then Some((at, size))
    else
      match Turn(ws, at, size)
      case None => None
      case Some((at2, size2)) => Turns(ws, at2, size2, n - 1)
  }

  lemma {:induction false} NeverEnds(ws: seq<nat>, at: nat, size: nat, n: nat)
    requires at < |ws| && Total(ws) == 0
    ensures Turns(ws, at, size, n) != None
    decreases n
  {
    if n > 0 {
      PrefixGrows(ws, at + 1, |ws|);
      var t := Turn(ws, at, size).value;
      NeverEnds(ws, t.0, t.1, n - 1);
    }
  }

  lemma {:induction false} Ends(ws: seq<nat>, at: nat, size: nat)
    requires at < |ws| && size <= ws[at] && Total(ws) > 0
    ensures Turns(ws, at, size, Ahead(ws, at, size) + 1) == None
    decreases Ahead(ws, at, size)
  {
    if size == ws[at] {
      PassKeeps(ws, at);
      var at2 := if at + 1 < |ws| then at + 1 else 0;
      Ends(ws, at2, 0);
      MoreTurns(ws, at2, 0, Ahead(ws, at2, 0) + 1, Ahead(ws, at, size));
    }
  }

  lemma {:induction false} MoreTurns(ws: seq<nat>, at: nat, size: nat, n: nat, m: nat)
    requires at < |ws| && n <= m && Turns(ws, at, size, n) == None
    ensures Turns(ws, at, size, m) == None
    decreases n
  {
    match Turn(ws, at, size)
    case None =>
    case Some((at2, size2)) => MoreTurns(ws, at2, size2, n - 1, m - 1);
  }

  // The loop ends exactly if some weight is positive, and then it has passed at most twice as
  // many servers as there are.
  lemma EndsIff(ws: seq<nat>, at: nat, size: nat)
    requires at < |ws| && size <= ws[at]
    ensures Turns(ws, at, size, 2 * |ws| + 1) == None <==> Total(ws) > 0
    ensures Total(ws) == 0 ==> forall n: nat :: Turns(ws, at, size, n) != None
  {
    if Total(ws) > 0 {
      Ends(ws, at, size);
      MoreTurns(ws, at, size, Ahead(ws, at, size) + 1, 2 * |ws| + 1);
    } else {
      forall n: nat ensures Turns(ws, at, size, n) != None {
        NeverEnds(ws, at, size, n);
      }
    }
  }

  // ----- A row of choices -------------------------------------------------------------

  method ChooseNext(servers: Servers, ghost n: nat, ghost rest: seq<nat>) returns (s: Server?, ghost k: nat, ghost more: seq<nat>)
    requires servers.Valid() && servers.links != [] && Total(servers.weights) > 0 && n > 0
    requires rest == Choices(servers.weights, servers.Filled(), n)
    modifies servers`obj, servers`size, servers`at
    ensures servers.Valid() && k < |servers.links| && s == servers.links[k].data
    ensures rest == [k] + more && more == Choices(servers.weights, servers.Filled(), n - 1)
  {
    k := ServerAt(servers.weights, NextPlace(servers.weights, servers.Filled()));
    s := servers.Choose();
    more := Choices(servers.weights, servers.Filled(), n - 1);
  }

  ghost predicate Picked(links: seq<Link<Server?>>, chosen: seq<Server?>, at: seq<nat>)
    reads links
  {
    |chosen| == |at| && forall j :: 0 <= j < |at| ==> at[j] < |links| && chosen[j] == links[at[j]].data
  }

  lemma PickedMore(links: seq<Link<Server?>>, chosen: seq<Server?>, at: seq<nat>, s: Server?, k: nat)
    requires Picked(links, chosen, at) && k < |links| && s == links[k].data
    ensures Picked(links, chosen + [s], at + [k])
  {
  }

  // Whoever asks: n choices in a row are those of the schedule.
  method ChooseMany(servers: Servers, n: nat) returns (chosen: seq<Server?>, ghost at: seq<nat>)
    requires servers.Valid() && servers.links != [] && Total(servers.weights) > 0
    modifies servers`obj, servers`size, servers`at
    ensures servers.Valid()
    ensures at == Choices(servers.weights, old(servers.Filled()), n) && |chosen| == n
    ensures forall j :: 0 <= j < n ==> at[j] < |servers.links| && chosen[j] == servers.links[at[j]].data
  {
    chosen, at := [], [];
    ghost var all := Choices(servers.weights, servers.Filled(), n);
    ghost var rest := all;
    for i := 0 to n
      invariant servers.Valid() && |at| == i && Picked(servers.links, chosen, at)
      invariant rest == Choices(servers.weights, servers.Filled(), n - i) && all == at + rest
    {
      var s;
      ghost var k, more;
      s, k, more := ChooseNext(servers, n - i, rest);
      PickedMore(servers.links, chosen, at, s, k);
      Regroup(at, [k], more);
      chosen, at, rest := chosen + [s], at + [k], more;
    }
  }
}
