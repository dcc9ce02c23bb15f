// Circular doubly linked rings with a sentinel: the macros of stu_queue.h.
module Queue {
  // A link embedded in a structure. `data` is the enclosing structure (stu_queue_data), null
  // for a sentinel; `ring` numbers the ring that the link is meant for.
  class Link<T> {
    var prev: Link?<T>
    var next: Link?<T>
    var data: T
    ghost const ring: int

    constructor (data: T, ghost ring: int)
      ensures this.data == data && this.ring == ring
    {
      this.data, this.ring := data, ring;
      prev, next := null, null;
    }
  }

  // The ring of sentinel h holds the links s, in order and in both directions.
  ghost predicate Ring<T>(h: Link<T>, s: seq<Link<T>>)
    reads h, s
  {
    && h !in s
    && (forall i, j {:trigger s[i], s[j]} :: 0 <= i < j < |s| ==> s[i] != s[j])
    && h.next == (if s == [] then h else s[0])
    && h.prev == (if s == [] then h else s[|s| - 1])
    && (forall i {:trigger s[i].next} :: 0 <= i < |s| ==> s[i].next == (if i + 1 < |s| then s[i + 1] else h))
    && (forall i {:trigger s[i].prev} :: 0 <= i < |s| ==> s[i].prev == (if i > 0 then s[i - 1] else h))
  }

  // Next and previous links of a ring lead back to each other.
  lemma RingLinks<T>(h: Link<T>, s: seq<Link<T>>, i: nat)
    requires Ring(h, s) && i < |s|
    ensures s[i].next == (if i + 1 < |s| then s[i + 1] else h) && s[i].next.prev == s[i]
    ensures s[i].prev == (if i > 0 then s[i - 1] else h) && s[i].prev.next == s[i]
  {
    assert i + 1 < |s| ==> s[i + 1].prev == s[i];
    assert i > 0 ==> s[i - 1].next == s[i];
  }

  method Init<T>(q: Link<T>)
    modifies q`prev, q`next
    ensures Ring(q, [])
  {
    q.prev := q;
    q.next := q;
  }

  method InsertTail<T>(h: Link<T>, x: Link<T>, ghost s: seq<Link<T>>)
    requires Ring(h, s) && x != h && x !in s
    modifies x`prev, x`next, h`prev, h`next, s`next
    ensures Ring(h, s + [x])
  {
    assert s != [] ==> h.prev == s[|s| - 1];
    x.prev := h.prev;
    x.next := h;
    h.prev.next := x;
    h.prev := x;
  }

  // stu_queue_remove up to its reset: the link is out, and still points into the ring.
  method Bypass<T>(h: Link<T>, x: Link<T>, ghost s: seq<Link<T>>, ghost i: nat)
    requires Ring(h, s) && i < |s| && s[i] == x
    modifies h`prev, h`next, s`prev, s`next
    ensures Ring(h, s[..i] + s[i + 1..])
    ensures x.next == (if i + 1 < |s| then s[i + 1] else h)
  {
    ghost var t := s[..i] + s[i + 1..];
    assert forall k :: 0 <= k < |t| ==> t[k] == s[if k < i then k else k + 1];
    assert x.next == (if i + 1 < |s| then s[i + 1] else h);
    assert x.prev == (if i > 0 then s[i - 1] else h);
    x.next.prev := x.prev;
    x.prev.next := x.next;
  }

  // stu_queue_remove.
  method Remove<T>(h: Link<T>, x: Link<T>, ghost s: seq<Link<T>>, ghost i: nat)
    requires Ring(h, s) && i < |s| && s[i] == x
    modifies h`prev, h`next, s`prev, s`next
    ensures Ring(h, s[..i] + s[i + 1..])
    ensures x.prev == x.next == null
  {
    Bypass(h, x, s, i);
    assert x !in s[..i] + s[i + 1..];
    x.prev := null;
    x.next := null;
  }

  // The two ways of taking a link out; the second keeps a walk over the ring alive.
  method TakeOut<T>(h: Link<T>, x: Link<T>, ghost s: seq<Link<T>>, ghost i: nat, reset: bool)
    requires Ring(h, s) && i < |s| && s[i] == x
    modifies h`prev, h`next, s`prev, s`next
    ensures Ring(h, s[..i] + s[i + 1..])
    ensures !reset ==> x.next == (if i + 1 < |s| then s[i + 1] else h)
  {
    if reset {
      Remove(h, x, s, i);
    } else {
      Bypass(h, x, s, i);
    }
  }
}
