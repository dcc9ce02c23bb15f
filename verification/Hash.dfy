// The hash table of stu_hash.c: every element sits on the ring of its bucket and on one
// global ring in insertion order.
module Hash {
  import opened Words
  import opened Bytes
  import opened Queue

  // ----- Keys -------------------------------------------------------------------------

  // The 31-polynomial of the bytes, without truncation.
  function Poly(data: seq<Byte>): nat {
    if data == [] then 0 else Poly(data[..|data| - 1]) * 31 + data[|data| - 1]
  }

  lemma PolyIs(a: seq<Byte>, c: Byte)
    ensures Poly([]) == 0 && Poly([c]) == c && Poly(a + [c]) == 31 * Poly(a) + c
  {
    assert (a + [c])[..|a|] == a;
    assert ([] + [c])[..0] == [];
  }

  method HashKey(data: seq<Byte>) returns (key: Word)
    ensures key == Wrap(Poly(data))
  {
    key := 0;
    for i := 0 to |data|
      invariant key == Wrap(Poly(data[..i]))
    {
      assert data[..i + 1][..i] == data[..i];
      WrapStep(Poly(data[..i]), data[i]);
      key := Wrap(key * 31 + data[i]);
    }
    assert data[..|data|] == data;
  }

  method HashKeyLc(data: seq<Byte>) returns (key: Word)
    ensures key == Wrap(Poly(Lower(data)))
  {
    key := 0;
    for i := 0 to |data|
      invariant key == Wrap(Poly(Lower(data)[..i]))
    {
      assert Lower(data)[..i + 1][..i] == Lower(data)[..i];
      WrapStep(Poly(Lower(data)[..i]), ToLower(data[i]));
      key := Wrap(key * 31 + ToLower(data[i]));
    }
    assert Lower(data)[..|data|] == Lower(data);
  }

  lemma WrapStep(p: int, c: int)
    ensures Wrap(Wrap(p) * 31 + c) == Wrap(p * 31 + c)
  {
    var k := p / MODULUS;
    assert p * 31 + c == Wrap(p) * 31 + c + (k * 31) * MODULUS;
    WrapMultiple(Wrap(p) * 31 + c, k * 31);
  }

  // ----- Elements ---------------------------------------------------------------------

  class Elt<V> {
    const key: seq<Byte>
    const keyHash: Word
    var value: V
    const queue: Link<Elt?<V>>  // on the ring of the bucket
    const q: Link<Elt?<V>>      // on the global ring

    constructor (key: seq<Byte>, keyHash: Word, value: V, ghost bucket: int)
      ensures this.key == key && this.keyHash == keyHash && this.value == value
      ensures fresh(queue) && fresh(q) && queue != q && queue.data == this && q.data == this
      ensures queue.ring == bucket && q.ring == -1
    {
      this.key, this.keyHash, this.value := key, keyHash, value;
      queue := new Link<Elt?<V>>(null, bucket);
      q := new Link<Elt?<V>>(null, -1);
      new;
      queue.data := this;
      q.data := this;
    }
  }

  // The comparison of lines 102-105, 171-174 and 210-213.
  predicate Matches<V>(e: Elt<V>, hash: Word, name: seq<Byte>) {
    e.keyHash == hash && |e.key| == |name| && CStr(e.key) == CStr(name)
  }

  function Chain<V>(es: seq<Elt<V>>, size: nat, i: int): seq<Elt<V>>
    requires size > 0
  {
    if es == [] then []
    else (if es[0].keyHash % size == i then [es[0]] else []) + Chain(es[1..], size, i)
  }

  function First<V>(es: seq<Elt<V>>, hash: Word, name: seq<Byte>): (e: Elt?<V>)
    ensures e != null ==> e in es && Matches(e, hash, name)
  {
    if es == [] then null else if Matches(es[0], hash, name) then es[0] else First(es[1..], hash, name)
  }

  lemma {:induction false} FirstAt<V>(es: seq<Elt<V>>, hash: Word, name: seq<Byte>, j: nat)
    requires j <= |es| && (forall m :: 0 <= m < j ==> !Matches(es[m], hash, name))
    requires j < |es| ==> Matches(es[j], hash, name)
    ensures First(es, hash, name) == if j < |es| then es[j] else null
  {
    if j > 0 {
      FirstAt(es[1..], hash, name, j - 1);
    }
  }

  function Unmatched<V>(es: seq<Elt<V>>, hash: Word, name: seq<Byte>): seq<Elt<V>> {
    if es == [] then []
    else (if Matches(es[0], hash, name) then [] else [es[0]]) + Unmatched(es[1..], hash, name)
  }

  lemma {:induction false} ChainConcat<V>(a: seq<Elt<V>>, b: seq<Elt<V>>, size: nat, i: int)
    requires size > 0
    ensures Chain(a + b, size, i) == Chain(a, size, i) + Chain(b, size, i)
  {
    if a == [] {
      assert a + b == b;
    } else {
      ChainConcat(a[1..], b, size, i);
      assert (a + b)[1..] == a[1..] + b && (a + b)[0] == a[0];
      var h := if a[0].keyHash % size == i then [a[0]] else [];
      assert Chain(a + b, size, i) == h + (Chain(a[1..], size, i) + Chain(b, size, i));
    }
  }

  lemma {:induction false} ChainMember<V>(es: seq<Elt<V>>, size: nat, i: int, e: Elt<V>)
    requires size > 0
    ensures e in Chain(es, size, i) <==> e in es && e.keyHash % size == i
  {
    if es != [] {
      ChainMember(es[1..], size, i, e);
    }
  }

  function Without<T>(s: seq<T>, m: nat): seq<T>
    requires m < |s|
  {
    s[..m] + s[m + 1..]
  }

  // Removing an element removes it from its own chain only.
  lemma ChainWithout<V>(es: seq<Elt<V>>, size: nat, i: int, m: nat)
    requires size > 0 && m < |es|
    ensures var k, c := |Chain(es[..m], size, i)|, Chain(es, size, i);
      if es[m].keyHash % size == i then k < |c| && c[k] == es[m] && Chain(Without(es, m), size, i) == Without(c, k)
      else Chain(Without(es, m), size, i) == c
  {
    var a, b := es[..m], es[m + 1..];
    assert es == a + ([es[m]] + b);
    ChainConcat(a, [es[m]] + b, size, i);
    ChainConcat([es[m]], b, size, i);
    ChainConcat(a, b, size, i);
    assert Chain([es[m]], size, i) == if es[m].keyHash % size == i then [es[m]] else [];
  }

  // Looking in the bucket finds what looking through all elements would find.
  lemma {:induction false} FirstInChain<V>(es: seq<Elt<V>>, size: nat, hash: Word, name: seq<Byte>)
    requires size > 0
    ensures First(Chain(es, size, hash % size), hash, name) == First(es, hash, name)
  {
    if es != [] {
      FirstInChain(es[1..], size, hash, name);
      var c := Chain(es, size, hash % size);
      if es[0].keyHash % size == hash % size {
        assert c[0] == es[0] && c[1..] == Chain(es[1..], size, hash % size);
      } else {
        assert c == Chain(es[1..], size, hash % size);
      }
    }
  }

  lemma {:induction false} UnmatchedConcat<V>(a: seq<Elt<V>>, b: seq<Elt<V>>, hash: Word, name: seq<Byte>)
    ensures Unmatched(a + b, hash, name) == Unmatched(a, hash, name) + Unmatched(b, hash, name)
  {
    if a == [] {
      assert a + b == b;
    } else {
      UnmatchedConcat(a[1..], b, hash, name);
      assert (a + b)[0] == a[0] && (a + b)[1..] == a[1..] + b;
      var h := if Matches(a[0], hash, name) then [] else [a[0]];
      assert Unmatched(a, hash, name) == h + Unmatched(a[1..], hash, name);
      assert Unmatched(a + b, hash, name) == h + Unmatched(a[1..] + b, hash, name);
      Regroup(h, Unmatched(a[1..], hash, name), Unmatched(b, hash, name));
    }
  }

  lemma UnmatchedWithout<V>(es: seq<Elt<V>>, hash: Word, name: seq<Byte>, m: nat)
    requires m < |es| && Matches(es[m], hash, name)
    ensures Unmatched(Without(es, m), hash, name) == Unmatched(es, hash, name)
  {
    var a, b := es[..m], es[m + 1..];
    assert es == a + ([es[m]] + b);
    UnmatchedConcat(a, [es[m]] + b, hash, name);
    UnmatchedConcat([es[m]], b, hash, name);
    UnmatchedConcat(a, b, hash, name);
    assert Unmatched([es[m]], hash, name) == [];
  }

  lemma {:induction false} AllUnmatched<V>(es: seq<Elt<V>>, hash: Word, name: seq<Byte>)
    requires forall i :: 0 <= i < |es| ==> !Matches(es[i], hash, name)
    ensures Unmatched(es, hash, name) == es
  {
    if es != [] {
      AllUnmatched(es[1..], hash, name);
    }
  }

  lemma {:induction false} UnmatchedMember<V>(es: seq<Elt<V>>, hash: Word, name: seq<Byte>, i: nat)
    requires i < |Unmatched(es, hash, name)|
    ensures !Matches(Unmatched(es, hash, name)[i], hash, name)
  {
    if Matches(es[0], hash, name) {
      UnmatchedMember(es[1..], hash, name, i);
    } else if i > 0 {
      UnmatchedMember(es[1..], hash, name, i - 1);
    }
  }

  lemma {:induction false} UnmatchedIn<V>(es: seq<Elt<V>>, hash: Word, name: seq<Byte>)
    ensures forall e {:trigger e in Unmatched(es, hash, name)} :: e in Unmatched(es, hash, name) ==> e in es
  {
    if es != [] {
      UnmatchedIn(es[1..], hash, name);
    }
  }

  // A table without a match in the bucket has none at all.
  lemma SweptClean<V>(es: seq<Elt<V>>, c: seq<Elt<V>>, size: nat, hash: Word, name: seq<Byte>)
    requires size > 0 && Chain(es, size, hash % size) == Unmatched(c, hash, name)
    ensures Unmatched(es, hash, name) == es
  {
    forall i | 0 <= i < |es| ensures !Matches(es[i], hash, name) {
      if Matches(es[i], hash, name) {
        ChainMember(es, size, hash % size, es[i]);
        var u := Unmatched(c, hash, name);
        var k :| 0 <= k < |u| && u[k] == es[i];
        UnmatchedMember(c, hash, name, k);
      }
    }
    AllUnmatched(es, hash, name);
  }

  // One turn of the removal loop, seen on the bucket's chain.
  lemma {:induction false} SweepTurn<V>(c: seq<Elt<V>>, j: nat, hash: Word, name: seq<Byte>)
    requires j < |c|
    ensures var u := Unmatched(c[..j], hash, name);
      && (u + c[j..])[|u|] == c[j]
      && Unmatched(c[..j + 1], hash, name) + c[j + 1..]
         == if Matches(c[j], hash, name) then Without(u + c[j..], |u|) else u + c[j..]
  {
    var u := Unmatched(c[..j], hash, name);
    UnmatchedNext(c, j, hash, name);
    Passed(u, c[j], c[j + 1..]);
    assert c[j..] == [c[j]] + c[j + 1..];
  }

  lemma {:induction false} UnmatchedNext<V>(c: seq<Elt<V>>, j: nat, hash: Word, name: seq<Byte>)
    requires j < |c|
    ensures Unmatched(c[..j + 1], hash, name) == Unmatched(c[..j], hash, name) + if Matches(c[j], hash, name) then [] else [c[j]]
  {
    assert Unmatched([c[j]], hash, name) == if Matches(c[j], hash, name) then [] else [c[j]];
    assert c[..j + 1] == c[..j] + [c[j]];
    UnmatchedConcat(c[..j], [c[j]], hash, name);
  }

  lemma Passed<T>(u: seq<T>, x: T, rest: seq<T>)
    ensures (u + ([x] + rest))[|u|] == x
    ensures u + [] + rest == Without(u + ([x] + rest), |u|) && u + [x] + rest == u + ([x] + rest)
  {
  }

  // ----- The abstract table: an insertion-ordered multimap ----------------------------

  datatype Item<V> = Item(key: seq<Byte>, hash: Word, value: V)

  predicate Same<V>(x: Item<V>, hash: Word, name: seq<Byte>) {
    x.hash == hash && |x.key| == |name| && CStr(x.key) == CStr(name)
  }

  // The index of the earliest match, or the length.
  function IndexOf<V>(m: seq<Item<V>>, hash: Word, name: seq<Byte>): (k: nat)
    ensures k <= |m|
    ensures k < |m| ==> Same(m[k], hash, name)
    ensures forall i :: 0 <= i < k ==> !Same(m[i], hash, name)
  {
    if m == [] || Same(m[0], hash, name) then 0 else 1 + IndexOf(m[1..], hash, name)
  }

  // The value found is that of the earliest item with this hash, length and text.
  lemma GetIs<V>(m: seq<Item<V>>, hash: Word, name: seq<Byte>, k: nat)
    requires k <= |m|
    requires forall i {:trigger m[i]} :: 0 <= i < k ==> !(m[i].hash == hash && |m[i].key| == |name| && CStr(m[i].key) == CStr(name))
    requires k < |m| ==> m[k].hash == hash && |m[k].key| == |name| && CStr(m[k].key) == CStr(name)
    ensures Get(m, hash, name) == if k < |m| then Some(m[k].value) else None
  {
    IndexIs(m, hash, name, k);
  }

  // Storing changes that item only, or adds one at the end.
  lemma PutIs<V>(m: seq<Item<V>>, hash: Word, key: seq<Byte>, value: V, replace: bool, k: nat)
    requires k <= |m|
    requires forall i {:trigger m[i]} :: 0 <= i < k ==> !(m[i].hash == hash && |m[i].key| == |key| && CStr(m[i].key) == CStr(key))
    requires k < |m| ==> m[k].hash == hash && |m[k].key| == |key| && CStr(m[k].key) == CStr(key)
    ensures var r := Put(m, hash, key, value, replace);
      if replace && k < |m|
      then |r| == |m| && forall i :: 0 <= i < |m| ==> r[i] == if i == k then Item(m[k].key, m[k].hash, value) else m[i]
      else r == m + [Item(key, hash, value)]
  {
    IndexIs(m, hash, key, k);
  }

  // Removal goes item by item and keeps the order.
  lemma {:induction false} DeleteAllIs<V>(a: seq<Item<V>>, x: Item<V>, b: seq<Item<V>>, hash: Word, name: seq<Byte>)
    ensures DeleteAll(a + b, hash, name) == DeleteAll(a, hash, name) + DeleteAll(b, hash, name)
    ensures DeleteAll([x], hash, name) == if x.hash == hash && |x.key| == |name| && CStr(x.key) == CStr(name) then [] else [x]
  {
    if a == [] {
      assert a + b == b;
    } else {
      DeleteAllIs(a[1..], x, b, hash, name);
      assert (a + b)[1..] == a[1..] + b;
      var h := if Same(a[0], hash, name) then [] else [a[0]];
      assert DeleteAll(a, hash, name) == h + DeleteAll(a[1..], hash, name);
      Regroup(h, DeleteAll(a[1..], hash, name), DeleteAll(b, hash, name));
    }
  }

  // The removal of one takes the earliest of those that are picked.
  lemma DeleteOneIs<V>(m: seq<Item<V>>, hash: Word, name: seq<Byte>, pick: V -> bool, k: nat)
    requires k <= |m|
    requires forall i {:trigger m[i]} :: 0 <= i < k ==>
      !(m[i].hash == hash && |m[i].key| == |name| && CStr(m[i].key) == CStr(name) && pick(m[i].value))
    requires k < |m| ==> m[k].hash == hash && |m[k].key| == |name| && CStr(m[k].key) == CStr(name) && pick(m[k].value)
    ensures DeleteOne(m, hash, name, pick) == if k < |m| then m[..k] + m[k + 1..] else m
  {
    if PickOf(m, hash, name, pick) < k {
      assert false;
    }
  }

  function Get<V>(m: seq<Item<V>>, hash: Word, name: seq<Byte>): Option<V> {
    var k := IndexOf(m, hash, name);
    if k < |m| then Some(m[k].value) else None
  }

  function Put<V>(m: seq<Item<V>>, hash: Word, key: seq<Byte>, value: V, replace: bool): seq<Item<V>> {
    var k := IndexOf(m, hash, key);
    if replace && k < |m| then m[k := m[k].(value := value)] else m + [Item(key, hash, value)]
  }

  function DeleteAll<V>(m: seq<Item<V>>, hash: Word, name: seq<Byte>): seq<Item<V>> {
    if m == [] then []
    else (if Same(m[0], hash, name) then [] else [m[0]]) + DeleteAll(m[1..], hash, name)
  }

  // A stored value is found again; other keys see no difference.
  lemma GetAfterPut<V>(m: seq<Item<V>>, hash: Word, key: seq<Byte>, value: V, replace: bool, hash2: Word, name: seq<Byte>)
    ensures var r := Put(m, hash, key, value, replace);
      if Same(Item(key, hash, value), hash2, name)
      then Get(r, hash2, name) == if replace || Get(m, hash, key) == None then Some(value) else Get(m, hash, key)
      else Get(r, hash2, name) == Get(m, hash2, name)
  {
    var r, x := Put(m, hash, key, value, replace), Item(key, hash, value);
    var k, k2 := IndexOf(m, hash, key), IndexOf(m, hash2, name);
    if Same(x, hash2, name) {
      IndexIs(m, hash2, name, k);
    }
    if replace && k < |m| {
      IndexIs(r, hash2, name, k2);
    } else {
      IndexIs(r, hash2, name, if k2 < |m| || Same(x, hash2, name) then k2 else |r|);
    }
  }

  lemma IndexIs<V>(m: seq<Item<V>>, hash: Word, name: seq<Byte>, k: nat)
    requires k <= |m| && (forall i :: 0 <= i < k ==> !Same(m[i], hash, name))
    requires k < |m| ==> Same(m[k], hash, name)
    ensures IndexOf(m, hash, name) == k
  {
  }

  lemma GetCons<V>(x: Item<V>, m: seq<Item<V>>, hash: Word, name: seq<Byte>)
    ensures Get([x] + m, hash, name) == if Same(x, hash, name) then Some(x.value) else Get(m, hash, name)
  {
    var k := IndexOf(m, hash, name);
    IndexIs([x] + m, hash, name, if Same(x, hash, name) then 0 else 1 + k);
  }

  lemma {:induction false} GetAfterDelete<V>(m: seq<Item<V>>, hash: Word, key: seq<Byte>, hash2: Word, name: seq<Byte>)
    ensures var r := DeleteAll(m, hash, key);
      if hash2 == hash && |name| == |key| && CStr(name) == CStr(key)
      then Get(r, hash2, name) == None
      else Get(r, hash2, name) == Get(m, hash2, name)
  {
    if m != [] {
      GetAfterDelete(m[1..], hash, key, hash2, name);
      var t := DeleteAll(m[1..], hash, key);
      GetCons(m[0], m[1..], hash2, name);
      GetCons(m[0], t, hash2, name);
      assert [m[0]] + m[1..] == m;
      assert DeleteAll(m, hash, key) == if Same(m[0], hash, key) then t else [m[0]] + t;
    }
  }

  // The index of the earliest match whose value is picked, or the length.
  function PickOf<V>(m: seq<Item<V>>, hash: Word, name: seq<Byte>, pick: V -> bool): (k: nat)
    ensures k <= |m|
    ensures k < |m| ==> Same(m[k], hash, name) && pick(m[k].value)
    ensures forall i :: 0 <= i < k ==> !(Same(m[i], hash, name) && pick(m[i].value))
  {
    if m == [] || (Same(m[0], hash, name) && pick(m[0].value)) then 0 else 1 + PickOf(m[1..], hash, name, pick)
  }

  function DeleteOne<V>(m: seq<Item<V>>, hash: Word, name: seq<Byte>, pick: V -> bool): seq<Item<V>> {
    var k := PickOf(m, hash, name, pick);
    if k < |m| then Without(m, k) else m
  }

  ghost function ItemsOf<V>(es: seq<Elt<V>>): (m: seq<Item<V>>)
    reads es
    ensures |m| == |es|
    ensures forall i :: 0 <= i < |es| ==> m[i] == Item(es[i].key, es[i].keyHash, es[i].value)
  {
    seq(|es|, i requires 0 <= i < |es| reads es => Item(es[i].key, es[i].keyHash, es[i].value))
  }

  lemma {:induction false} FirstIsIndexOf<V>(es: seq<Elt<V>>, hash: Word, name: seq<Byte>)
    ensures var k := IndexOf(ItemsOf(es), hash, name);
      if k < |es| then First(es, hash, name) == es[k] else First(es, hash, name) == null
  {
    if es != [] && !Matches(es[0], hash, name) {
      FirstIsIndexOf(es[1..], hash, name);
      assert ItemsOf(es)[1..] == ItemsOf(es[1..]);
    }
  }

  lemma {:induction false} UnmatchedIsDeleteAll<V>(es: seq<Elt<V>>, hash: Word, name: seq<Byte>)
    ensures ItemsOf(Unmatched(es, hash, name)) == DeleteAll(ItemsOf(es), hash, name)
  {
    if es != [] {
      UnmatchedIsDeleteAll(es[1..], hash, name);
      assert ItemsOf(es)[1..] == ItemsOf(es[1..]);
      assert Same(ItemsOf(es)[0], hash, name) <==> Matches(es[0], hash, name);
    }
  }

  ghost function Queues<V>(es: seq<Elt<V>>): (r: seq<Link<Elt?<V>>>)
    ensures |r| == |es| && forall i :: 0 <= i < |es| ==> r[i] == es[i].queue
  {
    seq(|es|, i requires 0 <= i < |es| => es[i].queue)
  }

  lemma QueuesWithout<V>(es: seq<Elt<V>>, k: nat)
    requires k < |es|
    ensures Queues(Without(es, k)) == Queues(es)[..k] + Queues(es)[k + 1..]
  {
  }

  ghost function Qs<V>(es: seq<Elt<V>>): (r: seq<Link<Elt?<V>>>)
    ensures |r| == |es| && forall i :: 0 <= i < |es| ==> r[i] == es[i].q
  {
    seq(|es|, i requires 0 <= i < |es| => es[i].q)
  }

  // ----- The table --------------------------------------------------------------------

  class Hash<V> {
    const keys: Link<Elt?<V>>
    const buckets: array<Link?<Elt?<V>>>
    const size: nat
    var length: int

    ghost var entries: seq<Elt<V>>      // all elements, in insertion order
    ghost var links: set<Link<Elt?<V>>>  // every link of the table

    ghost predicate EltOk(e: Elt<V>)
      reads this, links
      requires size > 0
    {
      && e.queue in links && e.q in links && e.queue.data == e && e.q.data == e
      && e.queue.ring == e.keyHash % size && e.q.ring == -1
    }

    ghost predicate BucketOk(i: nat)
      reads this, buckets, links
      requires size == buckets.Length > 0 && i < size
    {
      var h, c := buckets[i], Chain(entries, size, i);
      if h == null then c == []
      else
        && h in links && h.ring == i && h.data == null
        && (forall j {:trigger c[j]} :: 0 <= j < |c| ==> c[j].queue in links && c[j].queue.ring == i)
        && Ring(h, Queues(c))
    }

    // Both kinds of ring agree with `entries`.
    ghost predicate Linked()
      reads this, buckets, links
    {
      && size == buckets.Length > 0
      && keys in links && keys.ring == -1 && keys.data == null
      && (forall i {:trigger entries[i]} :: 0 <= i < |entries| ==> EltOk(entries[i]))
      && (forall i, j {:trigger entries[i], entries[j]} :: 0 <= i < j < |entries| ==> entries[i] != entries[j])
      && Ring(keys, Qs(entries)) && length == |entries|
      && (forall i {:trigger BucketOk(i)} :: 0 <= i < size ==> BucketOk(i))
    }

    // Besides, exactly the buckets in use are allocated.
    ghost predicate Valid()
      reads this, buckets, links
    {
      Linked() && (forall i {:trigger buckets[i]} :: 0 <= i < size && buckets[i] != null ==> Chain(entries, size, i) != [])
    }

    // What validity says: both kinds of ring hold exactly the elements that belong on them, and
    // a bucket is allocated exactly if it holds any.
    lemma Rules(i: nat) returns (s: seq<Link<Elt?<V>>>)
      requires Valid() && i < size
      ensures length == |entries| && Ring(keys, Qs(entries)) && size == buckets.Length
      ensures buckets[i] == null <==> forall e {:trigger e in entries} :: e in entries ==> e.keyHash % size != i
      ensures buckets[i] != null ==> Ring(buckets[i], s)
      ensures buckets[i] != null ==> forall e {:trigger e in entries} :: e in entries ==> (e.queue in s <==> e.keyHash % size == i)
    {
      var c := Chain(entries, size, i);
      s := Queues(c);
      assert BucketOk(i);
      forall j | 0 <= j < |c| ensures c[j] in entries {
        ChainMember(entries, size, i, c[j]);
      }
      forall e | e in entries ensures (e in c <==> e.keyHash % size == i) && (e.queue in s <==> e in c) {
        ChainMember(entries, size, i, e);
        QueueOf(c, e);
      }
      if c != [] {
        ChainMember(entries, size, i, c[0]);
      }
    }

    lemma QueueOf(c: seq<Elt<V>>, e: Elt<V>)
      requires Linked() && e in entries && forall j {:trigger c[j]} :: 0 <= j < |c| ==> c[j] in entries
      ensures e.queue in Queues(c) <==> e in c
    {
      assert EltOk(e);
      if e.queue in Queues(c) {
        var j :| 0 <= j < |c| && Queues(c)[j] == e.queue;
        assert EltOk(c[j]);
      }
      if e in c {
        var j :| 0 <= j < |c| && c[j] == e;
        assert Queues(c)[j] == e.queue;
      }
    }

    constructor (size: nat, buckets: array<Link?<Elt?<V>>>)
      requires size == buckets.Length > 0 && (forall i :: 0 <= i < size ==> buckets[i] == null)
      ensures Valid() && entries == [] && this.size == size && this.buckets == buckets && fresh(links)
    {
      this.size, this.buckets := size, buckets;
      keys := new Link<Elt?<V>>(null, -1);
      length := 0;
      entries := [];
      new;
      links := {keys};
      Init(keys);
    }
  
    ghost function Items(): seq<Item<V>>
      reads this, entries
    {
      ItemsOf(entries)
    }

    // What a walk along a bucket ring sees at its j-th element.
    lemma ChainAt(i: nat, j: nat)
      requires Linked() && i < size && j < |Chain(entries, size, i)|
      ensures var c, h := Chain(entries, size, i), buckets[i];
        && h != null && c[j] in entries && EltOk(c[j]) && c[j].keyHash % size == i
        && c[j].queue.data == c[j] && c[j].queue != h
        && c[j].queue.next == (if j + 1 < |c| then c[j + 1].queue else h)
    {
      var c := Chain(entries, size, i);
      assert BucketOk(i);
      ChainMember(entries, size, i, c[j]);
      assert Queues(c)[j].next == (if j + 1 < |c| then Queues(c)[j + 1] else buckets[i]);
    }

    lemma ChainEnd(i: nat, j: nat)
      requires Linked() && i < size && buckets[i] != null && j <= |Chain(entries, size, i)|
      ensures j < |Chain(entries, size, i)| ==> Chain(entries, size, i)[j].queue != buckets[i]
    {
      assert BucketOk(i);
      assert Queues(Chain(entries, size, i))[..j] <= Queues(Chain(entries, size, i));
    }

    lemma ChainHead(i: nat)
      requires Linked() && i < size && buckets[i] != null
      ensures buckets[i].next == if Chain(entries, size, i) == [] then buckets[i] else Chain(entries, size, i)[0].queue
    {
      assert BucketOk(i);
      assert Chain(entries, size, i) == [] <==> Queues(Chain(entries, size, i)) == [];
    }

    // The search loop of lines 100-109 and 169-178 through one bucket.
    method Search(elts: Link<Elt?<V>>, hash: Word, name: seq<Byte>) returns (found: Elt?<V>)
      requires Linked() && buckets[hash % size] == elts
      ensures found == First(entries, hash, name)
    {
      ghost var i, j := hash % size, 0;
      ghost var c := Chain(entries, size, i);
      ChainHead(i);
      FirstInChain(entries, size, hash, name);
      var q := elts.next;
      while q != elts
        invariant 0 <= j <= |c| && q == (if j < |c| then c[j].queue else elts)
        invariant forall m :: 0 <= m < j ==> !Matches(c[m], hash, name)
        decreases |c| - j
      {
        ChainAt(i, j);
        var e := q.data;
        if e.keyHash == hash && |e.key| == |name| {
          if CStr(e.key) == CStr(name) {
            FirstAt(c, hash, name, j);
            return e;
          }
        }
        j, q := j + 1, q.next;
      }
      ChainEnd(i, j);
      FirstAt(c, hash, name, j);
      found := null;
    }

    method FindLocked(hash: Word, name: seq<Byte>) returns (v: Option<V>)
      requires Valid()
      ensures v == Get(Items(), hash, name)
    {
      FirstIsIndexOf(entries, hash, name);
      var elts := buckets[hash % size];
      if elts == null {
        assert BucketOk(hash % size);
        FirstInChain(entries, size, hash, name);
        return None;
      }
      var e := Search(elts, hash, name);
      v := if e == null then None else Some(e.value);
    }
  
    // The links that an operation on bucket i may touch.
    ghost function LinksOf(i: int): set<Link<Elt?<V>>>
      reads this, links
    {
      set l | l in links && (l.ring == i || l.ring == -1)
    }

    // All allocated buckets but possibly bucket i hold elements.
    ghost predicate InUseBut(i: int)
      reads this, buckets
      requires size == buckets.Length > 0
    {
      forall b {:trigger buckets[b]} :: 0 <= b < size && b != i && buckets[b] != null ==> Chain(entries, size, b) != []
    }

    // Lines 88-97: a bucket gets its sentinel on first use.
    method OpenBucket(i: nat) returns (elts: Link<Elt?<V>>)
      requires Valid() && i < size
      modifies this`links, buckets
      ensures Linked() && InUseBut(i) && buckets[i] == elts && old(links) <= links
      ensures forall l :: l in links ==> l in old(links) || fresh(l)
      ensures old(buckets[i]) != null ==> buckets[i] == old(buckets[i])
      ensures forall b {:trigger buckets[b]} :: 0 <= b < size && b != i ==> buckets[b] == old(buckets[b])
    {
      assert BucketOk(i);
      if buckets[i] != null {
        return buckets[i];
      }
      elts := NewBucket(i);
      EmptyBucket(i, elts);
    }

    method NewBucket(i: nat) returns (elts: Link<Elt?<V>>)
      requires i < buckets.Length
      modifies this`links, buckets
      ensures fresh(elts) && elts.ring == i && elts.data == null && Ring(elts, [])
      ensures buckets[i] == elts && links == old(links) + {elts}
      ensures forall b {:trigger buckets[b]} :: 0 <= b < buckets.Length && b != i ==> buckets[b] == old(buckets[b])
    {
      elts := new Link<Elt?<V>>(null, i);
      Init(elts);
      buckets[i] := elts;
      links := links + {elts};
    }

    twostate lemma EmptyBucket(new i: nat, new elts: Link<Elt?<V>>)
      requires old(Valid()) && i < size && old(buckets[i]) == null && elts.ring == i && elts.data == null && Ring(elts, [])
      requires unchanged(this`entries, this`length) && unchanged(old(links))
      requires buckets[i] == elts && links == old(links) + {elts}
      requires forall b {:trigger buckets[b]} :: 0 <= b < size && b != i ==> buckets[b] == old(buckets[b])
      ensures Linked() && InUseBut(i)
    {
      assert old(BucketOk(i));
      assert Queues(Chain(entries, size, i)) == [];
      forall b | 0 <= b < size ensures BucketOk(b) {
        assert old(BucketOk(b));
      }
    }
  
    // The links of ring r did not move.
    twostate predicate Still(new r: int)
      reads *
    {
      forall l {:trigger l.next} {:trigger l.prev} {:trigger l.data} :: l in old(links) && l.ring == r ==>
        l.prev == old(l.prev) && l.next == old(l.next) && l.data == old(l.data)
    }

    // A bucket whose chain and links did not change.
    twostate lemma OtherBucket(new b: nat)
      requires size == buckets.Length > 0 && b < size && old(BucketOk(b)) && buckets[b] == old(buckets[b])
      requires old(links) <= links && Chain(entries, size, b) == Chain(old(entries), size, b)
      requires Still(b)
      ensures BucketOk(b)
    {
    }

    // A ring whose links did not move.
    twostate lemma RingStill(new r: int, new h: Link<Elt?<V>>, new s: seq<Link<Elt?<V>>>)
      requires old(allocated(h)) && old(allocated(s)) && old(Ring(h, s)) && Still(r)
      requires old(h in links) && h.ring == r && (forall j :: 0 <= j < |s| ==> old(s[j] in links) && s[j].ring == r)
      ensures Ring(h, s)
    {
      forall j | 0 <= j < |s| ensures s[j].next == old(s[j].next) && s[j].prev == old(s[j].prev) {
        assert old(s[j] in links);
      }
    }

    lemma BucketRing(i: nat, elts: Link<Elt?<V>>) returns (s: seq<Link<Elt?<V>>>)
      requires Linked() && i < size && buckets[i] == elts
      ensures s == Queues(Chain(entries, size, i)) && Ring(elts, s) && elts in links && elts.ring == i
      ensures forall j {:trigger s[j]} :: 0 <= j < |s| ==> s[j] in links && s[j].ring == i
    {
      assert BucketOk(i);
      var c := Chain(entries, size, i);
      s := Queues(c);
      forall j | 0 <= j < |s| ensures s[j] in links && s[j].ring == i {
        assert s[j] == c[j].queue;
      }
    }

    // Lines 128-129 on the bucket and on the global ring.
    method LinkIntoBucket(ghost i: nat, elts: Link<Elt?<V>>, elt: Elt<V>)
      requires Linked() && i < size && buckets[i] == elts
      requires elt.queue !in links && elt.queue.data == elt && elt.queue.ring == i
      modifies (set l | l in links && l.ring == i), elt.queue, this`links
      ensures Ring(elts, Queues(Chain(entries, size, i) + [elt]))
      ensures elt.queue.data == elt && links == old(links) + {elt.queue}
      ensures forall l :: l in old(links) ==> l.data == old(l.data)
    {
      ghost var s := BucketRing(i, elts);
      InsertTail(elts, elt.queue, s);
      assert s + [elt.queue] == Queues(Chain(entries, size, i) + [elt]);
      links := links + {elt.queue};
    }

    method LinkIntoKeys(elt: Elt<V>, ghost i: nat, ghost elts: Link<Elt?<V>>, ghost c: seq<Link<Elt?<V>>>)
      requires Ring(elts, c) && elts in links && elts.ring == i && forall j :: 0 <= j < |c| ==> c[j] in links && c[j].ring == i
      requires Ring(keys, Qs(entries)) && keys in links && keys.ring == -1
      requires forall i :: 0 <= i < |entries| ==> entries[i].q in links && entries[i].q.ring == -1
      requires elt.q !in links && elt.q.data == elt && elt.q.ring == -1
      modifies (set l | l in links && l.ring == -1), elt.q, this`links
      ensures Ring(keys, Qs(entries + [elt])) && Ring(elts, c)
      ensures elt.q.data == elt && links == old(links) + {elt.q}
      ensures forall l :: l in old(links) ==> l.data == old(l.data)
    {
      assert forall j :: 0 <= j < |entries| ==> Qs(entries)[j] == entries[j].q;
      InsertTail(keys, elt.q, Qs(entries));
      RingStill(i, elts, c);
      assert Qs(entries) + [elt.q] == Qs(entries + [elt]);
      links := links + {elt.q};
    }

    twostate lemma AppendedBucket(new b: nat, new i: nat, new elt: Elt<V>)
      requires size == buckets.Length > 0 && b < size && i < size && old(BucketOk(b)) && buckets[b] == old(buckets[b])
      requires elt.keyHash % size == i && elt.queue.ring == i
      requires entries == old(entries) + [elt] && old(links) <= links && elt.queue in links
      requires buckets[i] != null && (forall l :: l in old(links) ==> l.data == old(l.data))
      requires Ring(buckets[i], Queues(Chain(old(entries), size, i) + [elt]))
      requires b != i ==> Still(b)
      ensures BucketOk(b)
    {
      ChainConcat(old(entries), [elt], size, b);
      if b != i {
        assert Chain(entries, size, b) == Chain(old(entries), size, b);
        OtherBucket(b);
      } else {
        assert Chain(entries, size, b) == Chain(old(entries), size, b) + [elt];
      }
    }

    method LinkBoth(ghost i: nat, elts: Link<Elt?<V>>, elt: Elt<V>)
      requires Linked() && i < size && buckets[i] == elts && elt.keyHash % size == i
      requires elt.queue !in links && elt.q !in links && elt.queue != elt.q
      requires elt.queue.data == elt && elt.q.data == elt && elt.queue.ring == i && elt.q.ring == -1
      modifies this`links, LinksOf(i), elt.queue, elt.q
      ensures links == old(links) + {elt.queue, elt.q} && elt.queue.data == elt && elt.q.data == elt
      ensures Ring(elts, Queues(Chain(entries, size, i) + [elt])) && Ring(keys, Qs(entries + [elt]))
      ensures forall l :: l in old(links) ==> l.data == old(l.data)
    {
      ghost var c := Queues(Chain(entries, size, i) + [elt]);
      assert elts in links && elts.ring == i by {
        assert BucketOk(i);
      }
      assert forall j :: 0 <= j < |c| ==> (c[j] == elt.queue || c[j] in links) && c[j].ring == i by {
        assert BucketOk(i);
      }
      LinkIntoBucket(i, elts, elt);
      LinkIntoKeys(elt, i, elts, c);
    }

    twostate lemma AppendedAll(new i: nat, new elt: Elt<V>)
      requires old(Linked()) && i < size && elt.keyHash % size == i
      requires elt !in old(entries) && entries == old(entries) + [elt] && length == old(length) + 1
      requires forall b {:trigger buckets[b]} :: 0 <= b < size ==> buckets[b] == old(buckets[b])
      requires links == old(links) + {elt.queue, elt.q} && elt.queue.data == elt && elt.q.data == elt
      requires elt.queue.ring == i && elt.q.ring == -1 && buckets[i] != null
      requires Ring(buckets[i], Queues(Chain(old(entries), size, i) + [elt])) && Ring(keys, Qs(entries))
      requires forall b :: 0 <= b < size && b != i ==> Still(b)
      requires forall l :: l in old(links) ==> l.data == old(l.data)
      ensures Linked()
    {
      forall b | 0 <= b < size ensures BucketOk(b) {
        assert old(BucketOk(b));
        AppendedBucket(b, i, elt);
      }
      forall j | 0 <= j < |entries| ensures EltOk(entries[j]) {
        assert j < |old(entries)| ==> old(EltOk(entries[j]));
      }
    }

    method Append(ghost i: nat, elts: Link<Elt?<V>>, elt: Elt<V>)
      requires Linked() && i < size && buckets[i] == elts && elt.keyHash % size == i
      requires elt !in entries && elt.queue !in links && elt.q !in links && elt.queue != elt.q
      requires elt.queue.data == elt && elt.q.data == elt && elt.queue.ring == i && elt.q.ring == -1
      modifies this`entries, this`length, this`links, LinksOf(i), elt.queue, elt.q
      ensures Linked() && entries == old(entries) + [elt] && links == old(links) + {elt.queue, elt.q}
    {
      LinkBoth(i, elts, elt);
      assert forall b :: 0 <= b < size && b != i ==> Still(b);
      entries := entries + [elt];
      length := length + 1;
      AppendedAll(i, elt);
    }

    // ----- Removal --------------------------------------------------------------------

    method UnlinkFromBucket(ghost i: nat, elts: Link<Elt?<V>>, e: Elt<V>, ghost k: nat, reset: bool)
      requires Linked() && i < size && buckets[i] == elts
      requires k < |Chain(entries, size, i)| && Chain(entries, size, i)[k] == e
      modifies set l | l in links && l.ring == i
      ensures Ring(elts, Queues(Without(Chain(entries, size, i), k)))
      ensures forall l :: l in links ==> l.data == old(l.data)
      ensures !reset ==> e.queue.next == old(e.queue.next)
    {
      ghost var s := BucketRing(i, elts);
      QueuesWithout(Chain(entries, size, i), k);
      assert s[k].next == if k + 1 < |s| then s[k + 1] else elts;
      TakeOut(elts, e.queue, s, k, reset);
    }

    method UnlinkFromKeys(e: Elt<V>, ghost m: nat)
      requires Ring(keys, Qs(entries)) && keys in links && keys.ring == -1 && m < |entries| && entries[m] == e
      requires forall i :: 0 <= i < |entries| ==> entries[i].q in links && entries[i].q.ring == -1
      modifies set l | l in links && l.ring == -1
      ensures Ring(keys, Qs(Without(entries, m)))
      ensures forall r :: r != -1 ==> Still(r)
      ensures forall l :: l in links ==> l.data == old(l.data)
    {
      assert forall j :: 0 <= j < |entries| ==> Qs(entries)[j] == entries[j].q;
      Remove(keys, e.q, Qs(entries), m);
      assert Qs(entries)[..m] + Qs(entries)[m + 1..] == Qs(Without(entries, m));
    }

    method UnlinkRings(ghost i: nat, elts: Link<Elt?<V>>, e: Elt<V>, ghost m: nat, ghost k: nat, reset: bool)
      requires Linked() && i < size && buckets[i] == elts && m < |entries| && entries[m] == e
      requires k < |Chain(entries, size, i)| && Chain(entries, size, i)[k] == e
      modifies LinksOf(i)
      ensures Ring(elts, Queues(Without(Chain(entries, size, i), k))) && Ring(keys, Qs(Without(entries, m)))
      ensures forall l :: l in links ==> l.data == old(l.data)
      ensures !reset ==> e.queue.next == old(e.queue.next)
    {
      ghost var c := Queues(Without(Chain(entries, size, i), k));
      assert elts in links && elts.ring == i && e.queue in links && e.queue.ring == i by {
        assert BucketOk(i);
      }
      assert forall j :: 0 <= j < |c| ==> c[j] in links && c[j].ring == i by {
        assert BucketOk(i);
      }
      UnlinkFromBucket(i, elts, e, k, reset);
      label Bucket:
      UnlinkFromKeys(e, m);
      RingStill@Bucket(i, elts, c);
    }

    // The other buckets stay as they are.
    method UnlinkBoth(ghost i: nat, elts: Link<Elt?<V>>, e: Elt<V>, ghost m: nat, ghost k: nat, ghost s: seq<Link<Elt?<V>>>, reset: bool)
      requires Linked() && i < size && buckets[i] == elts && m < |entries| && entries[m] == e
      requires k < |Chain(entries, size, i)| && Chain(entries, size, i)[k] == e && s == Queues(Without(Chain(entries, size, i), k))
      modifies this`entries, this`length, LinksOf(i)
      ensures Ring(elts, s) && Ring(keys, Qs(entries)) && entries == Without(old(entries), m) && length == old(length) - 1
      ensures forall b :: 0 <= b < size && b != i ==> Still(b)
      ensures forall l :: l in links ==> l.data == old(l.data)
      ensures !reset ==> e.queue.next == old(e.queue.next)
    {
      UnlinkRings(i, elts, e, m, k, reset);
      entries := Without(entries, m);
      length := length - 1;
    }

    twostate lemma UnlinkedBucket(new b: nat, new i: nat, new m: nat)
      requires size == buckets.Length > 0 && b < size && i < size && old(BucketOk(b)) && buckets[b] == old(buckets[b])
      requires m < |old(entries)| && old(entries)[m].keyHash % size == i
      requires entries == Without(old(entries), m) && old(links) == links
      requires buckets[i] != null && (forall l :: l in old(links) ==> l.data == old(l.data))
      requires var k := |Chain(old(entries)[..m], size, i)|;
        k < |Chain(old(entries), size, i)| && Ring(buckets[i], Queues(Without(Chain(old(entries), size, i), k)))
      requires b != i ==> Still(b)
      ensures BucketOk(b)
    {
      ChainWithout(old(entries), size, b, m);
      if b != i {
        assert Chain(entries, size, b) == Chain(old(entries), size, b);
        OtherBucket(b);
      }
    }

    twostate lemma UnlinkedAll(new i: nat, new m: nat, new k: nat, new s: seq<Link<Elt?<V>>>)
      requires old(Linked()) && i < size && m < |old(entries)| && old(entries)[m].keyHash % size == i
      requires entries == Without(old(entries), m) && length == old(length) - 1
      requires unchanged(buckets)
      requires links == old(links) && buckets[i] != null
      requires k == |Chain(old(entries)[..m], size, i)| < |Chain(old(entries), size, i)|
      requires s == Queues(Without(Chain(old(entries), size, i), k)) && Ring(buckets[i], s)
      requires Ring(keys, Qs(entries))
      requires forall b :: 0 <= b < size && b != i ==> Still(b)
      requires forall l :: l in old(links) ==> l.data == old(l.data)
      ensures Linked()
    {
      forall b | 0 <= b < size ensures BucketOk(b) {
        assert old(BucketOk(b));
        UnlinkedBucket(b, i, m);
      }
      forall j | 0 <= j < |entries| ensures EltOk(entries[j]) {
        assert old(EltOk(entries[if j < m then j else j + 1]));
      }
    }

    method UnlinkLinked(ghost i: nat, elts: Link<Elt?<V>>, e: Elt<V>, ghost m: nat, ghost k: nat, reset: bool)
      requires Linked() && i < size && buckets[i] == elts && m < |entries| && entries[m] == e && e.keyHash % size == i
      requires k == |Chain(entries[..m], size, i)| < |Chain(entries, size, i)| && Chain(entries, size, i)[k] == e
      modifies this`entries, this`length, LinksOf(i)
      ensures Linked() && entries == Without(old(entries), m)
      ensures !reset ==> e.queue.next == old(e.queue.next)
    {
      ghost var s := Queues(Without(Chain(entries, size, i), k));
      UnlinkBoth(i, elts, e, m, k, s, reset);
      UnlinkedAll(i, m, k, s);
    }

    method Unlink(ghost i: nat, elts: Link<Elt?<V>>, e: Elt<V>, ghost m: nat, reset: bool)
      requires Linked() && i < size && buckets[i] == elts && m < |entries| && entries[m] == e && e.keyHash % size == i
      modifies this`entries, this`length, LinksOf(i)
      ensures Linked() && entries == Without(old(entries), m)
      ensures var c, k := old(Chain(entries, size, i)), old(|Chain(entries[..m], size, i)|);
        k < |c| && c[k] == e && Chain(entries, size, i) == Without(c, k)
      ensures !reset ==> e.queue.next == old(e.queue.next)
    {
      ghost var k := |Chain(entries[..m], size, i)|;
      ChainWithout(entries, size, i, m);
      UnlinkLinked(i, elts, e, m, k, reset);
    }

    lemma ChainDistinct(i: nat, j: nat, k: nat)
      requires Linked() && i < size && j < k < |Chain(entries, size, i)|
      ensures Chain(entries, size, i)[j] != Chain(entries, size, i)[k]
    {
      assert BucketOk(i);
      var c := Chain(entries, size, i);
      assert Queues(c)[j] != Queues(c)[k];
    }

    // The place in the table of the element at position p of a chain.
    lemma PlaceOf(i: nat, p: nat) returns (m: nat)
      requires Linked() && i < size && p < |Chain(entries, size, i)|
      ensures m < |entries| && entries[m] == Chain(entries, size, i)[p] && p == |Chain(entries[..m], size, i)|
      ensures entries[m].keyHash % size == i
    {
      ChainAt(i, p);
      m :| m < |entries| && entries[m] == Chain(entries, size, i)[p];
      var k := |Chain(entries[..m], size, i)|;
      ChainWithout(entries, size, i, m);
      if k < p {
        ChainDistinct(i, k, p);
      } else if p < k {
        ChainDistinct(i, p, k);
      }
    }

    // Lines 210-232.
    method Visit(ghost i: nat, elts: Link<Elt?<V>>, e: Elt<V>, ghost p: nat, hash: Word, name: seq<Byte>)
      requires Linked() && i < size && buckets[i] == elts
      requires p < |Chain(entries, size, i)| && Chain(entries, size, i)[p] == e
      modifies this`entries, this`length, LinksOf(i)
      ensures Linked() && e.queue.next == old(e.queue.next)
      ensures var c := old(Chain(entries, size, i));
        Chain(entries, size, i) == if Matches(e, hash, name) then Without(c, p) else c
      ensures Unmatched(entries, hash, name) == old(Unmatched(entries, hash, name))
    {
      if e.keyHash != hash || |e.key| != |name| {
        return;
      }
      if CStr(e.key) == CStr(name) {
        ghost var m := PlaceOf(i, p);
        Unlink(i, elts, e, m, false);
        UnmatchedWithout(old(entries), hash, name, m);
      }
    }

    // The removal loop at element j of the chain c that it began with.
    ghost predicate Sweeping(elts: Link<Elt?<V>>, c: seq<Elt<V>>, j: nat, q: Link?<Elt?<V>>, left: seq<Elt<V>>, hash: Word, name: seq<Byte>)
      reads this, buckets, links
    {
      && Linked() && buckets[hash % size] == elts && j <= |c|
      && Chain(entries, size, hash % size) == Unmatched(c[..j], hash, name) + c[j..]
      && q == (if j < |c| then c[j].queue else elts)
      && Unmatched(entries, hash, name) == left
    }

    method SweepNext(elts: Link<Elt?<V>>, q: Link<Elt?<V>>, hash: Word, name: seq<Byte>, ghost c: seq<Elt<V>>, ghost j: nat, ghost left: seq<Elt<V>>)
      returns (next: Link?<Elt?<V>>)
      requires Sweeping(elts, c, j, q, left, hash, name) && q != elts
      modifies this`entries, this`length, LinksOf(hash % size)
      ensures j < |c| && Sweeping(elts, c, j + 1, next, left, hash, name)
    {
      ghost var p := |Unmatched(c[..j], hash, name)|;
      ChainAt(hash % size, p);
      SweepTurn(c, j, hash, name);
      var e := q.data;
      Visit(hash % size, elts, e, p, hash, name);
      next := q.next;
    }

    // The loop of lines 208-233.
    method Sweep(elts: Link<Elt?<V>>, hash: Word, name: seq<Byte>)
      requires Linked() && buckets[hash % size] == elts
      modifies this`entries, this`length, LinksOf(hash % size)
      ensures Linked() && entries == Unmatched(old(entries), hash, name)
    {
      ghost var c, j, left := Chain(entries, size, hash % size), 0, Unmatched(entries, hash, name);
      ChainHead(hash % size);
      var q := elts.next;
      assert c[..0] == [] && c[0..] == c;
      while q != elts
        invariant Sweeping(elts, c, j, q, left, hash, name)
        decreases |c| - j
      {
        q := SweepNext(elts, q, hash, name, c, j, left);
        j := j + 1;
      }
      SweepDone(elts, c, j, hash, name);
    }

    lemma SweepDone(elts: Link<Elt?<V>>, c: seq<Elt<V>>, j: nat, hash: Word, name: seq<Byte>)
      requires Linked() && buckets[hash % size] == elts && j <= |c|
      requires Chain(entries, size, hash % size) == Unmatched(c[..j], hash, name) + c[j..]
      requires j < |c| ==> c[j].queue == elts
      ensures Unmatched(entries, hash, name) == entries
    {
      ChainEnd(hash % size, |Unmatched(c[..j], hash, name)|);
      assert c[..j] == c && c[j..] == [];
      SweptClean(entries, c, size, hash, name);
    }

    // Lines 235-243: an emptied bucket is given back.
    method CloseBucket(i: nat, elts: Link<Elt?<V>>)
      requires Linked() && i < size && buckets[i] == elts && InUseBut(i)
      modifies buckets
      ensures Valid() && Items() == old(Items())
    {
      ChainHead(i);
      assert BucketOk(i);
      if elts.next == elts {
        ChainEnd(i, 0);
        buckets[i] := null;
        forall b | 0 <= b < size ensures BucketOk(b) {
          assert old(BucketOk(b));
        }
      }
    }

    lemma {:induction false} UnmatchedChain(es: seq<Elt<V>>, hash: Word, name: seq<Byte>, b: nat)
      requires size > 0 && b < size && b != hash % size
      ensures Chain(Unmatched(es, hash, name), size, b) == Chain(es, size, b)
    {
      if es != [] {
        UnmatchedChain(es[1..], hash, name, b);
        var h, u := if Matches(es[0], hash, name) then [] else [es[0]], Unmatched(es[1..], hash, name);
        assert Unmatched(es, hash, name) == h + u;
        ChainConcat(h, u, size, b);
      }
    }

    // Lines 208-243.
    method RemoveFrom(elts: Link<Elt?<V>>, hash: Word, name: seq<Byte>)
      requires Valid() && buckets[hash % size] == elts
      modifies this`entries, this`length, buckets, LinksOf(hash % size)
      ensures Valid() && entries == Unmatched(old(entries), hash, name)
    {
      ghost var i := hash % size;
      Sweep(elts, hash, name);
      forall b | 0 <= b < size && b != i && buckets[b] != null ensures Chain(entries, size, b) != [] {
        UnmatchedChain(old(entries), hash, name, b);
      }
      CloseBucket(hash % size, elts);
    }

    method RemoveLocked(hash: Word, name: seq<Byte>)
      requires Valid()
      modifies this`entries, this`length, buckets, LinksOf(hash % size)
      ensures Valid() && Items() == DeleteAll(old(Items()), hash, name)
      ensures forall e {:trigger e in entries} :: e in entries ==> e in old(entries)
    {
      var elts := buckets[hash % size];
      if elts == null {
        assert BucketOk(hash % size);
        SweptClean(entries, [], size, hash, name);
      } else {
        RemoveFrom(elts, hash, name);
      }
      UnmatchedIsDeleteAll(old(entries), hash, name);
      UnmatchedIn(old(entries), hash, name);
      assert ItemsOf(old(entries)) == old(Items());
    }

    // A match that the loop has not seen in the chain does not come earlier in the table.
    lemma NoEarlier(t: nat, m: nat)
      requires size > 0 && t < m <= |entries|
      ensures var i := entries[t].keyHash % size;
        var k := |Chain(entries[..t], size, i)|;
        k < |Chain(entries[..m], size, i)| <= |Chain(entries, size, i)| && Chain(entries, size, i)[k] == entries[t]
    {
      var i := entries[t].keyHash % size;
      var a := entries[..m];
      assert a[..t] == entries[..t] && a + entries[m..] == entries;
      ChainWithout(a, size, i, t);
      ChainConcat(a, entries[m..], size, i);
    }

    // Nothing before entry m qualifies if nothing before position p of the chain does.
    lemma NotPicked(hash: Word, name: seq<Byte>, pick: V -> bool, p: nat, m: nat)
      requires size > 0 && m <= |entries| && p == |Chain(entries[..m], size, hash % size)|
      requires forall t :: 0 <= t < p && t < |Chain(entries, size, hash % size)| ==>
        !(Matches(Chain(entries, size, hash % size)[t], hash, name) && pick(Chain(entries, size, hash % size)[t].value))
      requires m < |entries| ==> Matches(entries[m], hash, name) && pick(entries[m].value)
      ensures PickOf(Items(), hash, name, pick) == m
    {
      forall t | 0 <= t < m ensures !(Same(Items()[t], hash, name) && pick(Items()[t].value)) {
        if Matches(entries[t], hash, name) {
          NoEarlier(t, m);
        }
      }
    }

    method FindPicked(elts: Link<Elt?<V>>, hash: Word, name: seq<Byte>, pick: V -> bool)
      returns (found: Elt?<V>, ghost p: nat)
      requires Linked() && buckets[hash % size] == elts
      ensures var c := Chain(entries, size, hash % size);
        && p <= |c| && (forall t :: 0 <= t < p ==> !(Matches(c[t], hash, name) && pick(c[t].value)))
        && (found == null <==> p == |c|)
        && (found != null ==> found == c[p] && Matches(found, hash, name) && pick(found.value))
    {
      ghost var i := hash % size;
      ghost var c := Chain(entries, size, i);
      p := 0;
      ChainHead(i);
      var q := elts.next;
      while q != elts
        invariant 0 <= p <= |c| && q == (if p < |c| then c[p].queue else elts)
        invariant forall t :: 0 <= t < p ==> !(Matches(c[t], hash, name) && pick(c[t].value))
        decreases |c| - p
      {
        ChainAt(i, p);
        var e := q.data;
        if !(e.keyHash != hash || |e.key| != |name| || !pick(e.value)) {
          if CStr(e.key) == CStr(name) {
            return e, p;
          }
        }
        p, q := p + 1, q.next;
      }
      ChainEnd(i, p);
      found := null;
    }

    // stu_channel.c, lines 138-175: only the first match with a picked value goes.
    method RemoveOne(hash: Word, name: seq<Byte>, pick: V -> bool)
      requires Valid()
      modifies this`entries, this`length, buckets, LinksOf(hash % size)
      ensures Valid() && Items() == DeleteOne(old(Items()), hash, name, pick)
      ensures forall e {:trigger e in entries} :: e in entries ==> e in old(entries)
    {
      var elts := buckets[hash % size];
      ghost var i := hash % size;
      if elts == null {
        assert BucketOk(i);
        assert entries[..|entries|] == entries;
        NotPicked(hash, name, pick, 0, |entries|);
        return;
      }
      RemoveOneFrom(elts, hash, name, pick);
    }

    method RemoveOneFrom(elts: Link<Elt?<V>>, hash: Word, name: seq<Byte>, pick: V -> bool)
      requires Valid() && buckets[hash % size] == elts
      modifies this`entries, this`length, buckets, LinksOf(hash % size)
      ensures Valid() && Items() == DeleteOne(old(Items()), hash, name, pick)
      ensures forall e {:trigger e in entries} :: e in entries ==> e in old(entries)
    {
      var e, p := FindPicked(elts, hash, name, pick);
      if e == null {
        assert entries[..|entries|] == entries;
        NotPicked(hash, name, pick, p, |entries|);
      } else {
        RemovePicked(elts, e, p, hash, name, pick);
      }
      CloseBucket(hash % size, elts);
    }

    method RemovePicked(elts: Link<Elt?<V>>, e: Elt<V>, ghost p: nat, ghost hash: Word, ghost name: seq<Byte>, ghost pick: V -> bool)
      requires Valid() && buckets[hash % size] == elts && Matches(e, hash, name) && pick(e.value)
      requires var c := Chain(entries, size, hash % size);
        p < |c| && c[p] == e && forall t :: 0 <= t < p ==> !(Matches(c[t], hash, name) && pick(c[t].value))
      modifies this`entries, this`length, LinksOf(hash % size)
      ensures Linked() && InUseBut(hash % size) && Items() == DeleteOne(old(Items()), hash, name, pick)
      ensures forall e {:trigger e in entries} :: e in entries ==> e in old(entries)
    {
      ghost var i := hash % size;
      ghost var m := PlaceOf(i, p);
      NotPicked(hash, name, pick, p, m);
      Unlink(i, elts, e, m, true);
      UnlinkedInUse(i, m);
      UnlinkedItems(m);
    }

    twostate lemma UnlinkedItems(new m: nat)
      requires m < |old(entries)| && entries == Without(old(entries), m)
      requires forall e {:trigger e.value} :: e in old(entries) ==> e.value == old(e.value)
      ensures Items() == Without(old(Items()), m)
    {
    }

    twostate lemma UnlinkedInUse(new i: nat, new m: nat)
      requires size == buckets.Length > 0 && old(InUseBut(i)) && unchanged(buckets)
      requires m < |old(entries)| && entries == Without(old(entries), m) && old(entries)[m].keyHash % size == i
      ensures InUseBut(i)
    {
      forall b | 0 <= b < size && b != i && buckets[b] != null ensures Chain(entries, size, b) != [] {
        ChainWithout(old(entries), size, b, m);
      }
    }

    lemma KeysAt(j: nat)
      requires Linked() && j < |entries|
      ensures entries[j].q != keys && entries[j].q.data == entries[j]
      ensures entries[j].q.next == if j + 1 < |entries| then entries[j + 1].q else keys
    {
      assert EltOk(entries[j]) && Qs(entries)[j].next == if j + 1 < |entries| then Qs(entries)[j + 1] else keys;
    }

    lemma KeysEnd(j: nat)
      requires Linked() && j <= |entries|
      ensures j < |entries| ==> entries[j].q != keys
    {
      assert Qs(entries)[..j] <= Qs(entries);
    }

    // The callback is called with the items in this order.
    method ForeachLocked() returns (visited: seq<Item<V>>)
      requires Valid()
      ensures visited == Items()
    {
      visited := [];
      ghost var j := 0;
      var q := keys.next;
      while q != keys
        invariant 0 <= j <= |entries| && q == (if j < |entries| then entries[j].q else keys)
        invariant visited == Items()[..j]
        decreases |entries| - j
      {
        KeysAt(j);
        var e := q.data;
        visited := visited + [Item(e.key, e.keyHash, e.value)];
        j, q := j + 1, q.next;
      }
      KeysEnd(j);
    }

    // Line 106.
    method Overwrite(e: Elt<V>, value: V, ghost hash: Word, ghost key: seq<Byte>)
      requires Linked() && InUseBut(hash % size) && e == First(entries, hash, key)
      modifies e`value
      ensures Valid() && Items() == Put(old(Items()), hash, key, value, true)
    {
      FirstIsIndexOf(entries, hash, key);
      ghost var m := IndexOf(Items(), hash, key);
      ChainMember(entries, size, hash % size, e);
      e.value := value;
      assert Items() == old(Items())[m := Item(e.key, e.keyHash, value)];
    }

    // Lines 112-130.
    method AddNew(elts: Link<Elt?<V>>, key: seq<Byte>, kh: Word, value: V)
      requires Linked() && InUseBut(kh % size) && buckets[kh % size] == elts
      modifies this`entries, this`length, this`links, LinksOf(kh % size)
      ensures Valid() && Items() == old(Items()) + [Item(key, kh, value)]
      ensures (forall l :: l in links ==> l in old(links) || fresh(l)) && old(entries) <= entries && forall e {:trigger e in entries} :: e in entries ==> e in old(entries) || fresh(e)
    {
      var elt := AppendNew(elts, key, kh, value);
      AppendedInUse(kh % size, elt);
      assert Items() == old(Items()) + [Item(key, kh, value)];
    }

    method AppendNew(elts: Link<Elt?<V>>, key: seq<Byte>, kh: Word, value: V) returns (elt: Elt<V>)
      requires Linked() && buckets[kh % size] == elts
      modifies this`entries, this`length, this`links, LinksOf(kh % size)
      ensures Linked() && entries == old(entries) + [elt] && fresh(elt)
      ensures elt.key == key && elt.keyHash == kh && elt.value == value
      ensures forall l :: l in links ==> l in old(links) || fresh(l)
    {
      elt := new Elt<V>(key, kh, value, kh % size);
      Append(kh % size, elts, elt);
    }

    twostate lemma AppendedInUse(new i: nat, new elt: Elt<V>)
      requires Linked() && old(size == buckets.Length > 0 && InUseBut(i)) && elt.keyHash % size == i
      requires unchanged(buckets) && entries == old(entries) + [elt]
      ensures Valid()
    {
      forall b | 0 <= b < size && buckets[b] != null ensures Chain(entries, size, b) != [] {
        ChainConcat(old(entries), [elt], size, b);
      }
    }

    // Lines 99-110.
    method Replace(elts: Link<Elt?<V>>, key: seq<Byte>, kh: Word, value: V) returns (done: bool)
      requires Linked() && InUseBut(kh % size) && buckets[kh % size] == elts
      modifies entries`value
      ensures done == (IndexOf(old(Items()), kh, key) < |old(Items())|)
      ensures if done then Valid() && Items() == Put(old(Items()), kh, key, value, true) else Items() == old(Items())
    {
      var e := Search(elts, kh, key);
      FirstIsIndexOf(entries, kh, key);
      done := e != null;
      if done {
        Overwrite(e, value, kh, key);
      }
    }

    method InsertHashed(key: seq<Byte>, kh: Word, value: V, replace: bool)
      requires Valid()
      modifies this`entries, this`length, this`links, buckets, links, entries`value
      ensures Valid() && Items() == Put(old(Items()), kh, key, value, replace)
      ensures forall l :: l in links ==> l in old(links) || fresh(l)
      ensures forall e {:trigger e in entries} :: e in entries ==> e in old(entries) || fresh(e)
    {
      var elts := OpenBucket(kh % size);
      assert Items() == old(Items());
      if replace {
        var done := Replace(elts, key, kh, value);
        if done {
          return;
        }
      }
      AddNew(elts, key, kh, value);
    }

    method InsertLocked(key: seq<Byte>, value: V, lowcase: bool, replace: bool)
      requires Valid()
      modifies this`entries, this`length, this`links, buckets, links, entries`value
      ensures Valid()
      ensures Items() == Put(old(Items()), Wrap(Poly(if lowcase then Lower(key) else key)), key, value, replace)
      ensures forall l :: l in links ==> l in old(links) || fresh(l)
      ensures forall e {:trigger e in entries} :: e in entries ==> e in old(entries) || fresh(e)
    {
      var kh: Word;
      if lowcase {
        kh := HashKeyLc(key);
      } else {
        kh := HashKey(key);
      }
      InsertHashed(key, kh, value, replace);
    }
  }
}
