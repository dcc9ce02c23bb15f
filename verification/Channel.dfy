// The channel registry of stu_channel.c: which connections are in which channel, kept in a
// hash table of channels, each with a hash table of its members.
module Channel {
  import opened Words
  import opened Queue
  import opened Bytes
  import opened Hash

  class Connection {
    const fd: int
    const userId: seq<Byte>
    var channel: Channel?

    constructor (fd: int, userId: seq<Byte>)
      ensures this.fd == fd && this.userId == userId && channel == null
    {
      this.fd, this.userId, channel := fd, userId, null;
    }
  }

  // `userlist` is what the hash table of the members holds.
  class Channel {
    const id: seq<Byte>
    const users: Hash<Connection>
    ghost var userlist: seq<Item<Connection>>

    constructor (id: seq<Byte>, users: Hash<Connection>)
      ensures this.id == id && this.users == users && userlist == []
    {
      this.id, this.users, userlist := id, users, [];
    }
  }

  function KeyOf(name: seq<Byte>): Word {
    Wrap(Poly(Lower(name)))
  }

  function SameFd(c: Connection): Connection -> bool {
    (v: Connection) => v.fd == c.fd
  }

  // Two ids name the same channel.
  predicate SameId(a: seq<Byte>, b: seq<Byte>) {
    KeyOf(a) == KeyOf(b) && |a| == |b| && CStr(a) == CStr(b)
  }

  // Two ids without a NUL name the same channel exactly if they are the same: the hash is of
  // the lower case, but the comparison is not.
  lemma SameIdIff(a: seq<Byte>, b: seq<Byte>)
    requires 0 !in a && 0 !in b
    ensures SameId(a, b) <==> a == b
  {
    CStrNulFree(a);
    CStrNulFree(b);
  }

  ghost function Conns(l: seq<Item<Connection>>): (r: seq<Connection>)
    ensures |r| == |l| && forall i :: 0 <= i < |l| ==> r[i] == l[i].value
  {
    seq(|l|, i requires 0 <= i < |l| => l[i].value)
  }

  function Sum(s: seq<nat>): nat {
    if s == [] then 0 else s[0] + Sum(s[1..])
  }

  lemma {:induction false} SumConcat(a: seq<nat>, b: seq<nat>)
    ensures Sum(a + b) == Sum(a) + Sum(b)
  {
    if a == [] {
      assert a + b == b;
    } else {
      SumConcat(a[1..], b);
      assert (a + b)[1..] == a[1..] + b;
    }
  }

  lemma SumUpdate(s: seq<nat>, k: nat, v: nat)
    requires k < |s|
    ensures Sum(s[k := v]) == Sum(s) - s[k] + v && Sum(Without(s, k)) == Sum(s) - s[k]
  {
    assert s == s[..k] + ([s[k]] + s[k + 1..]) && s[k := v] == s[..k] + ([v] + s[k + 1..]);
    SumConcat(s[..k], [s[k]] + s[k + 1..]);
    SumConcat(s[..k], [v] + s[k + 1..]);
    SumConcat(s[..k], s[k + 1..]);
  }

  lemma PickIs<V>(m: seq<Item<V>>, hash: Word, name: seq<Byte>, pick: V -> bool, k: nat)
    requires k < |m| && Same(m[k], hash, name) && pick(m[k].value)
    requires forall i {:trigger m[i]} :: 0 <= i < k ==> !pick(m[i].value)
    ensures PickOf(m, hash, name, pick) == k
  {
  }

  lemma {:induction false} DeleteOnly<V>(m: seq<Item<V>>, hash: Word, name: seq<Byte>, k: nat)
    requires k < |m| && forall i {:trigger m[i]} :: 0 <= i < |m| ==> (Same(m[i], hash, name) <==> i == k)
    ensures DeleteAll(m, hash, name) == Without(m, k)
  {
    if k == 0 {
      DeleteNone(m[1..], hash, name);
    } else {
      assert forall i :: 0 <= i < |m[1..]| ==> m[1..][i] == m[i + 1];
      DeleteOnly(m[1..], hash, name, k - 1);
      assert !Same(m[0], hash, name);
    }
  }

  lemma {:induction false} DeleteNone<V>(m: seq<Item<V>>, hash: Word, name: seq<Byte>)
    requires forall i {:trigger m[i]} :: 0 <= i < |m| ==> !Same(m[i], hash, name)
    ensures DeleteAll(m, hash, name) == m
  {
    if m != [] {
      assert forall i :: 0 <= i < |m[1..]| ==> m[1..][i] == m[i + 1];
      DeleteNone(m[1..], hash, name);
    }
  }

  // ----- Rooms: the registry as a value -----------------------------------------------

  datatype Room = Room(ch: Channel, list: seq<Item<Connection>>)

  function Entry(c: Connection): Item<Connection> {
    Item(c.userId, KeyOf(c.userId), c)
  }

  ghost function Sizes(rooms: seq<Room>): (r: seq<nat>)
    ensures |r| == |rooms| && forall i :: 0 <= i < |rooms| ==> r[i] == |rooms[i].list|
  {
    seq(|rooms|, i requires 0 <= i < |rooms| => |rooms[i].list|)
  }

  ghost predicate Apart(rooms: seq<Room>, i: nat, k: nat)
    requires i < |rooms| && k < |rooms|
  {
    rooms[i].ch != rooms[k].ch && !SameId(rooms[i].ch.id, rooms[k].ch.id)
  }

  // Each member of the room is joined, and joined to this room, and listed once.
  ghost predicate ListOk(r: Room, joined: map<Connection, Channel>) {
    && (forall j {:trigger r.list[j]} :: 0 <= j < |r.list| ==>
          r.list[j].value in joined && joined[r.list[j].value] == r.ch && r.list[j] == Entry(r.list[j].value))
    && (forall j, k {:trigger r.list[j], r.list[k]} :: 0 <= j < k < |r.list| ==> r.list[j] != r.list[k])
  }

  ghost predicate Seated(rooms: seq<Room>, c: Connection) {
    exists i {:trigger rooms[i]} :: 0 <= i < |rooms| && Entry(c) in rooms[i].list
  }

  ghost predicate ListsOk(rooms: seq<Room>, joined: map<Connection, Channel>, empty: int) {
    forall i {:trigger rooms[i]} :: 0 <= i < |rooms| ==> ListOk(rooms[i], joined) && (i != empty ==> rooms[i].list != [])
  }

  ghost predicate AllApart(rooms: seq<Room>) {
    forall i, k {:trigger Apart(rooms, i, k)} :: 0 <= i < k < |rooms| ==> Apart(rooms, i, k)
  }

  ghost predicate AllSeated(rooms: seq<Room>, joined: map<Connection, Channel>) {
    forall c {:trigger Seated(rooms, c)} :: c in joined ==> Seated(rooms, c)
  }

  ghost predicate UniqueFds(joined: map<Connection, Channel>) {
    forall c, d {:trigger c.fd, d.fd} :: c in joined && d in joined && c.fd == d.fd ==> c == d
  }

  // Live connections have different descriptors.
  ghost predicate Newcomer(joined: map<Connection, Channel>, c: Connection) {
    c !in joined && forall d {:trigger d.fd} :: d in joined ==> d.fd != c.fd
  }

  // The invariant, but for the room `empty`, which may have no member.
  ghost predicate Sound(rooms: seq<Room>, joined: map<Connection, Channel>, empty: int) {
    && ListsOk(rooms, joined, empty) && AllApart(rooms) && AllSeated(rooms, joined) && UniqueFds(joined)
    && Sum(Sizes(rooms)) == |joined|
  }

  // The room of that name, or the number of rooms.
  ghost function RoomOf(rooms: seq<Room>, id: seq<Byte>): (k: nat)
    ensures k <= |rooms|
    ensures k < |rooms| ==> SameId(rooms[k].ch.id, id)
    ensures forall i :: 0 <= i < k ==> !SameId(rooms[i].ch.id, id)
  {
    if rooms == [] || SameId(rooms[0].ch.id, id) then 0 else 1 + RoomOf(rooms[1..], id)
  }

  ghost function MembersOf(rooms: seq<Room>, id: seq<Byte>): seq<Connection> {
    var k := RoomOf(rooms, id);
    if k < |rooms| then Conns(rooms[k].list) else []
  }

  lemma RoomIs(rooms: seq<Room>, id: seq<Byte>, k: nat)
    requires k <= |rooms| && (forall i {:trigger rooms[i]} :: 0 <= i < k ==> !SameId(rooms[i].ch.id, id))
    requires k < |rooms| ==> SameId(rooms[k].ch.id, id)
    ensures RoomOf(rooms, id) == k
  {
  }

  // The first n rooms have been added up.
  ghost predicate Added(rooms: seq<Room>, n: nat, total: int) {
    n <= |rooms| && total == Sum(Sizes(rooms)[..n])
  }

  lemma AddedNext(rooms: seq<Room>, n: nat, total: int)
    requires n < |rooms| && Added(rooms, n, total)
    ensures Added(rooms, n + 1, total + |rooms[n].list|)
  {
    assert Sizes(rooms)[..n + 1] == Sizes(rooms)[..n] + [Sizes(rooms)[n]];
    SumConcat(Sizes(rooms)[..n], [Sizes(rooms)[n]]);
  }

  lemma AddedAll(rooms: seq<Room>, joined: map<Connection, Channel>, total: int)
    requires Sound(rooms, joined, -1) && Added(rooms, |rooms|, total)
    ensures total == |joined|
  {
    assert Sizes(rooms)[..|rooms|] == Sizes(rooms);
  }

  // Every member of the first n rooms has been sent the message.
  ghost predicate Reached(rooms: seq<Room>, n: nat, sent: seq<int>)
    requires n <= |rooms|
  {
    forall k, j {:trigger rooms[k].list[j]} :: 0 <= k < n && 0 <= j < |rooms[k].list| ==> rooms[k].list[j].value.fd in sent
  }

  lemma ReachedAll(rooms: seq<Room>, joined: map<Connection, Channel>, sent: seq<int>)
    requires Sound(rooms, joined, -1) && Reached(rooms, |rooms|, sent)
    ensures forall c {:trigger c.fd} :: c in joined ==> c.fd in sent
  {
    forall c | c in joined ensures c.fd in sent {
      assert Seated(rooms, c);
      var k :| 0 <= k < |rooms| && Entry(c) in rooms[k].list;
      var j :| 0 <= j < |rooms[k].list| && rooms[k].list[j] == Entry(c);
      assert rooms[k].list[j].value.fd in sent;
    }
  }

  ghost function Fds(list: seq<Item<Connection>>): (r: seq<int>)
    ensures |r| == |list| && forall j :: 0 <= j < |list| ==> r[j] == list[j].value.fd
  {
    seq(|list|, j requires 0 <= j < |list| => list[j].value.fd)
  }

  lemma ReachedNext(rooms: seq<Room>, n: nat, sent: seq<int>)
    requires n < |rooms| && Reached(rooms, n, sent)
    ensures Reached(rooms, n + 1, sent + Fds(rooms[n].list))
  {
    forall k, j | 0 <= k <= n && 0 <= j < |rooms[k].list| ensures rooms[k].list[j].value.fd in sent + Fds(rooms[n].list) {
      assert k == n ==> Fds(rooms[n].list)[j] == rooms[k].list[j].value.fd;
    }
  }

  // A room further on has no room of the same name before it.
  lemma RoomIsOwn(rooms: seq<Room>, k: nat, id: seq<Byte>)
    requires k < |rooms| && AllApart(rooms)
    requires SameId(rooms[k].ch.id, id)
    ensures RoomOf(rooms, id) == k
  {
    forall i | 0 <= i < k ensures !SameId(rooms[i].ch.id, id) {
      assert Apart(rooms, i, k);
    }
  }

  // No membership is different in b.
  ghost predicate SameMembers(a: seq<Room>, b: seq<Room>) {
    forall name :: MembersOf(b, name) == MembersOf(a, name)
  }

  // In b, c is the last member of the channel called id; no other membership is different.
  ghost predicate Gained(a: seq<Room>, b: seq<Room>, id: seq<Byte>, c: Connection) {
    forall name :: MembersOf(b, name) == if SameId(id, name) then MembersOf(a, name) + [c] else MembersOf(a, name)
  }

  lemma GainedVia(a: seq<Room>, b: seq<Room>, d: seq<Room>, id: seq<Byte>, same: seq<Byte>, c: Connection)
    requires SameMembers(a, b) && Gained(b, d, id, c) && SameId(id, same)
    ensures Gained(a, d, same, c)
  {
    forall name ensures MembersOf(d, name) == if SameId(same, name) then MembersOf(a, name) + [c] else MembersOf(a, name) {
      assert MembersOf(b, name) == MembersOf(a, name);
    }
  }

  // In b, c is no member of the channel called id; no other membership is different.
  ghost predicate Lost(a: seq<Room>, b: seq<Room>, id: seq<Byte>, c: Connection) {
    forall name :: MembersOf(b, name) == if SameId(id, name) then Minus(MembersOf(a, name), c) else MembersOf(a, name)
  }

  lemma AddRoomMembers(rooms: seq<Room>, ch: Channel, name: seq<Byte>)
    ensures MembersOf(rooms + [Room(ch, [])], name) == MembersOf(rooms, name)
  {
    var after, k := rooms + [Room(ch, [])], RoomOf(rooms, name);
    assert forall i :: 0 <= i < |rooms| ==> after[i] == rooms[i];
    RoomIs(after, name, if k == |rooms| && !SameId(ch.id, name) then |after| else k);
  }

  // Joining adds to lists only, so whoever was seated still is.
  lemma StillSeated(rooms: seq<Room>, joined: map<Connection, Channel>, after: seq<Room>)
    requires AllSeated(rooms, joined) && |rooms| <= |after|
    requires forall i, x {:trigger x in rooms[i].list} :: 0 <= i < |rooms| && x in rooms[i].list ==> x in after[i].list
    ensures AllSeated(after, joined)
  {
    forall c | c in joined ensures Seated(after, c) {
      assert Seated(rooms, c);
      var i :| 0 <= i < |rooms| && Entry(c) in rooms[i].list;
      assert Entry(c) in after[i].list;
    }
  }

  lemma AddRoomSum(rooms: seq<Room>, ch: Channel)
    ensures Sum(Sizes(rooms + [Room(ch, [])])) == Sum(Sizes(rooms))
  {
    assert Sizes(rooms + [Room(ch, [])]) == Sizes(rooms) + [0];
    SumConcat(Sizes(rooms), [0]);
  }

  lemma AddRoomApart(rooms: seq<Room>, ch: Channel)
    requires AllApart(rooms) && RoomOf(rooms, ch.id) == |rooms|
    requires forall i {:trigger rooms[i]} :: 0 <= i < |rooms| ==> rooms[i].ch != ch
    ensures AllApart(rooms + [Room(ch, [])])
  {
    var after := rooms + [Room(ch, [])];
    forall i, k | 0 <= i < k < |after| ensures Apart(after, i, k) {
      assert after[i] == rooms[i];
      assert k < |rooms| ==> after[k] == rooms[k] && Apart(rooms, i, k);
    }
  }

  lemma AddRoom(rooms: seq<Room>, joined: map<Connection, Channel>, ch: Channel)
    requires Sound(rooms, joined, -1) && RoomOf(rooms, ch.id) == |rooms|
    requires forall i {:trigger rooms[i]} :: 0 <= i < |rooms| ==> rooms[i].ch != ch
    ensures Sound(rooms + [Room(ch, [])], joined, |rooms|)
  {
    var after := rooms + [Room(ch, [])];
    AddRoomSum(rooms, ch);
    AddRoomApart(rooms, ch);
    StillSeated(rooms, joined, after);
    assert ListsOk(after, joined, |rooms|) by {
      forall i | 0 <= i < |after| ensures ListOk(after[i], joined) && (i != |rooms| ==> after[i].list != []) {
        assert i < |rooms| ==> after[i] == rooms[i];
      }
    }
  }

  lemma Differ(rooms: seq<Room>, k: nat)
    requires k < |rooms| && AllApart(rooms)
    ensures forall i {:trigger rooms[i]} :: 0 <= i < |rooms| && i != k ==> rooms[i].ch != rooms[k].ch
  {
    forall i | 0 <= i < |rooms| && i != k ensures rooms[i].ch != rooms[k].ch {
      assert Apart(rooms, if i < k then i else k, if i < k then k else i);
    }
  }

  // ----- A connection joins a room ----------------------------------------------------

  function Joined(rooms: seq<Room>, k: nat, c: Connection): seq<Room>
    requires k < |rooms|
  {
    rooms[k := Room(rooms[k].ch, rooms[k].list + [Entry(c)])]
  }

  lemma SameApart(rooms: seq<Room>, after: seq<Room>)
    requires AllApart(rooms) && |after| == |rooms|
    requires forall i {:trigger after[i]} {:trigger rooms[i]} :: 0 <= i < |rooms| ==> after[i].ch == rooms[i].ch
    ensures AllApart(after)
  {
    forall i, l | 0 <= i < l < |after| ensures Apart(after, i, l) {
      assert Apart(rooms, i, l);
    }
  }

  lemma AddMemberList(r: Room, joined: map<Connection, Channel>, c: Connection, ch: Channel)
    requires ListOk(r, joined) && c !in joined
    ensures ListOk(r, joined[c := ch]) && (r.ch == ch ==> ListOk(Room(ch, r.list + [Entry(c)]), joined[c := ch]))
  {
    assert forall j {:trigger r.list[j]} :: 0 <= j < |r.list| ==> r.list[j] != Entry(c);
  }

  lemma AddMemberLists(rooms: seq<Room>, joined: map<Connection, Channel>, k: nat, c: Connection)
    requires k < |rooms| && ListsOk(rooms, joined, k) && c !in joined
    ensures ListsOk(Joined(rooms, k, c), joined[c := rooms[k].ch], -1)
  {
    var after, now := Joined(rooms, k, c), joined[c := rooms[k].ch];
    forall i | 0 <= i < |after| ensures ListOk(after[i], now) && after[i].list != [] {
      AddMemberList(rooms[i], joined, c, rooms[k].ch);
    }
  }

  lemma AddMemberSum(rooms: seq<Room>, k: nat, c: Connection)
    requires k < |rooms|
    ensures Sum(Sizes(Joined(rooms, k, c))) == Sum(Sizes(rooms)) + 1
  {
    assert Sizes(Joined(rooms, k, c)) == Sizes(rooms)[k := Sizes(rooms)[k] + 1];
    SumUpdate(Sizes(rooms), k, Sizes(rooms)[k] + 1);
  }

  lemma AddMember(rooms: seq<Room>, joined: map<Connection, Channel>, k: nat, c: Connection)
    requires k < |rooms| && Sound(rooms, joined, k) && Newcomer(joined, c)
    ensures Sound(Joined(rooms, k, c), joined[c := rooms[k].ch], -1)
  {
    var after, now := Joined(rooms, k, c), joined[c := rooms[k].ch];
    AddMemberSum(rooms, k, c);
    assert now.Keys == joined.Keys + {c};
    SameApart(rooms, after);
    AddMemberLists(rooms, joined, k, c);
    assert AllSeated(after, now) by {
      StillSeated(rooms, joined, after);
      assert Entry(c) in after[k].list;
    }
  }

  // The members of that name when c has joined room k.
  ghost function Grown(rooms: seq<Room>, k: nat, c: Connection, name: seq<Byte>): seq<Connection>
    requires k < |rooms|
  {
    if SameId(rooms[k].ch.id, name) then MembersOf(rooms, name) + [c] else MembersOf(rooms, name)
  }

  lemma AddMemberMembers(rooms: seq<Room>, k: nat, c: Connection, name: seq<Byte>)
    requires k < |rooms| && AllApart(rooms)
    ensures MembersOf(Joined(rooms, k, c), name) == Grown(rooms, k, c, name)
  {
    var after, j := Joined(rooms, k, c), RoomOf(rooms, name);
    assert forall i :: 0 <= i < |rooms| ==> after[i].ch == rooms[i].ch;
    RoomIs(after, name, j);
    if SameId(rooms[k].ch.id, name) {
      RoomIsOwn(rooms, k, name);
      assert Conns(rooms[k].list + [Entry(c)]) == Conns(rooms[k].list) + [c];
    }
  }

  // ----- A connection leaves its room -------------------------------------------------

  function Minus(s: seq<Connection>, c: Connection): seq<Connection> {
    if s == [] then [] else if s[0] == c then s[1..] else [s[0]] + Minus(s[1..], c)
  }

  lemma {:induction false} MinusAt(s: seq<Connection>, c: Connection, j: nat)
    requires j < |s| && s[j] == c && (forall i {:trigger s[i]} :: 0 <= i < j ==> s[i] != c)
    ensures Minus(s, c) == Without(s, j)
  {
    if j > 0 {
      assert forall i :: 0 <= i < |s[1..]| ==> s[1..][i] == s[i + 1];
      MinusAt(s[1..], c, j - 1);
      assert s[0] != c;
    }
  }

  function Left(rooms: seq<Room>, k: nat, j: nat): seq<Room>
    requires k < |rooms| && j < |rooms[k].list|
  {
    rooms[k := Room(rooms[k].ch, Without(rooms[k].list, j))]
  }

  // The members of that name when connection j of room k has left.
  ghost function Shrunk(rooms: seq<Room>, k: nat, j: nat, name: seq<Byte>): seq<Connection>
    requires k < |rooms| && j < |rooms[k].list|
  {
    if SameId(rooms[k].ch.id, name) then Minus(MembersOf(rooms, name), rooms[k].list[j].value) else MembersOf(rooms, name)
  }

  lemma DropMemberSum(rooms: seq<Room>, k: nat, j: nat)
    requires k < |rooms| && j < |rooms[k].list|
    ensures Sum(Sizes(Left(rooms, k, j))) == Sum(Sizes(rooms)) - 1
  {
    assert Sizes(Left(rooms, k, j)) == Sizes(rooms)[k := Sizes(rooms)[k] - 1];
    SumUpdate(Sizes(rooms), k, Sizes(rooms)[k] - 1);
  }

  lemma DropMemberSeated(rooms: seq<Room>, joined: map<Connection, Channel>, k: nat, j: nat)
    requires k < |rooms| && j < |rooms[k].list| && AllSeated(rooms, joined) && ListOk(rooms[k], joined)
    ensures AllSeated(Left(rooms, k, j), joined - {rooms[k].list[j].value})
  {
    var after := Left(rooms, k, j);
    forall d | d in joined - {rooms[k].list[j].value} ensures Seated(after, d) {
      assert Seated(rooms, d);
      var i :| 0 <= i < |rooms| && Entry(d) in rooms[i].list;
      assert Entry(d) in after[i].list;
    }
  }

  lemma DropMember(rooms: seq<Room>, joined: map<Connection, Channel>, k: nat, j: nat)
    requires k < |rooms| && j < |rooms[k].list| && Sound(rooms, joined, -1)
    ensures Sound(Left(rooms, k, j), joined - {rooms[k].list[j].value}, k)
  {
    var after, c := Left(rooms, k, j), rooms[k].list[j].value;
    var now := joined - {c};
    assert ListOk(rooms[k], joined);
    DropMemberSum(rooms, k, j);
    assert now.Keys == joined.Keys - {c};
    SameApart(rooms, after);
    DropMemberSeated(rooms, joined, k, j);
    assert ListsOk(after, now, k) by {
      forall i | 0 <= i < |after| ensures ListOk(after[i], now) && (i != k ==> after[i].list != []) {
        assert ListOk(rooms[i], joined);
        DropMemberList(rooms, joined, k, j, i);
      }
    }
  }

  lemma DropMemberList(rooms: seq<Room>, joined: map<Connection, Channel>, k: nat, j: nat, i: nat)
    requires k < |rooms| && i < |rooms| && j < |rooms[k].list| && ListsOk(rooms, joined, -1) && AllApart(rooms)
    ensures ListOk(Left(rooms, k, j)[i], joined - {rooms[k].list[j].value})
  {
    var r, c := Left(rooms, k, j)[i], rooms[k].list[j].value;
    assert ListOk(rooms[i], joined) && ListOk(rooms[k], joined);
    if i != k {
      assert Apart(rooms, if i < k then i else k, if i < k then k else i);
    } else {
      assert forall l {:trigger r.list[l]} :: 0 <= l < |r.list| ==> r.list[l] == rooms[k].list[if l < j then l else l + 1];
    }
  }

  lemma DropMemberMembers(rooms: seq<Room>, joined: map<Connection, Channel>, k: nat, j: nat, name: seq<Byte>)
    requires k < |rooms| && j < |rooms[k].list| && ListOk(rooms[k], joined) && AllApart(rooms)
    ensures MembersOf(Left(rooms, k, j), name) == Shrunk(rooms, k, j, name)
  {
    var after, l, list := Left(rooms, k, j), RoomOf(rooms, name), rooms[k].list;
    assert forall i :: 0 <= i < |rooms| ==> after[i].ch == rooms[i].ch;
    RoomIs(after, name, l);
    if SameId(rooms[k].ch.id, name) {
      RoomIsOwn(rooms, k, name);
      assert Conns(Without(list, j)) == Without(Conns(list), j);
      forall i | 0 <= i < j ensures Conns(list)[i] != list[j].value {
        assert list[i] != list[j];
      }
      MinusAt(Conns(list), list[j].value, j);
    }
  }

  // ----- An empty room goes -----------------------------------------------------------

  lemma DropRoomApart(rooms: seq<Room>, k: nat)
    requires k < |rooms| && AllApart(rooms)
    ensures AllApart(Without(rooms, k))
  {
    var after := Without(rooms, k);
    forall i, l | 0 <= i < l < |after| ensures Apart(after, i, l) {
      assert Apart(rooms, if i < k then i else i + 1, if l < k then l else l + 1);
    }
  }

  lemma DropRoomSeated(rooms: seq<Room>, joined: map<Connection, Channel>, k: nat)
    requires k < |rooms| && AllSeated(rooms, joined) && rooms[k].list == []
    ensures AllSeated(Without(rooms, k), joined)
  {
    var after := Without(rooms, k);
    forall c | c in joined ensures Seated(after, c) {
      assert Seated(rooms, c);
      var i :| 0 <= i < |rooms| && Entry(c) in rooms[i].list;
      assert after[if i < k then i else i - 1] == rooms[i];
    }
  }

  lemma DropRoomLists(rooms: seq<Room>, joined: map<Connection, Channel>, k: nat)
    requires k < |rooms| && ListsOk(rooms, joined, k)
    ensures ListsOk(Without(rooms, k), joined, -1)
  {
    var after := Without(rooms, k);
    forall i | 0 <= i < |after| ensures ListOk(after[i], joined) && after[i].list != [] {
      assert after[i] == rooms[if i < k then i else i + 1];
    }
  }

  lemma DropRoom(rooms: seq<Room>, joined: map<Connection, Channel>, k: nat)
    requires k < |rooms| && Sound(rooms, joined, k) && rooms[k].list == []
    ensures Sound(Without(rooms, k), joined, -1)
  {
    assert Sizes(Without(rooms, k)) == Without(Sizes(rooms), k);
    SumUpdate(Sizes(rooms), k, 0);
    DropRoomApart(rooms, k);
    DropRoomSeated(rooms, joined, k);
    DropRoomLists(rooms, joined, k);
  }

  lemma DropRoomOwn(rooms: seq<Room>, k: nat, name: seq<Byte>)
    requires k < |rooms| && AllApart(rooms) && rooms[k].list == [] && SameId(rooms[k].ch.id, name)
    ensures MembersOf(Without(rooms, k), name) == MembersOf(rooms, name) == []
  {
    var after := Without(rooms, k);
    RoomIsOwn(rooms, k, name);
    forall i | 0 <= i < |after| ensures !SameId(after[i].ch.id, name) {
      assert after[i] == rooms[if i < k then i else i + 1];
      assert k <= i ==> Apart(rooms, k, i + 1);
    }
    RoomIs(after, name, |after|);
  }

  lemma DropRoomMembers(rooms: seq<Room>, k: nat, name: seq<Byte>)
    requires k < |rooms| && AllApart(rooms) && rooms[k].list == []
    ensures MembersOf(Without(rooms, k), name) == MembersOf(rooms, name)
  {
    if SameId(rooms[k].ch.id, name) {
      DropRoomOwn(rooms, k, name);
    } else {
      var after, j := Without(rooms, k), RoomOf(rooms, name);
      assert forall i :: 0 <= i < |after| ==> after[i] == rooms[if i < k then i else i + 1];
      RoomIs(after, name, if j < k then j else j - 1);
    }
  }

  lemma AddRoomAll(rooms: seq<Room>, ch: Channel)
    ensures SameMembers(rooms, rooms + [Room(ch, [])])
  {
    forall name ensures MembersOf(rooms + [Room(ch, [])], name) == MembersOf(rooms, name) {
      AddRoomMembers(rooms, ch, name);
    }
  }

  lemma Joining(rooms: seq<Room>, joined: map<Connection, Channel>, k: nat, c: Connection)
    requires k < |rooms| && Sound(rooms, joined, k) && Newcomer(joined, c)
    ensures Sound(Joined(rooms, k, c), joined[c := rooms[k].ch], -1)
    ensures Gained(rooms, Joined(rooms, k, c), rooms[k].ch.id, c)
  {
    AddMember(rooms, joined, k, c);
    forall name ensures MembersOf(Joined(rooms, k, c), name) == Grown(rooms, k, c, name) {
      AddMemberMembers(rooms, k, c, name);
    }
  }

  lemma Leaving(rooms: seq<Room>, joined: map<Connection, Channel>, k: nat, j: nat)
    requires k < |rooms| && j < |rooms[k].list| && Sound(rooms, joined, -1)
    ensures Sound(Left(rooms, k, j), joined - {rooms[k].list[j].value}, k)
    ensures Lost(rooms, Left(rooms, k, j), rooms[k].ch.id, rooms[k].list[j].value)
  {
    DropMember(rooms, joined, k, j);
    assert ListOk(rooms[k], joined);
    forall name ensures MembersOf(Left(rooms, k, j), name) == Shrunk(rooms, k, j, name) {
      DropMemberMembers(rooms, joined, k, j, name);
    }
  }

  lemma Loosen(rooms: seq<Room>, joined: map<Connection, Channel>, k: nat)
    requires Sound(rooms, joined, -1)
    ensures Sound(rooms, joined, k)
  {
  }

  lemma DropRoomAll(rooms: seq<Room>, k: nat)
    requires k < |rooms| && AllApart(rooms) && rooms[k].list == []
    ensures SameMembers(rooms, Without(rooms, k))
  {
    forall name ensures MembersOf(Without(rooms, k), name) == MembersOf(rooms, name) {
      DropRoomMembers(rooms, k, name);
    }
  }

  // ----- The hash tables --------------------------------------------------------------

  // An object that is no part of a hash table.
  ghost predicate Outer(o: object) {
    o is Connection || o is Channel || o is Tables || o is Registry
  }

  ghost predicate Inner(s: set<object>) {
    forall o {:trigger o in s} :: o in s ==> !Outer(o)
  }

  // No two hash tables share a part.
  ghost predicate Disjoint(own: set<object>, feet: map<Channel, set<object>>) {
    && (forall ch {:trigger feet[ch]} :: ch in feet ==> feet[ch] !! own)
    && (forall ch, d {:trigger feet[ch], feet[d]} :: ch in feet && d in feet && ch != d ==> feet[ch] !! feet[d])
  }

  lemma DisjointMore(own: set<object>, feet: map<Channel, set<object>>, parts: set<object>, ch: Channel, s: set<object>)
    requires Disjoint(own, feet) && own <= parts && (forall d :: d in feet ==> feet[d] <= parts)
    requires s !! if ch in feet then parts - feet[ch] else parts
    ensures Disjoint(own, feet[ch := s])
  {
  }

  lemma DisjointOwn(own: set<object>, feet: map<Channel, set<object>>, parts: set<object>, s: set<object>)
    requires Disjoint(own, feet) && (forall d :: d in feet ==> feet[d] <= parts)
    requires s !! parts - own
    ensures Disjoint(s, feet)
  {
  }

  // Table h is made of objects of s and holds the items m.
  ghost predicate Made<V>(h: Hash<V>, s: set<object>, m: seq<Item<V>>)
    reads h, s
  {
    && h in s && h.buckets in s && h.links <= s && (forall e :: e in h.entries ==> e in s)
    && h.Valid() && h.Items() == m
  }

  // The same; proofs see into it where Made() is mentioned.
  ghost predicate Kept<V>(h: Hash<V>, s: set<object>, m: seq<Item<V>>)
    reads h, s
  {
    && h in s && Inner(s)
    && forall t: Hash<V> {:trigger Made(t, s, m)} :: t == h ==> Made(t, s, m)
  }

  ghost function Parts<V>(h: Hash<V>): set<object>
    reads h
  {
    var one: set<object>, rings: set<object>, elts: set<object> := {h, h.buckets}, h.links, set e | e in h.entries;
    one + rings + elts
  }

  lemma InnerParts<V>(h: Hash<V>)
    ensures Inner(Parts(h))
  {
  }

  method Make<V>(size: nat) returns (h: Hash<V>, ghost s: set<object>)
    requires size > 0
    ensures Kept(h, s, []) && fresh(s)
  {
    var buckets := new Link?<Elt?<V>>[size](_ => null);
    h := new Hash(size, buckets);
    s := Parts(h);
    assert Made(h, s, []);
  }

  method Lookup<V>(h: Hash<V>, hash: Word, name: seq<Byte>, ghost s: set<object>, ghost m: seq<Item<V>>) returns (v: Option<V>)
    requires Kept(h, s, m)
    ensures v == Get(m, hash, name)
  {
    assert Made(h, s, m);
    v := h.FindLocked(hash, name);
  }

  method Walk<V>(h: Hash<V>, ghost s: set<object>, ghost m: seq<Item<V>>) returns (all: seq<Item<V>>)
    requires Kept(h, s, m)
    ensures all == m
  {
    assert Made(h, s, m);
    all := h.ForeachLocked();
  }

  method Length<V>(h: Hash<V>, ghost s: set<object>, ghost m: seq<Item<V>>) returns (n: int)
    requires Kept(h, s, m)
    ensures n == |m|
  {
    assert Made(h, s, m);
    n := h.length;
  }

  method Insert<V>(h: Hash<V>, key: seq<Byte>, value: V, replace: bool, ghost s: set<object>) returns (ghost t: set<object>)
    requires h.Valid() && Parts(h) <= s
    modifies s
    ensures h.Valid() && h.Items() == Put(old(h.Items()), KeyOf(key), key, value, replace) && t == s + Parts(h)
    ensures forall o {:trigger o in t} :: o in t ==> o in s || fresh(o)
  {
    h.InsertLocked(key, value, true, replace);
    t := s + Parts(h);
  }

  method Store<V>(h: Hash<V>, key: seq<Byte>, value: V, replace: bool, ghost s: set<object>, ghost m: seq<Item<V>>)
    returns (ghost t: set<object>)
    requires Kept(h, s, m)
    modifies s
    ensures Kept(h, t, Put(m, KeyOf(key), key, value, replace)) && s <= t
    ensures forall o {:trigger o in t} :: o in t ==> o in s || fresh(o)
  {
    assert Made(h, s, m);
    t := Insert(h, key, value, replace, s);
    InnerParts(h);
    assert Made(h, t, Put(m, KeyOf(key), key, value, replace));
  }

  method Discard<V>(h: Hash<V>, hash: Word, name: seq<Byte>, ghost s: set<object>, ghost m: seq<Item<V>>)
    requires Kept(h, s, m)
    modifies s
    ensures Kept(h, s, DeleteAll(m, hash, name))
  {
    assert Made(h, s, m);
    h.RemoveLocked(hash, name);
    assert Made(h, s, DeleteAll(m, hash, name));
  }

  method DiscardOne<V>(h: Hash<V>, hash: Word, name: seq<Byte>, pick: V -> bool, ghost s: set<object>, ghost m: seq<Item<V>>)
    requires Kept(h, s, m)
    modifies s
    ensures Kept(h, s, DeleteOne(m, hash, name, pick))
  {
    assert Made(h, s, m);
    h.RemoveOne(hash, name, pick);
    assert Made(h, s, DeleteOne(m, hash, name, pick));
  }

  // The table of channels and the tables of their members.
  class Tables {
    const table: Hash<Channel>
    const size: nat

    ghost var channels: seq<Item<Channel>>       // what the table holds
    ghost var own: set<object>                   // what it is made of
    ghost var feet: map<Channel, set<object>>    // what the tables of the channels are made of
    ghost var parts: set<object>                 // all of it

    ghost predicate Ok()
      reads this, parts, feet.Keys
    {
      && size > 0 && table in own && own <= parts && Kept(table, own, channels)
      && (forall ch {:trigger feet[ch]} :: ch in feet ==>
            feet[ch] <= parts && ch.users in feet[ch] && Kept(ch.users, feet[ch], ch.userlist))
      && Disjoint(own, feet) && Inner(parts)
    }

    // Every hash table is valid and holds what it should.
    lemma Holds(ch: Channel)
      requires Ok()
      ensures table.Valid() && table.Items() == channels
      ensures ch in feet ==> ch.users.Valid() && ch.users.Items() == ch.userlist
    {
      assert Made(table, own, channels);
      if ch in feet {
        assert Made(ch.users, feet[ch], ch.userlist);
      }
    }

    // `maximum` is STU_CHANNEL_MAXIMUM, `size` STU_USER_MAXIMUM.
    constructor (maximum: nat, size: nat)
      requires maximum > 0 && size > 0
      ensures Ok() && channels == [] && feet == map[] && fresh(parts)
    {
      var t, s := Make<Channel>(maximum);
      this.size, table, own := size, t, s;
      parts, feet, channels := s, map[], [];
    }

    // Whatever belongs to the tables now, and did not before, is new.
    twostate predicate Grew()
      reads this
    {
      && (forall ch {:trigger ch in feet} :: ch in feet ==> ch in old(feet) || fresh(ch))
      && (forall o {:trigger o in parts} :: o in parts ==> o in old(parts) || fresh(o))
    }

    twostate lemma Unmoved()
      requires old(Ok()) && unchanged(this) && unchanged(parts) && unchanged(feet.Keys)
      ensures Ok()
    {
    }

    // An operation on the table of channels.
    twostate lemma TableMoved(was: set<object>)
      requires old(Ok()) && table in own && Kept(table, own, channels)
      requires parts == old(parts) + own && feet == old(feet)
      requires was == old(own) <= own
      requires forall o {:trigger o in own} :: o in own ==> o in was || fresh(o)
      requires unchanged(feet.Keys) && unchanged(old(parts) - was)
      ensures Ok()
    {
      forall ch | ch in feet ensures Kept(ch.users, feet[ch], ch.userlist) {
        assert old(Kept(ch.users, feet[ch], ch.userlist)) && unchanged(feet[ch]);
      }
      DisjointOwn(was, feet, old(parts), own);
    }

    // An operation on the members of channel ch.
    twostate lemma UsersMoved(ch: Channel, new s: set<object>)
      requires old(Ok()) && ch in old(feet) && Kept(ch.users, s, ch.userlist)
      requires channels == old(channels) && own == old(own)
      requires feet == old(feet)[ch := s] && parts == old(parts) + s && old(feet[ch]) <= s
      requires forall o {:trigger o in s} :: o in s ==> o in old(feet[ch]) || fresh(o)
      requires unchanged(feet.Keys - {ch}) && unchanged(old(parts) - old(feet[ch]))
      ensures Ok()
    {
      forall d | d in feet ensures feet[d] <= parts && Kept(d.users, feet[d], d.userlist) {
        assert old(Kept(d.users, feet[d], d.userlist));
        assert d != ch ==> unchanged(feet[d]);
      }
      DisjointMore(own, old(feet), old(parts), ch, s);
      assert own !! old(feet[ch]) && unchanged(own);
    }

    method Find(hash: Word, id: seq<Byte>) returns (v: Option<Channel>)
      requires Ok()
      ensures v == Get(channels, hash, id)
    {
      v := Lookup(table, hash, id, own, channels);
    }

    method All() returns (all: seq<Item<Channel>>)
      requires Ok()
      ensures all == channels
    {
      all := Walk(table, own, channels);
    }

    method Users(ch: Channel) returns (all: seq<Item<Connection>>)
      requires Ok() && ch in feet
      ensures all == ch.userlist
    {
      all := Walk(ch.users, feet[ch], ch.userlist);
    }

    method Count(ch: Channel) returns (n: int)
      requires Ok() && ch in feet
      ensures n == |ch.userlist|
    {
      n := Length(ch.users, feet[ch], ch.userlist);
    }

    ghost method Adopt(ch: Channel, s: set<object>)
      requires Ok() && ch !in feet && Kept(ch.users, s, ch.userlist) && s !! parts
      modifies this`feet, this`parts
      ensures Ok() && feet == old(feet)[ch := s] && parts == old(parts) + s
    {
      DisjointMore(own, feet, parts, ch, s);
      feet, parts := feet[ch := s], parts + s;
    }

    ghost method RecordTable(s: set<object>, l: seq<Item<Channel>>)
      modifies this`channels, this`own, this`parts
      ensures own == s && parts == old(parts) + s && channels == l
    {
      own, parts, channels := s, parts + s, l;
    }

    method Register(ch: Channel)
      requires Ok()
      modifies this`channels, this`own, this`parts, own
      ensures Ok() && channels == Put(old(channels), KeyOf(ch.id), ch.id, ch, true) && Grew()
    {
      ghost var s := Store(table, ch.id, ch, true, own, channels);
      RecordTable(s, Put(channels, KeyOf(ch.id), ch.id, ch, true));
      TableMoved(old(own));
    }

    // Lines 40-63.
    method Open(id: seq<Byte>) returns (ch: Channel)
      requires Ok()
      modifies this, own
      ensures Ok() && fresh(ch) && ch.id == id && ch.userlist == [] && feet.Keys == old(feet.Keys) + {ch}
      ensures channels == Put(old(channels), KeyOf(id), id, ch, true) && Grew()
    {
      var users, s := Make(size);
      ch := new Channel(id, users);
      Adopt(ch, s);
      Register(ch);
    }

    method Unregister(hash: Word, id: seq<Byte>)
      requires Ok()
      modifies this`channels, own
      ensures Ok() && channels == DeleteAll(old(channels), hash, id)
    {
      Discard(table, hash, id, own, channels);
      channels := DeleteAll(channels, hash, id);
      TableMoved(old(own));
    }

    ghost method Record(ch: Channel, s: set<object>, l: seq<Item<Connection>>)
      modifies this`feet, this`parts, ch`userlist
      ensures feet == old(feet)[ch := s] && parts == old(parts) + s && ch.userlist == l
    {
      feet, parts, ch.userlist := feet[ch := s], parts + s, l;
    }

    method Seat(ch: Channel, c: Connection)
      requires Ok() && ch in feet
      modifies this`feet, this`parts, ch`userlist, c`channel, feet[ch]
      ensures Ok() && ch.userlist == old(ch.userlist) + [Entry(c)] && Grew()
      ensures feet.Keys == old(feet.Keys) && c.channel == ch
    {
      ghost var s := Store(ch.users, c.userId, c, false, feet[ch], ch.userlist);
      c.channel := ch;
      Record(ch, s, ch.userlist + [Entry(c)]);
      UsersMoved(ch, s);
    }

    // Lines 134-177.
    method Unseat(ch: Channel, c: Connection, hash: Word)
      requires Ok() && ch in feet
      modifies ch`userlist, feet[ch]
      ensures Ok()
      ensures ch.userlist == DeleteOne(old(ch.userlist), hash, c.userId, SameFd(c))
    {
      DiscardOne(ch.users, hash, c.userId, SameFd(c), feet[ch], ch.userlist);
      ch.userlist := DeleteOne(ch.userlist, hash, c.userId, SameFd(c));
      UsersMoved(ch, feet[ch]);
    }
  }

  // ----- The registry -----------------------------------------------------------------

  class Registry {
    const tables: Tables

    ghost var rooms: seq<Room>
    ghost var joined: map<Connection, Channel>

    // `rooms` is what the table and the channels hold, `joined` what the connections hold.
    ghost predicate Shown()
      reads this, tables, tables.feet.Keys, joined.Keys
    {
      && |rooms| == |tables.channels|
      && (forall i {:trigger rooms[i]} {:trigger tables.channels[i]} :: 0 <= i < |rooms| ==>
            && rooms[i].ch in tables.feet && rooms[i].list == rooms[i].ch.userlist
            && tables.channels[i] == Item(rooms[i].ch.id, KeyOf(rooms[i].ch.id), rooms[i].ch))
      && (forall c {:trigger joined[c]} :: c in joined ==> c.channel == joined[c])
    }

    // The invariant, but for channel `empty`, which may have no member.
    ghost predicate Consistent(empty: int)
      reads this, tables, tables.feet.Keys, tables.parts, joined.Keys
    {
      Shown() && Sound(rooms, joined, empty) && tables.Ok()
    }

    ghost predicate Valid()
      reads this, tables, tables.feet.Keys, tables.parts, joined.Keys
    {
      Consistent(-1)
    }

    // The members of the channel of that name, in the order in which they joined.
    ghost function Members(id: seq<Byte>): seq<Connection>
      reads this
    {
      MembersOf(rooms, id)
    }

    constructor (maximum: nat, size: nat)
      requires maximum > 0 && size > 0
      ensures Valid() && tables.channels == [] && joined == map[] && fresh(tables) && fresh(tables.parts)
    {
      tables := new Tables(maximum, size);
      rooms, joined := [], map[];
    }

    lemma Indexed(id: seq<Byte>)
      requires Shown()
      ensures IndexOf(tables.channels, KeyOf(id), id) == RoomOf(rooms, id)
    {
      var k := RoomOf(rooms, id);
      forall i | 0 <= i < |rooms| ensures Same(tables.channels[i], KeyOf(id), id) == SameId(rooms[i].ch.id, id) {
      }
      IndexIs(tables.channels, KeyOf(id), id, k);
    }

    ghost method Become(r: seq<Room>, j: map<Connection, Channel>)
      requires tables.Ok()
      modifies this
      ensures tables.Ok() && rooms == r && joined == j
    {
      rooms, joined := r, j;
      tables.Unmoved();
    }

    // Lines 31-67: the channel of that name, created if there is none.
    method FindOrAdd(id: seq<Byte>) returns (ch: Channel, ghost k: nat)
      requires Valid()
      modifies this, tables, tables.parts
      ensures Consistent(k) && k < |rooms| && rooms[k].ch == ch && SameId(ch.id, id) && joined == old(joined)
      ensures k == RoomOf(old(rooms), id) && rooms == if k < |old(rooms)| then old(rooms) else old(rooms) + [Room(ch, [])]
      ensures tables.Grew()
      ensures SameMembers(old(rooms), rooms)
    {
      k := RoomOf(rooms, id);
      var found := Find(id);
      match found
      case Some(c) =>
        ch := c;
        Loosen(rooms, joined, k);
      case None =>
        ch := Add(id);
    }

    method Find(id: seq<Byte>) returns (found: Option<Channel>)
      requires Shown() && tables.Ok()
      ensures var k := RoomOf(rooms, id);
        found == if k < |rooms| then Some(rooms[k].ch) else None
    {
      var hk := HashKeyLc(id);
      Indexed(id);
      found := tables.Find(hk, id);
    }

    twostate lemma AddShown(new ch: Channel)
      requires old(Shown()) && unchanged(this`joined) && unchanged(old(tables.feet.Keys)) && unchanged(joined.Keys)
      requires rooms == old(rooms) + [Room(ch, [])] && ch.userlist == [] && tables.feet.Keys == old(tables.feet.Keys) + {ch}
      requires tables.channels == old(tables.channels) + [Item(ch.id, KeyOf(ch.id), ch)]
      ensures Shown()
    {
      forall i | 0 <= i < |rooms|
        ensures rooms[i].ch in tables.feet && rooms[i].list == rooms[i].ch.userlist
        ensures tables.channels[i] == Item(rooms[i].ch.id, KeyOf(rooms[i].ch.id), rooms[i].ch)
      {
        assert i < |old(rooms)| ==> rooms[i] == old(rooms)[i] && tables.channels[i] == old(tables.channels)[i];
      }
    }

    method Add(id: seq<Byte>) returns (ch: Channel)
      requires Valid() && RoomOf(rooms, id) == |rooms|
      modifies this, tables, tables.parts
      ensures Consistent(|old(rooms)|) && rooms == old(rooms) + [Room(ch, [])] && ch.id == id && joined == old(joined)
      ensures tables.Grew()
      ensures SameMembers(old(rooms), rooms)
    {
      ch := Create(id);
      AddRoom(old(rooms), joined, ch);
      AddRoomAll(old(rooms), ch);
    }

    // Lines 40-63.
    method Create(id: seq<Byte>) returns (ch: Channel)
      requires Shown() && tables.Ok() && RoomOf(rooms, id) == |rooms|
      modifies this, tables, tables.parts
      ensures Shown() && tables.Ok() && fresh(ch) && ch.id == id && tables.Grew()
      ensures rooms == old(rooms) + [Room(ch, [])] && joined == old(joined)
      ensures forall i {:trigger old(rooms)[i]} :: 0 <= i < |old(rooms)| ==> old(rooms)[i].ch != ch
    {
      Indexed(id);
      ch := tables.Open(id);
      Become(rooms + [Room(ch, [])], joined);
      AddShown(ch);
    }

    // The connection c has joined room k.
    twostate lemma JoinShown(c: Connection, new k: nat)
      requires old(Shown()) && k < |old(rooms)| && AllApart(old(rooms)) && rooms == Joined(old(rooms), k, c)
      requires var ch := old(rooms)[k].ch;
        && joined == old(joined)[c := ch] && c.channel == ch && ch.userlist == old(ch.userlist) + [Entry(c)]
        && unchanged(old(tables.feet.Keys) - {ch}) && unchanged(old(joined).Keys - {c})
      requires tables.channels == old(tables.channels) && tables.feet.Keys == old(tables.feet.Keys)
      ensures Shown()
    {
      Differ(old(rooms), k);
    }

    // The connection c has left room k, where it was at place j.
    twostate lemma LeaveShown(c: Connection, new k: nat, new j: nat)
      requires old(Shown()) && k < |old(rooms)| && AllApart(old(rooms))
      requires j < |old(rooms)[k].list| && rooms == Left(old(rooms), k, j)
      requires var ch := old(rooms)[k].ch;
        ch.userlist == Without(old(ch.userlist), j) && unchanged(old(tables.feet.Keys) - {ch})
      requires joined == old(joined) - {c} && unchanged(joined.Keys)
      requires tables.channels == old(tables.channels) && tables.feet.Keys == old(tables.feet.Keys)
      ensures Shown()
    {
      Differ(old(rooms), k);
    }

    // Lines 80-92.
    method InsertLocked(ch: Channel, c: Connection, ghost k: nat)
      requires Consistent(k) && k < |rooms| && rooms[k].ch == ch && Newcomer(joined, c)
      modifies this, tables`feet, tables`parts, ch`userlist, tables.parts, c`channel
      ensures Valid() && joined == old(joined)[c := ch] && c.channel == ch
      ensures tables.feet.Keys == old(tables.feet.Keys) && tables.Grew()
      ensures Gained(old(rooms), rooms, ch.id, c)
    {
      Joining(rooms, joined, k, c);
      Enter(ch, c, k);
    }

    // The connection enters the table of the channel.
    method Enter(ch: Channel, c: Connection, ghost k: nat)
      requires Shown() && tables.Ok() && AllApart(rooms) && k < |rooms| && rooms[k].ch == ch && c !in joined
      modifies this, tables`feet, tables`parts, ch`userlist, tables.parts, c`channel
      ensures Shown() && tables.Ok() && c.channel == ch && tables.feet.Keys == old(tables.feet.Keys) && tables.Grew()
      ensures rooms == Joined(old(rooms), k, c) && joined == old(joined)[c := ch]
    {
      tables.Seat(ch, c);
      Become(Joined(rooms, k, c), joined[c := ch]);
      JoinShown(c, k);
    }

    // stu_channel_insert.
    method Insert(id: seq<Byte>, c: Connection)
      requires Valid() && Newcomer(joined, c)
      modifies this, tables, tables.feet.Keys, tables.parts, c`channel
      ensures Valid() && c.channel != null && SameId(c.channel.id, id) && joined == old(joined)[c := c.channel]
      ensures Gained(old(rooms), rooms, id, c)
      ensures forall name ::
        MembersOf(rooms, name) == if SameId(id, name) then MembersOf(old(rooms), name) + [c] else MembersOf(old(rooms), name)
      ensures tables.Grew()
    {
      var ch, k := FindOrAdd(id);
      ghost var mid := rooms;
      InsertLocked(ch, c, k);
      GainedVia(old(rooms), mid, rooms, ch.id, id, c);
    }

    // Where a connection is listed.
    lemma SeatOf(c: Connection) returns (k: nat, j: nat)
      requires Valid() && c in joined
      ensures k < |rooms| && rooms[k].ch == joined[c] && j < |rooms[k].list| && rooms[k].list[j] == Entry(c)
      ensures forall i {:trigger rooms[k].list[i]} :: 0 <= i < j ==> rooms[k].list[i].value.fd != c.fd
    {
      assert Seated(rooms, c);
      k :| 0 <= k < |rooms| && Entry(c) in rooms[k].list;
      assert ListOk(rooms[k], joined);
      var list := rooms[k].list;
      j :| 0 <= j < |list| && list[j] == Entry(c);
      forall i | 0 <= i < j ensures list[i].value.fd != c.fd {
        assert list[i] != list[j] && list[i] == Entry(list[i].value);
      }
    }

    lemma Picked(c: Connection, k: nat, j: nat)
      requires Shown() && k < |rooms| && j < |rooms[k].list| && rooms[k].list[j] == Entry(c)
      requires forall i {:trigger rooms[k].list[i]} :: 0 <= i < j ==> rooms[k].list[i].value.fd != c.fd
      ensures DeleteOne(rooms[k].ch.userlist, KeyOf(c.userId), c.userId, SameFd(c))
        == Without(rooms[k].ch.userlist, j)
    {
      PickIs(rooms[k].list, KeyOf(c.userId), c.userId, SameFd(c), j);
    }

    // Lines 126-178.
    method RemoveUserLocked(ch: Channel, c: Connection) returns (ghost k: nat)
      requires Valid() && c in joined && ch == c.channel
      modifies this, ch`userlist, tables.parts
      ensures Consistent(k) && k < |rooms| && rooms[k].ch == ch && joined == old(joined) - {c}
      ensures Lost(old(rooms), rooms, ch.id, c)
    {
      ghost var j;
      k, j := SeatOf(c);
      Leaving(rooms, joined, k, j);
      Leave(ch, c, k, j);
    }

    // Lines 134-177.
    method Leave(ch: Channel, c: Connection, ghost k: nat, ghost j: nat)
      requires Shown() && tables.Ok() && AllApart(rooms) && k < |rooms| && rooms[k].ch == ch
      requires j < |rooms[k].list| && rooms[k].list[j] == Entry(c)
      requires forall i {:trigger rooms[k].list[i]} :: 0 <= i < j ==> rooms[k].list[i].value.fd != c.fd
      modifies this, ch`userlist, tables.parts
      ensures Shown() && tables.Ok() && rooms == Left(old(rooms), k, j) && joined == old(joined) - {c}
    {
      var kh := HashKeyLc(c.userId);
      Picked(c, k, j);
      tables.Unseat(ch, c, kh);
      Become(Left(rooms, k, j), joined - {c});
      LeaveShown(c, k, j);
    }

    lemma SoleKey(k: nat)
      requires Shown() && AllApart(rooms) && k < |rooms|
      ensures DeleteAll(tables.channels, KeyOf(rooms[k].ch.id), rooms[k].ch.id) == Without(tables.channels, k)
    {
      var id := rooms[k].ch.id;
      forall i | 0 <= i < |rooms| ensures Same(tables.channels[i], KeyOf(id), id) <==> i == k {
        if i != k {
          assert Apart(rooms, if i < k then i else k, if i < k then k else i);
        }
      }
      DeleteOnly(tables.channels, KeyOf(id), id, k);
    }

    // Lines 108-123.
    method RemoveIfEmpty(ch: Channel, ghost k: nat)
      requires Consistent(k) && k < |rooms| && rooms[k].ch == ch
      modifies this, tables`channels, tables.parts
      ensures Valid() && joined == old(joined)
      ensures rooms == if old(ch.userlist) == [] then Without(old(rooms), k) else old(rooms)
      ensures SameMembers(old(rooms), rooms)
    {
      var n := tables.Count(ch);
      if n == 0 {
        Drop(ch, k);
      }
    }

    method Drop(ch: Channel, ghost k: nat)
      requires Consistent(k) && k < |rooms| && rooms[k].ch == ch && ch.userlist == []
      modifies this, tables`channels, tables.parts
      ensures Valid() && joined == old(joined)
      ensures rooms == Without(old(rooms), k) && SameMembers(old(rooms), rooms)
    {
      DropRoom(rooms, joined, k);
      DropRoomAll(rooms, k);
      Close(ch, k);
    }

    // Lines 114-117.
    method Close(ch: Channel, ghost k: nat)
      requires Shown() && tables.Ok() && AllApart(rooms) && k < |rooms| && rooms[k].ch == ch
      modifies this, tables`channels, tables.parts
      ensures Shown() && tables.Ok() && rooms == Without(old(rooms), k) && joined == old(joined)
    {
      Erase(ch, k);
      Become(Without(rooms, k), joined);
      DroppedShown(k);
    }

    method Erase(ch: Channel, ghost k: nat)
      requires Shown() && tables.Ok() && AllApart(rooms) && k < |rooms| && rooms[k].ch == ch
      modifies tables`channels, tables.parts
      ensures tables.Ok() && tables.channels == Without(old(tables.channels), k)
    {
      var kh := HashKeyLc(ch.id);
      SoleKey(k);
      tables.Unregister(kh, ch.id);
    }

    twostate lemma DroppedShown(new k: nat)
      requires old(Shown()) && k < |old(rooms)|
      requires unchanged(this`joined, tables`feet) && unchanged(tables.feet.Keys) && unchanged(joined.Keys)
      requires rooms == Without(old(rooms), k) && tables.channels == Without(old(tables.channels), k)
      ensures Shown()
    {
      forall i | 0 <= i < |rooms|
        ensures rooms[i].ch in tables.feet && rooms[i].list == rooms[i].ch.userlist
        ensures tables.channels[i] == Item(rooms[i].ch.id, KeyOf(rooms[i].ch.id), rooms[i].ch)
      {
        var j := if i < k then i else i + 1;
        assert rooms[i] == old(rooms)[j] && tables.channels[i] == old(tables.channels)[j];
      }
    }

    // stu_channel_remove.
    method RemoveLocked(ch: Channel, c: Connection)
      requires Valid() && c in joined && ch == c.channel
      modifies this, tables`channels, ch`userlist, tables.parts
      ensures Valid() && joined == old(joined) - {c}
      ensures Lost(old(rooms), rooms, ch.id, c)
      ensures forall name ::
        MembersOf(rooms, name) == if SameId(ch.id, name) then Minus(MembersOf(old(rooms), name), c) else MembersOf(old(rooms), name)
    {
      ghost var k := RemoveUserLocked(ch, c);
      RemoveIfEmpty(ch, k);
    }

    // A channel is registered exactly while it has a member.
    lemma RegisteredIffUsed(id: seq<Byte>)
      requires Valid()
      ensures Get(tables.channels, KeyOf(id), id) != None <==> Members(id) != []
    {
      Indexed(id);
    }

    // A connection is a member of the channel that it names, once, and of no other.
    lemma MemberWhereItSays(c: Connection, id: seq<Byte>)
      requires Valid()
      ensures c in Members(id) <==> c in joined && c.channel != null && SameId(c.channel.id, id)
      ensures forall i, j :: 0 <= i < j < |Members(id)| ==> Members(id)[i] != Members(id)[j]
    {
      var k := RoomOf(rooms, id);
      if k < |rooms| {
        assert ListOk(rooms[k], joined);
        var list := rooms[k].list;
        forall i, j | 0 <= i < j < |list| ensures list[i].value != list[j].value {
          assert list[i] != list[j];
        }
      }
      if c in joined && SameId(joined[c].id, id) {
        var n, j := SeatOf(c);
        RoomIsOwn(rooms, n, id);
        assert Members(id)[j] == c;
      }
    }

    // The loop of stu_channel_push_users: the message goes to the members in this order.
    method Broadcast(ch: Channel) returns (sent: seq<int>)
      requires tables.Ok() && ch in tables.feet
      ensures sent == Fds(ch.userlist)
    {
      var all := tables.Users(ch);
      sent := [];
      for i := 0 to |all|
        invariant sent == Fds(all)[..i]
      {
        sent := sent + [all[i].value.fd];
      }
    }

    // stu_channel_push_users_handler: as many messages as joined connections, one to each.
    method PushUsers() returns (sent: seq<int>)
      requires Valid()
      ensures |sent| == |joined| && forall c {:trigger c.fd} :: c in joined ==> c.fd in sent
    {
      sent := [];
      var all := tables.All();
      for i := 0 to |all|
        invariant Added(rooms, i, |sent|) && Reached(rooms, i, sent)
      {
        AddedNext(rooms, i, |sent|);
        ReachedNext(rooms, i, sent);
        assert rooms[i].ch == all[i].value;
        var more := Broadcast(all[i].value);
        sent := sent + more;
      }
      AddedAll(rooms, joined, |sent|);
      ReachedAll(rooms, joined, sent);
    }

    // The loop of stu_channel_push_status_generate_request.
    method PushStatusTotal() returns (total: nat)
      requires Valid()
      ensures total == |joined|
    {
      total := 0;
      var all := tables.All();
      for i := 0 to |all|
        invariant Added(rooms, i, total)
      {
        AddedNext(rooms, i, total);
        assert rooms[i].ch == all[i].value;
        var n := tables.Count(all[i].value);
        total := total + n;
      }
      AddedAll(rooms, joined, total);
    }
  }
}
