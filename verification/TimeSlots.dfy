// The ring of published times in stu_time.c. One thread at a time updates it, holding the
// lock; readers take a published pointer and follow it later, without a lock.
module TimeSlots {
  import opened Bytes

  const SLOTS: nat := 64  // STU_TIME_SLOTS

  // A slot. A time string is represented by the second that it was formatted from.
  datatype Slot = Slot(sec: int, msec: int, http: int, log: int, httpLog: int)

  // Where the thread that holds the lock stands in stu_time_update.
  datatype Phase =
    | Compare         // lines 85-96
    | WriteSec | WriteMsec | WriteHttp | WriteLog | WriteHttpLog
    | PublishTime | PublishLog | PublishHttp | PublishHttpLog
    | Unlock

  datatype Job = Job(phase: Phase, sec: int, msec: int)

  // The strings have no pointer until they are published for the first time. `advances`
  // counts how often the slot was advanced.
  datatype State = State(
    slot: nat, advances: nat, slots: seq<Slot>, job: Option<Job>,
    time: nat, log: Option<nat>, http: Option<nat>, httpLog: Option<nat>)

  // The strings of slots that were never written are blank; they count as showing second 0.
  predicate Init(s: State) {
    && s.slot == 0 && s.advances == 0 && |s.slots| == SLOTS && s.job == None
    && s.time == 0 && s.log == None && s.http == None && s.httpLog == None
    && forall i :: 0 <= i < SLOTS ==> s.slots[i] == Slot(0, 0, 0, 0, 0)
  }

  function At(s: State, phase: Phase): State
    requires s.job.Some?
  {
    s.(job := Some(s.job.value.(phase := phase)))
  }

  function Put(s: State, x: Slot): State
    requires s.slot < |s.slots|
  {
    s.(slots := s.slots[s.slot := x])
  }

  // One step of the thread that holds the lock.
  function Work(s: State): State
    requires s.job.Some? && |s.slots| == SLOTS && s.slot < SLOTS
  {
    var Job(phase, sec, msec) := s.job.value;
    var x := s.slots[s.slot];
    match phase
    case Compare =>
      if x.sec == sec then Put(s, x.(msec := msec)).(job := None)
      else At(s, WriteSec).(slot := if s.slot == SLOTS - 1 then 0 else s.slot + 1, advances := s.advances + 1)
    case WriteSec => At(Put(s, x.(sec := sec)), WriteMsec)
    case WriteMsec => At(Put(s, x.(msec := msec)), WriteHttp)
    case WriteHttp => At(Put(s, x.(http := sec)), WriteLog)
    case WriteLog => At(Put(s, x.(log := sec)), WriteHttpLog)
    case WriteHttpLog => At(Put(s, x.(httpLog := sec)), PublishTime)
    case PublishTime => At(s, PublishLog).(time := s.slot)
    case PublishLog => At(s, PublishHttp).(log := Some(s.slot))
    case PublishHttp => At(s, PublishHttpLog).(http := Some(s.slot))
    case PublishHttpLog => At(s, Unlock).(httpLog := Some(s.slot))
    case Unlock => s.(job := None)
  }

  // A thread that gets the lock, with the time it sees; the holder's next step; or a step that
  // changes nothing: of a reader, or of a thread that did not get the lock.
  ghost predicate Next(s: State, t: State) {
    && |s.slots| == SLOTS && s.slot < SLOTS
    && (|| t == s
        || (s.job == None && exists sec, msec :: t == s.(job := Some(Job(Compare, sec, msec))))
        || (s.job.Some? && t == Work(s)))
  }

  // ----- What every step keeps --------------------------------------------------------

  ghost predicate Published(s: State, p: nat) {
    s.time == p || s.log == Some(p) || s.http == Some(p) || s.httpLog == Some(p)
  }

  // The slot of the last advance is not filled yet.
  ghost predicate Writing(s: State) {
    s.job.Some? && 1 <= Rank(s.job.value.phase) <= 5
  }

  // How far an update has come.
  function Rank(p: Phase): nat {
    match p
    case Compare => 0
    case WriteSec => 1
    case WriteMsec => 2
    case WriteHttp => 3
    case WriteLog => 4
    case WriteHttpLog => 5
    case PublishTime => 6
    case PublishLog => 7
    case PublishHttp => 8
    case PublishHttpLog => 9
    case Unlock => 10
  }

  // The slot of a given advance.
  function SlotOf(version: nat): nat {
    version % SLOTS
  }

  // The advance that filled a published slot: the last one, or the one before.
  ghost function Version(s: State, p: nat): int {
    if p == s.slot then s.advances else s.advances - 1
  }

  // The seconds and all strings belong together.
  ghost predicate Whole(x: Slot) {
    x.sec == x.http == x.log == x.httpLog
  }

  ghost predicate PointerOk(s: State, p: nat) {
    && p < |s.slots| && Version(s, p) >= 0 && SlotOf(Version(s, p)) == p && Whole(s.slots[p])
    && (Writing(s) ==> p != s.slot)
  }

  // What the holder has filled in so far.
  ghost predicate Filled(x: Slot, j: Job) {
    && (Rank(j.phase) >= 2 ==> x.sec == j.sec)
    && (Rank(j.phase) >= 4 ==> x.http == j.sec)
    && (Rank(j.phase) >= 5 ==> x.log == j.sec)
    && (Rank(j.phase) >= 6 ==> x.httpLog == j.sec)
  }

  ghost predicate Inv(s: State) {
    && |s.slots| == SLOTS && s.slot == SlotOf(s.advances)
    && (forall p {:trigger Published(s, p)} :: Published(s, p) ==> PointerOk(s, p))
    && (s.job.Some? ==> Filled(s.slots[s.slot], s.job.value))
    // outside an update all pointers that there are lead to the last advance
    && (Settled(s) ==> forall p {:trigger Published(s, p)} :: Published(s, p) ==> p == s.slot)
    && (s.job.Some? ==>
          var k := Rank(s.job.value.phase);
          && (k >= 7 ==> s.time == s.slot) && (k >= 8 ==> s.log == Some(s.slot)) && (k >= 9 ==> s.http == Some(s.slot)))
  }

  ghost predicate Settled(s: State) {
    s.job == None || s.job.value.phase == Compare || s.job.value.phase == Unlock
  }

  lemma InitInv(s: State)
    requires Init(s)
    ensures Inv(s)
  {
  }

  lemma NextInv(s: State, t: State)
    requires Inv(s) && Next(s, t)
    ensures Inv(t)
  {
    forall p | Published(t, p) ensures PointerOk(t, p) {
      NextPointer(s, t, p);
    }
    forall p | Settled(t) && Published(t, p) ensures p == t.slot {
      assert Published(s, p) || p == s.slot;
    }
  }

  lemma NextPointer(s: State, t: State, p: nat)
    requires Inv(s) && Next(s, t) && Published(t, p)
    ensures PointerOk(t, p)
  {
    assert Published(s, p) || p == s.slot;
  }

  // ----- What a reader relies on ------------------------------------------------------

  // A filled slot keeps its seconds and its strings through a step, as long as fewer than 64
  // advances have started since the one that filled it.
  lemma StepKeeps(s: State, t: State, v: nat)
    requires Inv(s) && Next(s, t) && v <= s.advances && (v == s.advances ==> !Writing(s)) && t.advances < v + SLOTS
    ensures v <= t.advances && (v == t.advances ==> !Writing(t)) && |t.slots| == SLOTS
    ensures var p := SlotOf(v); t.slots[p] == s.slots[p].(msec := t.slots[p].msec)
  {
    if v < s.advances {
      assert SlotOf(v) != s.slot;
    }
  }

  ghost predicate StepAt(r: seq<State>, i: nat)
    requires 0 < i < |r|
  {
    Next(r[i - 1], r[i])
  }

  // A run from the start: all states that the updaters and readers go through.
  ghost predicate Run(r: seq<State>) {
    r != [] && Init(r[0]) && forall i {:trigger StepAt(r, i)} :: 0 < i < |r| ==> StepAt(r, i)
  }

  lemma {:induction false} RunInv(r: seq<State>, i: nat)
    requires Run(r) && i < |r|
    ensures Inv(r[i])
  {
    if i == 0 {
      InitInv(r[0]);
    } else {
      RunInv(r, i - 1);
      assert StepAt(r, i);
      NextInv(r[i - 1], r[i]);
    }
  }

  // The main result: what a pointer taken at time i leads to is, at any later time, the same
  // seconds and strings as at time i, unless 64 advances have started since it was filled.
  lemma {:induction false} ReadersAreSafe(r: seq<State>, i: nat, j: nat, p: nat)
    requires Run(r) && i <= j < |r| && Published(r[i], p)
    requires r[j].advances < Version(r[i], p) + 64
    ensures p < |r[i].slots| == |r[j].slots|
    ensures r[j].slots[p] == r[i].slots[p].(msec := r[j].slots[p].msec) && Whole(r[j].slots[p])
    ensures Version(r[i], p) <= r[j].advances && (Version(r[i], p) == r[j].advances ==> !Writing(r[j]))
    decreases j - i
  {
    RunInv(r, i);
    RunInv(r, j);
    assert PointerOk(r[i], p);
    if i < j {
      RunGrows(r, j);
      ReadersAreSafe(r, i, j - 1, p);
      RunKeeps(r, j, Version(r[i], p));
    }
  }

  // In plain words: a pointer to the slot of the last advance keeps its second for 63 further
  // advances, one to the slot before it for 62.
  lemma SafeFor(r: seq<State>, i: nat, j: nat, p: nat)
    requires Run(r) && i <= j < |r|
    requires r[i].time == p || r[i].log == Some(p) || r[i].http == Some(p) || r[i].httpLog == Some(p)
    requires r[j].advances <= r[i].advances + if p == r[i].slot then 63 else 62
    ensures p < |r[i].slots| == |r[j].slots| == 64
    ensures var x, y := r[i].slots[p], r[j].slots[p];
      x.sec == x.http == x.log == x.httpLog == y.sec == y.http == y.log == y.httpLog
  {
    RunInv(r, i);
    ReadersAreSafe(r, i, j, p);
    ReadersAreSafe(r, i, i, p);
  }

  lemma RunGrows(r: seq<State>, j: nat)
    requires Run(r) && 0 < j < |r|
    ensures r[j - 1].advances <= r[j].advances <= r[j - 1].advances + 1
  {
    assert StepAt(r, j);
    AdvancesGrow(r[j - 1], r[j]);
  }

  lemma RunKeeps(r: seq<State>, j: nat, v: nat)
    requires Run(r) && 0 < j < |r|
    requires v <= r[j - 1].advances && (v == r[j - 1].advances ==> !Writing(r[j - 1])) && r[j].advances < v + SLOTS
    ensures v <= r[j].advances && (v == r[j].advances ==> !Writing(r[j])) && |r[j - 1].slots| == |r[j].slots| == SLOTS
    ensures var p := SlotOf(v); r[j].slots[p] == r[j - 1].slots[p].(msec := r[j].slots[p].msec)
  {
    RunInv(r, j - 1);
    assert StepAt(r, j);
    StepKeeps(r[j - 1], r[j], v);
  }

  lemma AdvancesGrow(s: State, t: State)
    requires Next(s, t)
    ensures s.advances <= t.advances <= s.advances + 1
  {
  }

  // The bound is exact: the 64th later advance takes that very slot, and what its update has
  // filled in so far is the new second.
  lemma BoundIsExact(r: seq<State>, i: nat, j: nat, p: nat)
    requires Run(r) && i <= j < |r| && Published(r[i], p)
    requires r[j].advances == Version(r[i], p) + 64
    ensures r[j].slot == p < |r[j].slots| && (r[j].job.Some? ==> Filled(r[j].slots[p], r[j].job.value))
  {
    RunInv(r, i);
    RunInv(r, j);
    assert PointerOk(r[i], p);
    SlotComesBack(Version(r[i], p));
  }

  lemma SlotComesBack(v: nat)
    ensures SlotOf(v + SLOTS) == SlotOf(v)
  {
  }

  // ----- An update without interruption -----------------------------------------------

  // The second was published already: only the milliseconds change.
  ghost predicate Refreshed(s: State, t: State, sec: int, msec: int) {
    s.slot < |s.slots| && s.slots[s.slot].sec == sec && t == Put(s, s.slots[s.slot].(msec := msec))
  }

  // The next slot is filled and everything points to it.
  ghost predicate Advanced(s: State, t: State, sec: int, msec: int) {
    && t.job == None && t.advances == s.advances + 1 && t.slot < |t.slots| == |s.slots|
    && t.slots[t.slot] == Slot(sec, msec, sec, sec, sec)
    && (forall p {:trigger t.slots[p]} :: 0 <= p < |t.slots| && p != t.slot ==> t.slots[p] == s.slots[p])
    && t.time == t.slot && t.log == t.http == t.httpLog == Some(t.slot)
  }

  method Update(s: State, sec: int, msec: int) returns (t: State)
    requires Inv(s)
    ensures Inv(t)
    ensures if s.job.Some? then t == s
      else if s.slots[s.slot].sec == sec then Refreshed(s, t, sec, msec) else Advanced(s, t, sec, msec)
    ensures |t.slots| == |s.slots| == 64 && t.slot < 64 && s.slot < 64
    ensures s.job.None? && s.slots[s.slot].sec == sec ==> t == s.(slots := s.slots[s.slot := s.slots[s.slot].(msec := msec)])
    ensures s.job.None? && s.slots[s.slot].sec != sec ==>
      && t.slot == (s.slot + 1) % 64 && t.slots == s.slots[t.slot := Slot(sec, msec, sec, sec, sec)]
      && t.time == t.slot && t.log == t.http == t.httpLog == Some(t.slot) && t.job == None
  {
    t := s;
    if t.job.Some? {
      return;
    }
    t := t.(job := Some(Job(Compare, sec, msec)));
    NextInv(s, t);
    while t.job.Some?
      invariant Inv(t) && (t.job.Some? ==> t.job.value.sec == sec && t.job.value.msec == msec)
      invariant t.job.Some? ==> var k := Rank(t.job.value.phase);
        && (k == 0 ==> t == s.(job := t.job))
        && (k >= 1 ==> t.advances == s.advances + 1 && s.slots[s.slot].sec != sec)
        && (k >= 1 ==> forall p {:trigger t.slots[p]} :: 0 <= p < SLOTS && p != t.slot ==> t.slots[p] == s.slots[p])
        && (k >= 3 ==> t.slots[t.slot].msec == msec) && (k == 10 ==> t.httpLog == Some(t.slot))
      invariant t.job == None ==> if s.slots[s.slot].sec == sec then Refreshed(s, t, sec, msec) else Advanced(s, t, sec, msec)
      decreases if t.job.Some? then 11 - Rank(t.job.value.phase) else 0
    {
      ghost var was := t;
      t := Work(t);
      NextInv(was, t);
    }
  }
}
