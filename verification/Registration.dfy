/** Registering counters from many threads. `add_counter` finds or makes the calling thread's slot
    under a lock, and looks at the slot again after releasing it. */
module Registration {

  /** A slot of the event list: the thread it belongs to, how many counters it has, and how often
      its sampling thread was started. */
  datatype Slot = Slot(tid: nat, count: nat, starts: nat)

  /** A counter that was handed out: its slot and its place there. */
  datatype Issue = Issue(slot: nat, index: nat)

  /** `pending` maps each thread that has left the locked section but not yet returned to its slot. */
  datatype State = State(slots: seq<Slot>, pending: map<nat, nat>, issued: seq<Issue>)

  /** The first slot of a thread, or the number of slots if it has none. */
  function Find(slots: seq<Slot>, tid: nat): (k: nat)
    ensures k <= |slots|
    ensures k < |slots| ==> slots[k].tid == tid
    ensures forall i :: 0 <= i < k ==> slots[i].tid != tid
  {
    if slots == [] then 0
    else
      var k := Find(slots[..|slots| - 1], tid);
      if k < |slots| - 1 || slots[|slots| - 1].tid == tid then k else |slots|
  }

  /** The locked section: the slots afterwards. */
  function Register(slots: seq<Slot>, tid: nat): seq<Slot> {
    var k := Find(slots, tid);
    if k < |slots| then slots[k := slots[k].(count := slots[k].count + 1)] else slots + [Slot(tid, 1, 0)]
  }

  /** One step of a thread: the locked section, or what follows it. The second step starts the
      sampling thread of the slot when the slot has all `total` counters. */
  function Step(s: State, tid: nat, total: nat): State {
    if tid !in s.pending then
      var k := Find(s.slots, tid);
      var index := if k < |s.slots| then s.slots[k].count else 0;
      State(Register(s.slots, tid), s.pending[tid := k], s.issued + [Issue(k, index)])
    else
      var k := s.pending[tid];
      var slots :=
        if k < |s.slots| && s.slots[k].count == total then s.slots[k := s.slots[k].(starts := s.slots[k].starts + 1)]
        else s.slots;
      State(slots, s.pending - {tid}, s.issued)
  }

  /** The state after threads take steps in the order of the schedule. */
  function After(schedule: seq<nat>, total: nat): State {
    if schedule == [] then State([], map[], [])
    else Step(After(schedule[..|schedule| - 1], total), schedule[|schedule| - 1], total)
  }

  // ----- what holds after every schedule -----

  ghost predicate OneSlotPerThread(s: State) {
    forall i, j :: 0 <= i < j < |s.slots| ==> s.slots[i].tid != s.slots[j].tid
  }

  ghost predicate PendingInOwnSlot(s: State) {
    forall t :: t in s.pending ==> s.pending[t] < |s.slots| && s.slots[s.pending[t]].tid == t
  }

  ghost predicate WasIssued(s: State, k: nat, index: nat) {
    exists i :: 0 <= i < |s.issued| && s.issued[i] == Issue(k, index)
  }

  /** Each place of each slot was handed out once, and no other. */
  ghost predicate IssuedOnce(s: State) {
    && (forall i, j :: 0 <= i < j < |s.issued| ==> s.issued[i] != s.issued[j])
    && (forall k: nat, index: nat {:trigger WasIssued(s, k, index)} ::
          WasIssued(s, k, index) <==> k < |s.slots| && index < s.slots[k].count)
  }

  /** The sampling thread of a slot has been started once if the slot has had all its counters and
      its thread has come back from registering the last of them; otherwise not at all. */
  ghost predicate StartedInTime(s: State, k: nat, total: nat)
    requires k < |s.slots|
  {
    s.slots[k].count > 0 &&
    s.slots[k].starts ==
      if total > 0 && (s.slots[k].count > total || (s.slots[k].count == total && s.slots[k].tid !in s.pending)) then 1
      else 0
  }

  ghost predicate Invariant(s: State, total: nat) {
    && OneSlotPerThread(s)
    && PendingInOwnSlot(s)
    && IssuedOnce(s)
    && forall k {:trigger StartedInTime(s, k, total)} :: 0 <= k < |s.slots| ==> StartedInTime(s, k, total)
  }

  lemma RegisteringKeepsInvariant(s: State, tid: nat, total: nat)
    requires Invariant(s, total) && tid !in s.pending
    ensures Invariant(Step(s, tid, total), total)
  {
    var t, k := Step(s, tid, total), Find(s.slots, tid);
    var index := if k < |s.slots| then s.slots[k].count else 0;
    forall j | 0 <= j < |t.slots|
      ensures StartedInTime(t, j, total)
    {
      assert j < |s.slots| ==> StartedInTime(s, j, total);
    }
    assert !WasIssued(s, k, index);
    forall j: nat, i: nat
      ensures WasIssued(t, j, i) <==> j < |t.slots| && i < t.slots[j].count
    {
      IssuedOneMore(s, t, Issue(k, index), j, i);
      assert WasIssued(s, j, i) <==> j < |s.slots| && i < s.slots[j].count;
    }
  }

  lemma IssuedOneMore(s: State, t: State, issue: Issue, k: nat, index: nat)
    requires t.issued == s.issued + [issue]
    ensures WasIssued(t, k, index) <==> WasIssued(s, k, index) || issue == Issue(k, index)
  {
    if WasIssued(s, k, index) {
      var i :| 0 <= i < |s.issued| && s.issued[i] == Issue(k, index);
      assert t.issued[i] == Issue(k, index);
    }
    assert t.issued[|s.issued|] == issue;
  }

  lemma ReturningKeepsInvariant(s: State, tid: nat, total: nat)
    requires Invariant(s, total) && tid in s.pending
    ensures Invariant(Step(s, tid, total), total)
  {
    var t := Step(s, tid, total);
    forall k | 0 <= k < |t.slots|
      ensures StartedInTime(t, k, total)
    {
      assert StartedInTime(s, k, total);
    }
    forall k: nat, index: nat
      ensures WasIssued(t, k, index) <==> k < |t.slots| && index < t.slots[k].count
    {
      assert WasIssued(s, k, index) <==> k < |s.slots| && index < s.slots[k].count;
    }
  }

  /** After any interleaving: threads do not share slots, every counter was handed out once, and
      no sampling thread is started twice. */
  lemma {:induction false} InvariantAfter(schedule: seq<nat>, total: nat)
    ensures Invariant(After(schedule, total), total)
  {
    if schedule == [] {
      var s := After(schedule, total);
      assert forall k: nat, index: nat {:trigger WasIssued(s, k, index)} :: !WasIssued(s, k, index);
    } else {
      var s, tid := After(schedule[..|schedule| - 1], total), schedule[|schedule| - 1];
      InvariantAfter(schedule[..|schedule| - 1], total);
      if tid in s.pending {
        ReturningKeepsInvariant(s, tid, total);
      } else {
        RegisteringKeepsInvariant(s, tid, total);
      }
    }
  }

  lemma StartedAtMostOnce(schedule: seq<nat>, total: nat, k: nat)
    requires k < |After(schedule, total).slots|
    ensures var s := After(schedule, total); var slot := s.slots[k];
      && slot.starts <= 1
      && (slot.starts == 1 <==> 0 < total <= slot.count && !(slot.count == total && slot.tid in s.pending))
  {
    InvariantAfter(schedule, total);
    assert StartedInTime(After(schedule, total), k, total);
  }

  // ----- counter numbers -----

  /** The number handed out for a counter. */
  function Id(issue: Issue): nat {
    issue.slot * 256 + issue.index
  }

  /** Taking a counter number apart gives its slot and place exactly when the place is below 256. */
  lemma IdTakenApart(issue: Issue)
    ensures Id(issue) / 256 == issue.slot && Id(issue) % 256 == issue.index <==> issue.index < 256
  {
  }

  ghost predicate DistinctIds(s: State) {
    forall i, j :: 0 <= i < j < |s.issued| ==> Id(s.issued[i]) != Id(s.issued[j])
  }

  /** No two counters get the same number if and only if no slot but the last has more than 256. */
  lemma IdsAreDistinct(schedule: seq<nat>, total: nat)
    ensures var s := After(schedule, total);
      DistinctIds(s) <==> forall k :: 0 <= k < |s.slots| - 1 ==> s.slots[k].count <= 256
  {
    InvariantAfter(schedule, total);
    var s := After(schedule, total);
    if DistinctIds(s) {
      forall k | 0 <= k < |s.slots| - 1
        ensures s.slots[k].count <= 256
      {
        if s.slots[k].count > 256 {
          Collision(s, total, k);
        }
      }
    } else {
      var i, j :| 0 <= i < j < |s.issued| && Id(s.issued[i]) == Id(s.issued[j]);
      var a, b := s.issued[i], s.issued[j];
      assert WasIssued(s, a.slot, a.index) && WasIssued(s, b.slot, b.index);
      assert a != b;
    }
  }

  lemma Collision(s: State, total: nat, k: nat)
    requires Invariant(s, total) && k + 1 < |s.slots| && s.slots[k].count > 256
    ensures !DistinctIds(s)
  {
    assert StartedInTime(s, k + 1, total);
    assert WasIssued(s, k, 256) && WasIssued(s, k + 1, 0);
    var i :| 0 <= i < |s.issued| && s.issued[i] == Issue(k, 256);
    var j :| 0 <= j < |s.issued| && s.issued[j] == Issue(k + 1, 0);
    assert i != j && Id(s.issued[i]) == Id(s.issued[j]);
    assert Id(s.issued[if i < j then i else j]) == Id(s.issued[if i < j then j else i]);
  }

  /** One thread that registers `n` counters. */
  function Registering(n: nat): (schedule: seq<nat>) {
    if n == 0 then [] else Registering(n - 1) + [1] + [1]
  }

  lemma {:induction false} RegisteringAlone(n: nat, total: nat)
    ensures var s := After(Registering(n), total);
      s.pending == map[]
      && if n == 0 then s.slots == [] else |s.slots| == 1 && s.slots[0].tid == 1 && s.slots[0].count == n
  {
    if n > 0 {
      RegisteringAlone(n - 1, total);
      var before := Registering(n - 1);
      var s := After(before, total);
      assert (before + [1])[..|before|] == before;
      assert (before + [1] + [1])[..|before| + 1] == before + [1];
      FindIs(s.slots, 1, 0);
      var registered := After(before + [1], total);
      assert registered == Step(s, 1, total);
      assert registered.pending - {1} == map[];
    }
  }

  /** A thread that adds 257 counters, some of them again, and then a second thread: two counters get one
      number. */
  lemma TwoThreadsCollide(total: nat)
    ensures !DistinctIds(After(Registering(257) + [2], total))
  {
    var before := Registering(257);
    RegisteringAlone(257, total);
    var s, schedule := After(before, total), before + [2];
    assert schedule[..|before|] == before;
    FindIs(s.slots, 2, 1);
    assert After(schedule, total).slots == s.slots + [Slot(2, 1, 0)];
    IdsAreDistinct(schedule, total);
    assert After(schedule, total).slots[0].count == 257;
  }

  // ----- the event list -----

  class EventList {
    var slots: seq<Slot>

    constructor ()
      ensures slots == []
    {
      slots := [];
    }

    /** The locked section of `add_counter`. */
    method AddCounter(tid: nat) returns (counterId: nat, id: nat)
      modifies this
      ensures slots == Register(old(slots), tid) && id == Find(old(slots), tid)
      ensures id < |slots| && slots[id].tid == tid && (forall j :: 0 <= j < id ==> old(slots)[j].tid != tid)
      ensures |slots| == |old(slots)| + if id < |old(slots)| then 0 else 1
      ensures forall j :: 0 <= j < |old(slots)| && j != id ==> slots[j] == old(slots)[j]
      ensures if id < |old(slots)| then slots[id] == old(slots)[id].(count := old(slots)[id].count + 1)
              else slots[id] == Slot(tid, 1, 0)
      ensures counterId == 256 * id + slots[id].count - 1
      ensures counterId == Id(Issue(id, if id < |old(slots)| then old(slots)[id].count else 0))
    {
      var isThreadSampled := false;
      var i := 0;
      id := |slots|;
      while i < |slots|
        invariant 0 <= i <= |slots| && (forall j :: 0 <= j < i ==> slots[j].tid != tid)
      {
        if slots[i].tid == tid {
          isThreadSampled := true;
          id := i;
          break;
        }
        i := i + 1;
      }
      FindIs(slots, tid, i);
      if !isThreadSampled {
        id := |slots|;
        slots := slots + [Slot(tid, 0, 0)];
      }
      counterId := id * 256 + slots[id].count;
      slots := slots[id := slots[id].(count := slots[id].count + 1)];
    }
  }

  lemma FindIs(slots: seq<Slot>, tid: nat, k: nat)
    requires k <= |slots| && forall j :: 0 <= j < k ==> slots[j].tid != tid
    requires k < |slots| ==> slots[k].tid == tid
    ensures Find(slots, tid) == k
  {
  }
}
