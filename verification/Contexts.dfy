/** Measurement contexts: acquiring devices through the global mask, and opening, starting,
    stopping and closing events, with rollback.

    Hardware callbacks and allocations may succeed or fail, as an arbitrary sequence of outcomes
    says; the ghost `log` records every callback made. */
module Contexts {
  import opened DeviceMask
  import opened Exclusivity

  datatype Errno = Ok | Conflict | NoMemory | Misc | ComponentBug

  /** The two state bits of a context or a thread. */
  datatype Flags = Flags(isOpen: bool, isRunning: bool)

  /** The device an event is bound to; a negative device number means none. */
  datatype Placement = Unbound | On(device: Device)

  datatype Action = Open | Close | Start | Stop | Read | Write

  /** A hardware callback made for an event, and whether it succeeded. */
  datatype Call = Call(action: Action, id: nat, ok: bool)

  /** An array of event numbers. It is written once, by its creator. */
  class IdArray {
    const ids: seq<nat>
    ghost var live: bool

    constructor (ids: seq<nat>)
      ensures this.ids == ids && live
    {
      this.ids := ids;
      live := true;
    }
  }

  class Context {
    var state: Flags
    var eventsId: IdArray?
    var numEvents: nat
    var counters: array<int>
    var deviceMask: bv32
    ghost var live: bool

    /** A zeroed context. */
    constructor ()
      ensures state == Flags(false, false) && eventsId == null && numEvents == 0 && live
      ensures fresh(counters)
    {
      state, eventsId, numEvents, deviceMask := Flags(false, false), null, 0, 0;
      counters := new int[0];
      live := true;
    }
  }

  /** The first `n` event numbers of an array. */
  function Events(a: IdArray?, n: nat): seq<nat> {
    if n <= |Ids(a)| then Ids(a)[..n] else Ids(a)
  }

  function Ids(a: IdArray?): seq<nat> {
    if a == null then [] else a.ids
  }

  ghost function DevicesOf(devices: seq<Placement>, ids: seq<nat>): iset<Device> {
    iset i, d: Device | 0 <= i < |ids| && ids[i] < |devices| && devices[ids[i]] == On(d) :: d
  }

  /** Calls of one kind for a sequence of events, all successful. */
  ghost function Calls(action: Action, ids: seq<nat>): seq<Call> {
    seq(|ids|, i requires 0 <= i < |ids| => Call(action, ids[i], true))
  }

  /** Calls of one kind for a sequence of events, whatever their outcome. */
  ghost predicate AreCalls(calls: seq<Call>, action: Action, ids: seq<nat>) {
    |calls| == |ids| && forall i :: 0 <= i < |ids| ==> calls[i].action == action && calls[i].id == ids[i]
  }

  /** `n` calls of one kind for one event, whatever their outcome. */
  ghost predicate AreCallsOf(calls: seq<Call>, action: Action, id: nat, n: nat) {
    |calls| == n && forall i :: 0 <= i < n ==> calls[i].action == action && calls[i].id == id
  }

  /** The calls for the first `k` events succeeded and the next one failed. */
  ghost predicate FailedAt(before: seq<Call>, after: seq<Call>, action: Action, ids: seq<nat>, k: nat)
  {
    k < |ids| && after == before + Calls(action, ids[..k]) + [Call(action, ids[k], false)]
  }

  /** Opening failed at event `k`, and then the events before it were closed. */
  ghost predicate RolledBack(before: seq<Call>, after: seq<Call>, ids: seq<nat>, k: nat)
  {
    && k < |ids|
    && exists closes :: AreCalls(closes, Close, ids[..k])
                     && after == before + Calls(Open, ids[..k]) + [Call(Open, ids[k], false)] + closes
  }

  /** A start failed at event `k`, and then that event was stopped `k` times. */
  ghost predicate HalfStarted(before: seq<Call>, after: seq<Call>, ids: seq<nat>, k: nat)
  {
    && k < |ids|
    && exists stops :: AreCallsOf(stops, Stop, ids[k], k)
                    && after == before + Calls(Start, ids[..k]) + [Call(Start, ids[k], false)] + stops
  }

  /** All of these events were stopped by these calls. */
  ghost predicate AllStopped(calls: seq<Call>, ids: seq<nat>) {
    forall j :: 0 <= j < |ids| ==> exists i :: 0 <= i < |calls| && calls[i].action == Stop && calls[i].id == ids[j]
  }

  /** After a start that failed at event `k`, the events started before it have all been stopped if
      and only if all of them are the very event that failed. */
  lemma FailedStartLeavesEventsStarted(before: seq<Call>, after: seq<Call>, ids: seq<nat>, k: nat)
    requires HalfStarted(before, after, ids, k)
    ensures |before| <= |after|
    ensures AllStopped(after[|before|..], ids[..k]) <==> forall j :: 0 <= j < k ==> ids[j] == ids[k]
  {
    var stops :| AreCallsOf(stops, Stop, ids[k], k)
      && after == before + Calls(Start, ids[..k]) + [Call(Start, ids[k], false)] + stops;
    var since := after[|before|..];
    assert since == Calls(Start, ids[..k]) + [Call(Start, ids[k], false)] + stops;
    forall i | 0 <= i < |since| && since[i].action == Stop
      ensures since[i].id == ids[k]
    {
      assert i > k && since[i] == stops[i - k - 1];
    }
    if k > 0 {
      assert since[k + 1] == stops[0];
    }
    if AllStopped(since, ids[..k]) {
      forall j | 0 <= j < k
        ensures ids[j] == ids[k]
      {
        assert ids[..k][j] == ids[j];
      }
    }
  }

  /** Values stored one after the other under event numbers. */
  function Stored(values: seq<int>, ids: seq<nat>, counts: seq<int>): (stored: seq<int>)
    requires |ids| <= |counts| && forall i :: 0 <= i < |ids| ==> ids[i] < |values|
    ensures |stored| == |values|
  {
    if ids == [] then values
    else Stored(values, ids[..|ids| - 1], counts)[ids[|ids| - 1] := counts[|ids| - 1]]
  }

  /** What is stored last under a number stays; what has no number among these is as it was. */
  lemma {:induction false} LastStoredStays(values: seq<int>, ids: seq<nat>, counts: seq<int>, id: nat, i: nat)
    requires |ids| <= |counts| && forall j :: 0 <= j < |ids| ==> ids[j] < |values|
    requires id < |values|
    ensures id !in ids ==> Stored(values, ids, counts)[id] == values[id]
    ensures i < |ids| && ids[i] == id && (forall j :: i < j < |ids| ==> ids[j] != id) ==>
      Stored(values, ids, counts)[id] == counts[i]
  {
    if ids != [] {
      var last := |ids| - 1;
      var front := ids[..last];
      LastStoredStays(values, front, counts, id, i);
      assert Stored(values, ids, counts) == Stored(values, front, counts)[ids[last] := counts[last]];
    }
  }

  /** What is left after a context pointer was freed. */
  ghost function DroppedFrom(s: Sys<Context, Device>, slot: Context?): Sys<Context, Device> {
    if slot != null && slot in s.held then Next(s, Dropped(slot)) else s
  }

  /** `n` callbacks or allocations, from the given one on, all succeed. */
  predicate AllSucceed(outcomes: nat -> bool, first: nat, n: nat) {
    forall i :: first <= i < first + n ==> outcomes(i)
  }

  /** How many of `n` callbacks are made by a loop that ends with the first one to fail. */
  function Tried(outcomes: nat -> bool, first: nat, n: nat): (tried: nat)
    ensures tried <= n && (n > 0 ==> tried > 0)
    decreases n
  {
    if n == 0 then 0 else if !outcomes(first) then 1 else 1 + Tried(outcomes, first + 1, n - 1)
  }

  lemma {:induction false} TriedAll(outcomes: nat -> bool, first: nat, n: nat)
    requires AllSucceed(outcomes, first, n)
    ensures Tried(outcomes, first, n) == n
    decreases n
  {
    if n > 0 {
      TriedAll(outcomes, first + 1, n - 1);
    }
  }

  lemma {:induction false} TriedUpTo(outcomes: nat -> bool, first: nat, n: nat, i: nat)
    requires i < n && AllSucceed(outcomes, first, i) && !outcomes(first + i)
    ensures Tried(outcomes, first, n) == i + 1 && !AllSucceed(outcomes, first, n)
    decreases n
  {
    if i > 0 {
      TriedUpTo(outcomes, first + 1, n - 1, i - 1);
    }
  }

  /** How many callbacks and allocations opening makes: two allocations, and one callback for each
      event opened or tried and for each one closed again. */
  function OpenAsks(outcomes: nat -> bool, first: nat, n: nat): nat {
    if !outcomes(first) then 1
    else if !outcomes(first + 1) then 2
    else if AllSucceed(outcomes, first + 2, n) then n + 2
    else 2 * Tried(outcomes, first + 2, n) + 1
  }

  class Rocs {
    /** The device of each event of the native event table. */
    const devices: seq<Placement>
    /** Whether each callback or allocation succeeds, in the order in which they are made. */
    const outcomes: nat -> bool
    /** How many callbacks and allocations have been made. */
    var asked: nat
    /** The value of each event of the native event table. */
    var values: seq<int>
    var deviceMask: bv32
    /** The openings and closings so far, and what they add up to. */
    ghost var history: seq<Event<Context, Device>>
    ghost var sys: Sys<Context, Device>
    ghost var log: seq<Call>
    /** The values of events that were read. */
    ghost var readings: seq<int>
    /** How often a context was freed that had been freed before. */
    ghost var staleFrees: nat

    constructor (devices: seq<Placement>, outcomes: nat -> bool)
      ensures Valid() && this.devices == devices && this.outcomes == outcomes && asked == 0
      ensures deviceMask == 0 && history == [] && sys == Initial() && log == [] && staleFrees == 0
    {
      this.devices, this.outcomes, asked, deviceMask := devices, outcomes, 0, 0;
      values := seq(|devices|, _ => 0);
      history, sys, log, readings, staleFrees := [], Initial(), [], [], 0;
      new;
      DevicesOfZero();
    }

    ghost predicate Valid()
      reads `history, `sys, `deviceMask, `values, `staleFrees, sys.held.Keys
    {
      && |values| == |devices|
      && sys == After(history)
      && Devices(deviceMask) == sys.mask
      && forall c {:trigger IsHeld(sys.held, c)} :: c in sys.held ==> IsHeld(sys.held, c)
    }

    /** An open context holds the devices of its events. It is alive unless something was freed
        twice. */
    ghost predicate IsHeld(held: map<Context, iset<Device>>, c: Context)
      requires c in held
      reads `staleFrees, c
    {
      && (staleFrees == 0 ==> c.live) && c.state.isOpen
      && KnownEvents(c.eventsId, c.numEvents)
      && c.counters.Length == c.numEvents
      && Devices(c.deviceMask) == held[c] == DevicesOf(devices, Events(c.eventsId, c.numEvents))
    }

    /** What the callers of the context functions pass: event numbers of the table. */
    predicate KnownEvents(a: IdArray?, n: nat) {
      n <= |Ids(a)| && forall i :: 0 <= i < n ==> Ids(a)[i] < |devices|
    }

    /** The next `n` callbacks or allocations, from the given one on, all succeed. */
    predicate Succeed(first: nat, n: nat) {
      AllSucceed(outcomes, first, n)
    }

    /** Both allocations for a context are granted. */
    predicate Granting(first: nat) {
      outcomes(first) && outcomes(first + 1)
    }

    /** A hardware callback. */
    method Callback(action: Action, id: nat) returns (ok: bool)
      modifies this`asked, this`log
      ensures ok == outcomes(old(asked)) && asked == old(asked) + 1
      ensures log == old(log) + [Call(action, id, ok)]
    {
      ok := Granted();
      log := log + [Call(action, id, ok)];
    }

    /** The outcome of a callback or an allocation. */
    method Granted() returns (ok: bool)
      modifies this`asked
      ensures ok == outcomes(old(asked)) && asked == old(asked) + 1
    {
      ok := outcomes(asked);
      asked := asked + 1;
    }

    /** The value that a successful read leaves in an event. */
    method EventValue(id: nat) returns (value: int)
      requires id < |values|
      modifies this`values, this`readings
      ensures values == old(values)[id := value] && readings == old(readings) + [value]
    {
      value := *;
      values := values[id := value];
      readings := readings + [value];
    }

    method AcquireDevices(eventsId: IdArray?, numEvents: nat) returns (errno: Errno, bitmask: bv32)
      requires KnownEvents(eventsId, numEvents)
      modifies this`deviceMask
      ensures var wanted := DevicesOf(devices, Events(eventsId, numEvents));
        if wanted !! old(Devices(deviceMask))
        then errno == Ok && Devices(bitmask) == wanted && Devices(deviceMask) == old(Devices(deviceMask)) + wanted
        else errno == Conflict && deviceMask == old(deviceMask)
    {
      var acquired: bv32 := 0;
      DevicesOfZero();
      for i := 0 to numEvents
        invariant deviceMask == old(deviceMask)
        invariant Devices(acquired) == DevicesOf(devices, Ids(eventsId)[..i])
      {
        var placement := devices[Ids(eventsId)[i]];
        DevicesOfNext(Ids(eventsId), i);
        if placement.Unbound? {
          continue;
        }
        acquired := Include(acquired, placement.device);
      }
      var overlap := Overlap(acquired, deviceMask);
      if overlap {
        return Conflict, 0;
      }
      deviceMask := Merge(deviceMask, acquired);
      return Ok, acquired;
    }

    lemma DevicesOfNext(ids: seq<nat>, i: nat)
      requires i < |ids| && ids[i] < |devices|
      ensures DevicesOf(devices, ids[..i + 1])
           == DevicesOf(devices, ids[..i]) + if devices[ids[i]].Unbound? then iset{} else iset{devices[ids[i]].device}
    {
      var ids' := ids[..i + 1];
      assert ids'[..i] == ids[..i];
      forall d: Device | d in DevicesOf(devices, ids[..i])
        ensures d in DevicesOf(devices, ids')
      {
        var j :| 0 <= j < i && ids[..i][j] < |devices| && devices[ids[..i][j]] == On(d);
        assert ids'[j] == ids[j];
      }
      if devices[ids[i]].On? {
        assert ids'[i] == ids[i];
      }
      forall d: Device | d in DevicesOf(devices, ids')
        ensures d in DevicesOf(devices, ids[..i]) || devices[ids[i]] == On(d)
      {
        var j :| 0 <= j < i + 1 && ids'[j] < |devices| && devices[ids'[j]] == On(d);
        if j < i {
          assert ids[..i][j] == ids[j];
        }
      }
    }

    /** Gives devices back. On devices that are all acquired it cannot fail, and the mask loses
        exactly those. */
    method ReleaseDevices(ctx: Context) returns (errno: Errno)
      modifies this`deviceMask, ctx`deviceMask
      ensures if old(Devices(ctx.deviceMask)) <= old(Devices(deviceMask))
        then errno == Ok && Devices(ctx.deviceMask) == iset{}
          && Devices(deviceMask) == old(Devices(deviceMask)) - old(Devices(ctx.deviceMask))
        else errno == Misc && deviceMask == old(deviceMask) && ctx.deviceMask == old(ctx.deviceMask)
    {
      var release := ctx.deviceMask;
      var covered := Covers(release, deviceMask);
      if !covered {
        return Misc;
      }
      deviceMask := Toggle(deviceMask, release);
      ctx.deviceMask := Toggle(ctx.deviceMask, release);
      return Ok;
    }

    /** Records an event of the run. */
    ghost method Note(event: Event<Context, Device>)
      requires sys == After(history) && Enabled(sys, event)
      modifies this`history, this`sys
      ensures history == old(history) + [event] && sys == After(history) == Next(old(sys), event)
    {
      OneMoreEvent(history, event);
      history, sys := history + [event], Next(sys, event);
    }

    /** The devices of these events are all free. */
    ghost predicate AreFree(ids: seq<nat>)
      reads `sys
    {
      DevicesOf(devices, ids) !! sys.mask
    }

    /** Opens a context on some events: acquires their devices, then opens the events in order.
        When an opening fails, exactly the events opened so far are closed again; the devices
        stay acquired, and the context is freed but handed out all the same. `slot` is what the
        caller's context pointer was before; a call that finds a device taken frees whatever that
        pointer leads to, even if it has been freed before. */
    method CtxOpen(eventsId: IdArray?, numEvents: nat, slot: Context?)
      returns (errno: Errno, ctx: Context?, ghost reached: nat)
      requires Valid() && KnownEvents(eventsId, numEvents)
      modifies this, sys.held.Keys`live, (if slot == null then {} else {slot})`live
      ensures Valid() && errno in {Ok, Conflict, NoMemory, Misc} && old(history) <= history
      ensures OthersLive(old(sys.held.Keys), slot)
      ensures errno == Conflict <==> !old(AreFree(Events(eventsId, numEvents)))
      ensures errno == Ok <==>
        old(AreFree(Events(eventsId, numEvents))) && Granting(old(asked)) && Succeed(old(asked) + 2, numEvents)
      ensures errno == NoMemory <==> old(AreFree(Events(eventsId, numEvents))) && !Granting(old(asked))
      ensures asked == old(asked) + if errno == Conflict then 0 else OpenAsks(outcomes, old(asked), numEvents)
      ensures errno == Ok ==>
        && ctx != null && fresh(ctx) && ctx.live && ctx !in old(sys.held)
        && (var c: Context := ctx;
            sys == Next(old(sys), Opened(c, DevicesOf(devices, Events(eventsId, numEvents)))))
        && ctx.state == Flags(true, false) && ctx.eventsId == eventsId && ctx.numEvents == numEvents
        && fresh(ctx.counters) && ctx.counters[..] == seq(numEvents, _ => 0)
        && log == old(log) + Calls(Open, Events(eventsId, numEvents))
      ensures errno == Conflict ==>
        && ctx == slot && (ctx != null ==> !ctx.live) && log == old(log)
        && sys == DroppedFrom(old(sys), slot)
      ensures errno in {NoMemory, Misc} ==>
        && sys == Next(old(sys), OpenFailed(DevicesOf(devices, Events(eventsId, numEvents))))
        && (ctx != null ==> fresh(ctx) && !ctx.live)
      ensures errno == NoMemory ==> log == old(log) && (ctx == null <==> !outcomes(old(asked)))
      ensures errno == Misc ==>
        && ctx != null && reached < numEvents
        && RolledBack(old(log), log, Events(eventsId, numEvents), reached)
      ensures staleFrees == old(staleFrees)
                          + if errno == Conflict && slot != null && !old(slot.live) then 1 else 0
      ensures values == old(values) && readings == old(readings)
    {
      var bitmask;
      reached := 0;
      errno, bitmask := AcquireDevices(eventsId, numEvents);
      if errno != Ok {
        ctx := slot;
        FreeRefused(DevicesOf(devices, Events(eventsId, numEvents)), slot);
      } else {
        errno, ctx, reached := OpenAcquired(eventsId, numEvents, bitmask);
        NoteOpening(DevicesOf(devices, Events(eventsId, numEvents)), if errno == Ok then ctx else null);
      }
    }

    /** Frees the context that a pointer leads to. If that was done before, its memory may belong to
        another context by now, which is then the one that is freed. */
    ghost method FreePointer(ctx: Context)
      modifies this`staleFrees, sys.held.Keys`live, ctx`live
      ensures !ctx.live && OthersLive(old(sys.held.Keys), ctx)
      ensures staleFrees == old(staleFrees) + if old(ctx.live) then 0 else 1
    {
      if ctx.live {
        ctx.live := false;
      } else {
        staleFrees := staleFrees + 1;
        var victim: Context? := *;
        if victim != null && victim in sys.held {
          victim.live := false;
        }
      }
    }

    /** No other open context came alive, and none was freed if nothing was freed twice. */
    twostate predicate OthersLive(held: set<Context>, ctx: Context?)
      reads `staleFrees, held
    {
      forall c :: c in held && c != ctx ==>
        (c.live ==> old(c.live)) && (staleFrees == old(staleFrees) ==> c.live == old(c.live))
    }

    /** Records a refused opening, which frees what the context pointer led to. */
    ghost method FreeRefused(wanted: iset<Device>, slot: Context?)
      requires Valid() && !(wanted !! sys.mask)
      modifies this`history, this`sys, this`staleFrees, sys.held.Keys`live, (if slot == null then {} else {slot})`live
      ensures Valid() && (slot != null ==> !slot.live) && old(history) <= history
      ensures OthersLive(old(sys.held.Keys), slot)
      ensures sys == DroppedFrom(old(sys), slot)
      ensures staleFrees == old(staleFrees) + if slot != null && !old(slot.live) then 1 else 0
    {
      Note(Refused(wanted));
      if slot != null {
        if slot in sys.held {
          ghost var dropped: Context := slot;
          Note(Dropped(dropped));
        }
        FreePointer(slot);
      }
      forall c | c in sys.held
        ensures IsHeld(sys.held, c)
      {
        assert c in old(sys.held) && old(IsHeld(sys.held, c));
      }
    }

    /** Records an opening whose devices were acquired: of a context, or failed. */
    ghost method NoteOpening(wanted: iset<Device>, ctx: Context?)
      requires |values| == |devices|
      requires sys == After(history) && wanted !! sys.mask && Devices(deviceMask) == sys.mask + wanted
      requires forall c {:trigger IsHeld(sys.held, c)} :: c in sys.held ==> IsHeld(sys.held, c)
      requires ctx != null ==>
        && ctx !in sys.held && ctx.live && ctx.state.isOpen && KnownEvents(ctx.eventsId, ctx.numEvents)
        && ctx.counters.Length == ctx.numEvents
        && Devices(ctx.deviceMask) == wanted == DevicesOf(devices, Events(ctx.eventsId, ctx.numEvents))
      modifies this`history, this`sys
      ensures Valid() && old(history) <= history
      ensures ctx == null ==> sys == Next(old(sys), OpenFailed(wanted))
      ensures ctx != null ==> (var c: Context := ctx; sys == Next(old(sys), Opened(c, wanted)))
    {
      if ctx == null {
        Note(OpenFailed(wanted));
      } else {
        ghost var c: Context := ctx;
        Note(Opened(c, wanted));
      }
      forall c | c in sys.held
        ensures IsHeld(sys.held, c)
      {
        assert c in old(sys.held) ==> old(IsHeld(sys.held, c));
      }
    }

    /** The rest of `CtxOpen`, once the devices are acquired. */
    method OpenAcquired(eventsId: IdArray?, numEvents: nat, bitmask: bv32)
      returns (errno: Errno, ctx: Context?, ghost reached: nat)
      requires KnownEvents(eventsId, numEvents)
      modifies this`log, this`asked
      ensures errno == Ok <==> Granting(old(asked)) && Succeed(old(asked) + 2, numEvents)
      ensures errno == NoMemory <==> !Granting(old(asked))
      ensures asked == old(asked) + OpenAsks(outcomes, old(asked), numEvents)
      ensures errno == Ok ==>
        && ctx != null && fresh(ctx) && ctx.live && ctx.deviceMask == bitmask
        && ctx.state == Flags(true, false) && ctx.eventsId == eventsId && ctx.numEvents == numEvents
        && fresh(ctx.counters) && ctx.counters[..] == seq(numEvents, _ => 0)
        && log == old(log) + Calls(Open, Events(eventsId, numEvents))
      ensures errno != Ok ==> reached <= numEvents && (ctx != null ==> fresh(ctx) && !ctx.live)
      ensures errno == NoMemory ==> log == old(log) && (ctx == null <==> !outcomes(old(asked)))
      ensures errno == Misc ==>
        && ctx != null && reached < numEvents
        && RolledBack(old(log), log, Events(eventsId, numEvents), reached)
      ensures errno in {Ok, NoMemory, Misc}
    {
      reached := 0;
      var granted := Granted();
      if !granted {
        return NoMemory, null, 0;
      }
      ctx := new Context();
      granted := Granted();
      if !granted {
        Free(ctx);
        return NoMemory, ctx, 0;
      }
      var counters := new int[numEvents](_ => 0);
      errno, reached := OpenEvents(eventsId, numEvents);
      if errno != Ok {
        Free(ctx);
        return;
      }
      ctx.state := ctx.state.(isOpen := true);
      ctx.eventsId := eventsId;
      ctx.numEvents := numEvents;
      ctx.counters := counters;
      ctx.deviceMask := bitmask;
    }

    /** Frees a context, if there is one; it must not have been freed before. */
    ghost method Free(ctx: Context?)
      requires ctx != null ==> ctx.live
      modifies (if ctx == null then {} else {ctx})`live
      ensures ctx != null ==> !ctx.live
    {
      if ctx != null {
        ctx.live := false;
      }
    }

    /** Opens events in order; on a failure closes those already open, again in order. */
    method OpenEvents(eventsId: IdArray?, numEvents: nat) returns (errno: Errno, ghost reached: nat)
      requires KnownEvents(eventsId, numEvents)
      modifies this`log, this`asked
      ensures errno == Ok <==> Succeed(old(asked), numEvents)
      ensures asked == old(asked)
                     + if errno == Ok then numEvents else 2 * Tried(outcomes, old(asked), numEvents) - 1
      ensures errno == Ok ==> log == old(log) + Calls(Open, Events(eventsId, numEvents))
      ensures errno != Ok ==>
        && errno == Misc && reached < numEvents
        && RolledBack(old(log), log, Events(eventsId, numEvents), reached)
    {
      var i := 0;
      errno := Ok;
      while i < numEvents
        invariant 0 <= i <= numEvents && log == old(log) + Calls(Open, Ids(eventsId)[..i])
        invariant asked == old(asked) + i && Succeed(old(asked), i)
      {
        var ok := Callback(Open, Ids(eventsId)[i]);
        if !ok {
          TriedUpTo(outcomes, old(asked), numEvents, i);
          errno := Misc;
          break;
        }
        CallsExtend(Open, Ids(eventsId), i);
        i := i + 1;
      }
      reached := i;
      if errno != Ok {
        ghost var before := log;
        ghost var closes: seq<Call> := [];
        for j := 0 to i
          invariant log == before + closes && AreCalls(closes, Close, Ids(eventsId)[..j])
          invariant asked == old(asked) + i + 1 + j
        {
          var ok := Callback(Close, Ids(eventsId)[j]);
          closes := closes + [Call(Close, Ids(eventsId)[j], ok)];
        }
        assert Events(eventsId, numEvents)[..i] == Ids(eventsId)[..i];
      }
    }

    lemma CallsExtend(action: Action, ids: seq<nat>, i: nat)
      requires i < |ids|
      ensures Calls(action, ids[..i + 1]) == Calls(action, ids[..i]) + [Call(action, ids[i], true)]
    {
    }

    /** Makes one kind of call for each event of a context in turn, until one fails. */
    method ForEachEvent(action: Action, ctx: Context) returns (errno: Errno, done: nat)
      requires KnownEvents(ctx.eventsId, ctx.numEvents)
      modifies this`log, this`asked
      ensures errno == Ok <==> Succeed(old(asked), ctx.numEvents)
      ensures asked == old(asked) + Tried(outcomes, old(asked), ctx.numEvents)
      ensures errno == Ok ==>
        && done == ctx.numEvents && asked == old(asked) + ctx.numEvents
        && log == old(log) + Calls(action, Events(ctx.eventsId, ctx.numEvents))
      ensures errno != Ok ==>
        && errno == Misc && done < ctx.numEvents
        && Succeed(old(asked), done) && !outcomes(old(asked) + done) && asked == old(asked) + done + 1
        && FailedAt(old(log), log, action, Events(ctx.eventsId, ctx.numEvents), done)
    {
      done := 0;
      for i := 0 to ctx.numEvents
        invariant done == i && log == old(log) + Calls(action, Ids(ctx.eventsId)[..i])
        invariant asked == old(asked) + i && Succeed(old(asked), i)
      {
        var ok := Callback(action, Ids(ctx.eventsId)[i]);
        if !ok {
          TriedUpTo(outcomes, old(asked), ctx.numEvents, i);
          return Misc, i;
        }
        CallsExtend(action, Ids(ctx.eventsId), i);
        done := i + 1;
      }
      TriedAll(outcomes, old(asked), ctx.numEvents);
      return Ok, done;
    }

    /** Closes the events of an open context and gives its devices back, which cannot fail. When
        closing an event fails, the context stays as it was. */
    method CtxClose(ctx: Context) returns (errno: Errno, ghost done: nat)
      requires Valid() && ctx in sys.held
      modifies this, sys.held.Keys`live, ctx
      ensures Valid() && errno in {Ok, Misc} && old(history) <= history && OthersLive(old(sys.held.Keys), ctx)
      ensures errno == Ok <==> Succeed(old(asked), old(ctx.numEvents))
      ensures asked == old(asked) + Tried(outcomes, old(asked), old(ctx.numEvents))
      ensures values == old(values) && readings == old(readings)
      ensures staleFrees == old(staleFrees) + if errno == Ok && !old(ctx.live) then 1 else 0
      ensures errno == Ok ==>
        && sys == Next(old(sys), Closed(ctx)) && !ctx.live
        && log == old(log) + Calls(Close, old(Events(ctx.eventsId, ctx.numEvents)))
      ensures errno == Misc ==>
        && sys == old(sys) && unchanged(ctx)
        && done < ctx.numEvents && FailedAt(old(log), log, Close, Events(ctx.eventsId, ctx.numEvents), done)
    {
      assert IsHeld(sys.held, ctx);
      errno, done := ForEachEvent(Close, ctx);
      if errno == Ok {
        GiveBack(ctx);
      } else {
        Note(CloseFailed(ctx));
      }
    }

    /** Gives back the devices of a context, which cannot fail, and frees the context. */
    method GiveBack(ctx: Context)
      requires Valid() && ctx in sys.held
      modifies this`deviceMask, this`history, this`sys, this`staleFrees, sys.held.Keys`live, ctx
      ensures Valid() && old(history) <= history && OthersLive(old(sys.held.Keys), ctx)
      ensures sys == Next(old(sys), Closed(ctx)) && !ctx.live
      ensures staleFrees == old(staleFrees) + if old(ctx.live) then 0 else 1
    {
      assert IsHeld(sys.held, ctx);
      RunsAreExclusive(history);
      UnionHas(sys.held, ctx);
      var released := ReleaseDevices(ctx);
      assert released == Ok;
      Note(Closed(ctx));
      FreePointer(ctx);
      forall c | c in sys.held
        ensures IsHeld(sys.held, c)
      {
        assert old(IsHeld(sys.held, c));
      }
    }

    /** Starts the events of an open context that is not running. */
    method CtxStart(ctx: Context) returns (errno: Errno, ghost done: nat)
      requires Valid() && ctx in sys.held
      modifies this`log, this`asked, ctx`state
      ensures Valid()
      ensures !old(ctx.state.isRunning) ==> (errno == Ok <==> Succeed(old(asked), ctx.numEvents))
      ensures asked == old(asked)
                     + if errno == Ok then ctx.numEvents
                       else if errno == Misc then 2 * Tried(outcomes, old(asked), ctx.numEvents) - 1 else 0
      ensures old(ctx.state.isRunning) ==> errno == ComponentBug && ctx.state == old(ctx.state) && log == old(log)
      ensures !old(ctx.state.isRunning) ==> errno in {Ok, Misc}
      ensures errno == Ok ==>
        && ctx.state == Flags(true, true)
        && log == old(log) + Calls(Start, Events(ctx.eventsId, ctx.numEvents))
      ensures errno == Misc ==>
        && ctx.state == old(ctx.state) && done < ctx.numEvents
        && Succeed(old(asked), done) && !outcomes(old(asked) + done)
        && HalfStarted(old(log), log, Events(ctx.eventsId, ctx.numEvents), done)
        && |old(log)| <= |log|
        && (var ids := Events(ctx.eventsId, ctx.numEvents);
            AllStopped(log[|old(log)|..], ids[..done]) <==> forall j :: 0 <= j < done ==> ids[j] == ids[done])
    {
      assert IsHeld(sys.held, ctx);
      if !ctx.state.isOpen || ctx.state.isRunning {
        return ComponentBug, 0;
      }
      var i;
      errno, i := ForEachEvent(Start, ctx);
      done := i;
      if errno == Ok {
        ctx.state := ctx.state.(isRunning := true);
      } else {
        StopFailedEvent(Ids(ctx.eventsId)[i], i, old(log), Events(ctx.eventsId, ctx.numEvents));
      }
      forall c | c in sys.held
        ensures IsHeld(sys.held, c)
      {
        assert old(IsHeld(sys.held, c));
      }
    }

    /** The clean-up after a failed start: once for each event started, the event that failed is
        stopped. */
    method StopFailedEvent(id: nat, i: nat, ghost before: seq<Call>, ghost ids: seq<nat>)
      requires FailedAt(before, log, Start, ids, i) && ids[i] == id
      modifies this`log, this`asked
      ensures HalfStarted(before, log, ids, i) && |before| <= |log| && asked == old(asked) + i
      ensures AllStopped(log[|before|..], ids[..i]) <==> forall j :: 0 <= j < i ==> ids[j] == ids[i]
    {
      ghost var stops: seq<Call> := [];
      for j := 0 to i
        invariant AreCallsOf(stops, Stop, id, j) && log == old(log) + stops && asked == old(asked) + j
      {
        var ok := Callback(Stop, id);
        stops := stops + [Call(Stop, id, ok)];
      }
      FailedStartLeavesEventsStarted(before, log, ids, i);
    }

    /** Stops the events of a running context. When that fails half-way, it counts as running. */
    method CtxStop(ctx: Context) returns (errno: Errno, ghost done: nat)
      requires Valid() && ctx in sys.held
      modifies this`log, this`asked, ctx`state
      ensures Valid()
      ensures old(ctx.state.isRunning) ==> (errno == Ok <==> Succeed(old(asked), ctx.numEvents))
      ensures old(ctx.state.isRunning) ==> asked == old(asked) + Tried(outcomes, old(asked), ctx.numEvents)
      ensures !old(ctx.state.isRunning) ==> errno == ComponentBug && ctx.state == old(ctx.state) && log == old(log)
      ensures old(ctx.state.isRunning) ==> errno in {Ok, Misc}
      ensures errno == Ok ==>
        && ctx.state == Flags(true, false) && asked == old(asked) + ctx.numEvents
        && log == old(log) + Calls(Stop, Events(ctx.eventsId, ctx.numEvents))
      ensures errno == Misc ==>
        && ctx.state == old(ctx.state)
        && done < ctx.numEvents && FailedAt(old(log), log, Stop, Events(ctx.eventsId, ctx.numEvents), done)
    {
      assert IsHeld(sys.held, ctx);
      if !ctx.state.isOpen || !ctx.state.isRunning {
        return ComponentBug, 0;
      }
      errno, done := ForEachEvent(Stop, ctx);
      if errno == Ok {
        ctx.state := ctx.state.(isRunning := false);
      }
      forall c | c in sys.held
        ensures IsHeld(sys.held, c)
      {
        assert old(IsHeld(sys.held, c));
      }
    }

    /** Reads the events of a context into its counters, up to the first that fails. */
    method CtxRead(ctx: Context) returns (errno: Errno, counts: array?<int>, ghost read: seq<int>)
      requires Valid() && ctx in sys.held
      modifies this`log, this`asked, this`values, this`readings, ctx.counters
      ensures Valid() && errno in {Ok, Misc} && readings == old(readings) + read
      ensures errno == Ok <==> Succeed(old(asked), ctx.numEvents)
      ensures asked == old(asked) + Tried(outcomes, old(asked), ctx.numEvents)
      ensures KnownEvents(ctx.eventsId, ctx.numEvents) && |read| <= ctx.numEvents && |old(values)| == |devices|
      ensures values == Stored(old(values), Events(ctx.eventsId, ctx.numEvents)[..|read|], read)
      ensures errno == Ok ==>
        && counts == ctx.counters && ctx.counters[..] == read
        && log == old(log) + Calls(Read, Events(ctx.eventsId, ctx.numEvents))
      ensures errno == Misc ==>
        && counts == null && |read| < ctx.numEvents == ctx.counters.Length
        && ctx.counters[..] == read + old(ctx.counters[..])[|read|..]
        && FailedAt(old(log), log, Read, Events(ctx.eventsId, ctx.numEvents), |read|)
    {
      assert IsHeld(sys.held, ctx);
      var counters, ids := ctx.counters, ctx.eventsId;
      ghost var before, all := counters[..], Events(ids, ctx.numEvents);
      read := [];
      for i := 0 to ctx.numEvents
        invariant |read| == i && counters[..i] == read && readings == old(readings) + read
        invariant forall j :: i <= j < counters.Length ==> counters[j] == before[j]
        invariant log == old(log) + Calls(Read, all[..i])
        invariant asked == old(asked) + i && Succeed(old(asked), i)
        invariant |values| == |devices| && values == Stored(old(values), all[..i], read)
      {
        assert all[..i + 1][..i] == all[..i] && all[i] == Ids(ids)[i];
        var ok := Callback(Read, Ids(ids)[i]);
        if !ok {
          assert counters[..] == read + before[i..];
          TriedUpTo(outcomes, old(asked), ctx.numEvents, i);
          KeepHeld();
          return Misc, null, read;
        }
        CallsExtend(Read, all, i);
        StoredOneMore(old(values), all, read, i);
        var value := EventValue(Ids(ids)[i]);
        counters[i] := value;
        read := read + [value];
      }
      assert counters[..] == read && all[..ctx.numEvents] == all;
      TriedAll(outcomes, old(asked), ctx.numEvents);
      KeepHeld();
      return Ok, counters, read;
    }

    /** Writes the events of a context in turn, up to the first that fails: each gets its value and
        is then accessed. */
    method CtxWrite(ctx: Context, counts: seq<int>) returns (errno: Errno, ghost done: nat)
      requires Valid() && ctx in sys.held && |counts| >= ctx.numEvents
      modifies this`log, this`asked, this`values
      ensures Valid() && errno in {Ok, Misc} && KnownEvents(ctx.eventsId, ctx.numEvents) && |old(values)| == |devices|
      ensures errno == Ok <==> Succeed(old(asked), ctx.numEvents)
      ensures asked == old(asked) + Tried(outcomes, old(asked), ctx.numEvents)
      ensures errno == Ok ==>
        && log == old(log) + Calls(Write, Events(ctx.eventsId, ctx.numEvents))
        && values == Stored(old(values), Events(ctx.eventsId, ctx.numEvents), counts)
      ensures errno == Misc ==>
        && done < ctx.numEvents && FailedAt(old(log), log, Write, Events(ctx.eventsId, ctx.numEvents), done)
        && values == Stored(old(values), Events(ctx.eventsId, ctx.numEvents)[..done + 1], counts)
    {
      assert IsHeld(sys.held, ctx);
      var ids := ctx.eventsId;
      ghost var all := Events(ids, ctx.numEvents);
      done := 0;
      for i := 0 to ctx.numEvents
        invariant log == old(log) + Calls(Write, all[..i])
        invariant asked == old(asked) + i && Succeed(old(asked), i)
        invariant |values| == |devices| && values == Stored(old(values), all[..i], counts)
      {
        assert all[..i + 1][..i] == all[..i] && all[i] == Ids(ids)[i];
        done := i;
        values := values[Ids(ids)[i] := counts[i]];
        var ok := Callback(Write, Ids(ids)[i]);
        if !ok {
          TriedUpTo(outcomes, old(asked), ctx.numEvents, i);
          KeepHeld();
          return Misc, i;
        }
        CallsExtend(Write, all, i);
      }
      assert all[..ctx.numEvents] == all;
      TriedAll(outcomes, old(asked), ctx.numEvents);
      KeepHeld();
      errno := Ok;
    }

    /** Sets the events of a context and its counters to zero. */
    method CtxReset(ctx: Context) returns (errno: Errno)
      requires Valid() && ctx in sys.held
      modifies this`values, ctx.counters
      ensures Valid() && errno == Ok && ctx.counters[..] == seq(ctx.numEvents, _ => 0)
      ensures KnownEvents(ctx.eventsId, ctx.numEvents) && |old(values)| == |devices|
      ensures values == Stored(old(values), Events(ctx.eventsId, ctx.numEvents), seq(ctx.numEvents, _ => 0))
    {
      assert IsHeld(sys.held, ctx);
      var counters, ids := ctx.counters, ctx.eventsId;
      ghost var all, zeros := Events(ids, ctx.numEvents), seq(ctx.numEvents, _ => 0);
      for i := 0 to ctx.numEvents
        invariant forall j :: 0 <= j < i ==> counters[j] == 0
        invariant |values| == |devices| && values == Stored(old(values), all[..i], zeros)
      {
        assert all[..i + 1][..i] == all[..i] && all[i] == Ids(ids)[i];
        values := values[Ids(ids)[i] := 0];
        counters[i] := 0;
      }
      assert all[..ctx.numEvents] == all;
      KeepHeld();
      errno := Ok;
    }

    /** What contexts are held by has not changed. */
    twostate lemma KeepHeld()
      requires old(Valid()) && |values| == |devices|
      requires sys == old(sys) && history == old(history)
      requires deviceMask == old(deviceMask) && staleFrees == old(staleFrees)
      requires forall c :: c in sys.held ==> unchanged(c)
      ensures Valid()
    {
      forall c | c in sys.held
        ensures IsHeld(sys.held, c)
      {
        assert old(IsHeld(sys.held, c));
      }
    }
  }

  lemma StoredOneMore(values: seq<int>, ids: seq<nat>, read: seq<int>, i: nat)
    requires |read| == i < |ids| && forall j :: 0 <= j < |ids| ==> ids[j] < |values|
    ensures forall value ::
      Stored(values, ids[..i + 1], read + [value]) == Stored(values, ids[..i], read)[ids[i] := value]
  {
    assert ids[..i + 1][..i] == ids[..i];
    forall value
      ensures Stored(values, ids[..i], read + [value]) == Stored(values, ids[..i], read)
    {
      StoredIgnoresMore(values, ids[..i], read, read + [value]);
    }
  }

  lemma {:induction false} StoredIgnoresMore(values: seq<int>, ids: seq<nat>, counts: seq<int>, more: seq<int>)
    requires |ids| <= |counts| && counts <= more && forall i :: 0 <= i < |ids| ==> ids[i] < |values|
    ensures Stored(values, ids, more) == Stored(values, ids, counts)
  {
    if ids != [] {
      StoredIgnoresMore(values, ids[..|ids| - 1], counts, more);
    }
  }

  /** An event that is bound to a device is open in at most one context at a time. */
  lemma DeviceEventsHaveOneContext(rocs: Rocs, c: Context, d: Context, id: nat)
    requires rocs.Valid() && c in rocs.sys.held && d in rocs.sys.held
    requires id in Events(c.eventsId, c.numEvents) && id in Events(d.eventsId, d.numEvents)
    requires id < |rocs.devices| && rocs.devices[id].On?
    ensures c == d
  {
    RunsAreExclusive(rocs.history);
    assert rocs.IsHeld(rocs.sys.held, c) && rocs.IsHeld(rocs.sys.held, d);
    var device := rocs.devices[id].device;
    var hc, hd := rocs.sys.held[c], rocs.sys.held[d];
    assert c == d || hc !! hd;
    assert device in DevicesOf(rocs.devices, Events(c.eventsId, c.numEvents));
    assert device in DevicesOf(rocs.devices, Events(d.eventsId, d.numEvents));
  }

  /** A start that fails at the second of two events leaves the first one started. */
  method StartFailsHalfway() returns (errno: Errno, ghost calls: seq<Call>)
    ensures errno == Misc && !AllStopped(calls, [0])
  {
    var rocs := new Rocs([Unbound, Unbound], k => k != 5);
    var ids := new IdArray([0, 1]);
    var first, ctx, reached := rocs.CtxOpen(ids, 2, null);
    assert first == Ok && rocs.asked == 4;
    ghost var before := rocs.log;
    ghost var done;
    assert !rocs.outcomes(5);
    errno, done := rocs.CtxStart(ctx);
    calls := rocs.log[|before|..];
    ghost var all := Events(ids, 2);
    assert done == 1 && all[..1] == [0] && all[0] != all[1];
  }
}
