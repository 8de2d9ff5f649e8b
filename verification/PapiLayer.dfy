/** The component's thread and event-set layer above the measurement contexts: the guards that
    keep reads, writes, resets and stops on a live context. */
module PapiLayer {
  import opened Contexts
  import opened DeviceMask
  import opened Exclusivity

  /** Per-thread state. The ghost field names the event set the thread has started. */
  class Thread {
    var state: Flags
    ghost var current: Control?

    constructor ()
      ensures state == Flags(false, false) && current == null
    {
      state, current := Flags(false, false), null;
    }
  }

  /** An event set; it belongs to one thread. */
  class Control {
    ghost const owner: Thread
    var eventsId: IdArray?
    var numEvents: nat
    var rocsCtx: Context?

    constructor (ghost owner: Thread)
      ensures this.owner == owner && eventsId == null && numEvents == 0 && rocsCtx == null
    {
      this.owner := owner;
      eventsId, numEvents, rocsCtx := null, 0, null;
    }
  }

  /** How an attempt to start an event set ends. `DeviceTaken`: one of its devices was in use. `NoContext`,
      `NoCounters`, `EventFailed`: its devices were acquired, but opening failed. `NotStarted`: it
      was opened, did not start, and was closed again; `NotClosed`: closing failed, too. */
  datatype Starting = Busy | DeviceTaken | NoContext | NoCounters | EventFailed | NotStarted | NotClosed | Started

  /** How an attempt to stop one ends. */
  datatype Stopping = NotRunning | NotStopped | Unclosed | Stopped

  function StartErrno(how: Starting): Errno {
    match how
    case Started => Ok
    case DeviceTaken => Conflict
    case NoContext | NoCounters => NoMemory
    case _ => Misc
  }

  /** How many callbacks a start of `n` events makes that fails: each event tried, and one stop for
      each event started. */
  function Halting(outcomes: nat -> bool, first: nat, n: nat): nat {
    if n == 0 then 0 else 2 * Tried(outcomes, first, n) - 1
  }

  /** How starting `n` open events ends; the callbacks from `first` on decide. */
  function StartedEnding(outcomes: nat -> bool, first: nat, n: nat): Starting {
    if AllSucceed(outcomes, first, n) then Started
    else if AllSucceed(outcomes, first + Halting(outcomes, first, n), n) then NotStarted
    else NotClosed
  }

  function StartedAsks(outcomes: nat -> bool, first: nat, n: nat): nat {
    if AllSucceed(outcomes, first, n) then n
    else Halting(outcomes, first, n) + Tried(outcomes, first + Halting(outcomes, first, n), n)
  }

  /** How opening a context for them ends; `Started` stands for success. */
  function OpenEnding(outcomes: nat -> bool, first: nat, n: nat): Starting {
    if !outcomes(first) then NoContext
    else if !outcomes(first + 1) then NoCounters
    else if !AllSucceed(outcomes, first + 2, n) then EventFailed
    else Started
  }

  ghost predicate StartedAs(outcomes: nat -> bool, first: nat, n: nat, how: Starting, after: nat) {
    how == StartedEnding(outcomes, first, n) && after == first + StartedAsks(outcomes, first, n)
  }

  ghost predicate OpensAs(outcomes: nat -> bool, first: nat, n: nat, how: Starting, after: nat) {
    how == OpenEnding(outcomes, first, n) && after == first + OpenAsks(outcomes, first, n)
  }

  /** Starting an event set of `n` events from an idle thread, with free devices, ends as the outcomes
      from `first` on say; then `after` callbacks and allocations have been made. */
  ghost predicate StartsAs(outcomes: nat -> bool, first: nat, n: nat, how: Starting, after: nat) {
    if OpenEnding(outcomes, first, n) != Started then OpensAs(outcomes, first, n, how, after)
    else StartedAs(outcomes, first + OpenAsks(outcomes, first, n), n, how, after)
  }

  /** Starting events failed, which made `middle` callbacks, and then the context was closed. */
  lemma StartingFails(outcomes: nat -> bool, first: nat, n: nat, middle: nat, how: Starting, after: nat)
    requires !AllSucceed(outcomes, first, n) && middle == first + Halting(outcomes, first, n)
    requires how == if AllSucceed(outcomes, middle, n) then NotStarted else NotClosed
    requires after == middle + Tried(outcomes, middle, n)
    ensures StartedAs(outcomes, first, n, how, after)
  {
  }

  lemma OpeningFails(outcomes: nat -> bool, first: nat, n: nat, how: Starting, after: nat)
    requires OpensAs(outcomes, first, n, how, after) && how != Started
    ensures StartsAs(outcomes, first, n, how, after)
  {
  }

  /** A start is an opening, and what follows if that succeeds. */
  lemma StartComposes(outcomes: nat -> bool, first: nat, n: nat, middle: nat, how: Starting, after: nat)
    requires OpensAs(outcomes, first, n, Started, middle) && StartedAs(outcomes, middle, n, how, after)
    ensures StartsAs(outcomes, first, n, how, after)
  {
  }

  lemma StartAnswers(outcomes: nat -> bool, first: nat, n: nat, how: Starting, after: nat)
    requires StartsAs(outcomes, first, n, how, after)
    ensures StartErrno(how) in {Ok, NoMemory, Misc}
    ensures StartErrno(how) == Ok <==> how == Started
    ensures StartErrno(how) == Ok <==> forall i :: first <= i < first + 2 + 2 * n ==> outcomes(i)
    ensures StartErrno(how) == NoMemory <==> !outcomes(first) || !outcomes(first + 1)
  {
  }

  /** How a start ends whose first failure is that of callback or allocation `i`. When event `k` does not
      start, `k` events are stopped before all are closed. */
  lemma FirstFailureDecides(outcomes: nat -> bool, first: nat, n: nat, i: nat, how: Starting, after: nat)
    requires StartsAs(outcomes, first, n, how, after)
    requires first <= i < first + 2 + 2 * n && !outcomes(i) && forall j :: first <= j < i ==> outcomes(j)
    ensures i < first + 2 ==> how == (if i == first then NoContext else NoCounters) && after == i + 1
    ensures first + 2 <= i < first + 2 + n ==> how == EventFailed && after == i + 1 + (i - (first + 2))
    ensures first + 2 + n <= i ==>
      var closing := i + 1 + (i - (first + 2 + n));
      if AllSucceed(outcomes, closing, n) then how == NotStarted && after == closing + n
      else how == NotClosed && closing < after <= closing + n
  {
    var opening := first + 2;
    if opening <= i < opening + n {
      TriedUpTo(outcomes, opening, n, i - opening);
    } else if opening + n <= i {
      TriedUpTo(outcomes, opening + n, n, i - (opening + n));
      var closing := i + 1 + (i - (opening + n));
      if AllSucceed(outcomes, closing, n) {
        TriedAll(outcomes, closing, n);
      }
    }
  }

  /** Stopping an event set of `n` events of a running thread ends as the outcomes say. */
  ghost predicate StopsAs(outcomes: nat -> bool, first: nat, n: nat, how: Stopping, after: nat) {
    if !AllSucceed(outcomes, first, n) then how == NotStopped && after == first + Tried(outcomes, first, n)
    else
      && how == (if AllSucceed(outcomes, first + n, n) then Stopped else Unclosed)
      && after == first + n + Tried(outcomes, first + n, n)
  }

  /** What an attempt to start does to the devices held: `slot` is the context pointer before it, `ctx`
      the one after it. */
  ghost predicate SysMoves(how: Starting, s: Sys<Context, Device>, slot: Context?, ctx: Context?,
                           wanted: iset<Device>, s': Sys<Context, Device>) {
    match how
    case Busy | NotStarted => s' == s
    case DeviceTaken => s' == DroppedFrom(s, slot)
    case NoContext | NoCounters | EventFailed => Steps(s, OpenFailed(wanted), s')
    case NotClosed | Started => ctx != null && Steps(s, Opened(ctx, wanted), s')
  }

  /** So much for the mask, the lost devices and the open contexts. */
  lemma StartMovesDevices(how: Starting, s: Sys<Context, Device>, slot: Context?, ctx: Context?,
                          wanted: iset<Device>, s': Sys<Context, Device>)
    requires SysMoves(how, s, slot, ctx, wanted, s')
    ensures s'.mask == if how in {Busy, DeviceTaken, NotStarted} then s.mask else s.mask + wanted
    ensures if how in {NoContext, NoCounters, EventFailed} then s'.lost == s.lost + wanted
            else if how == DeviceTaken then s.lost <= s'.lost else s'.lost == s.lost
    ensures s'.held.Keys <= s.held.Keys + if how in {NotClosed, Started} then {ctx} else {}
  {
  }

  lemma StopAnswers(outcomes: nat -> bool, first: nat, n: nat, how: Stopping, after: nat)
    requires StopsAs(outcomes, first, n, how, after)
    ensures how == Stopped <==> forall i :: first <= i < first + 2 * n ==> outcomes(i)
    ensures how in {Unclosed, Stopped} <==> forall i :: first <= i < first + n ==> outcomes(i)
  {
  }

  /** What the pointer of an event set leads to. */
  datatype Pointer = Null | Alive | Dead

  /** The callbacks of a start, once the events are open. */
  ghost predicate StartedLog(how: Starting, before: seq<Call>, after: seq<Call>, ids: seq<nat>) {
    match how
    case NotStarted => exists middle, k: nat ::
      HalfStarted(before, middle, ids, k) && after == middle + Calls(Close, ids)
    case NotClosed => exists middle, k: nat, j: nat ::
      HalfStarted(before, middle, ids, k) && FailedAt(middle, after, Close, ids, j)
    case _ => after == before + Calls(Start, ids)
  }

  /** The callbacks of a start. A start that fails at event `k` stops that event `k` times; then
      the events are closed in order, up to the first that fails. */
  ghost predicate StartLog(how: Starting, before: seq<Call>, after: seq<Call>, ids: seq<nat>) {
    match how
    case Busy | DeviceTaken | NoContext | NoCounters => after == before
    case EventFailed => exists k: nat :: RolledBack(before, after, ids, k)
    case NotStarted | NotClosed | Started => StartedLog(how, before + Calls(Open, ids), after, ids)
  }

  /** The callbacks of a stop. */
  ghost predicate StopLog(how: Stopping, before: seq<Call>, after: seq<Call>, ids: seq<nat>) {
    match how
    case NotRunning => after == before
    case NotStopped => exists k: nat :: FailedAt(before, after, Stop, ids, k)
    case Unclosed => exists k: nat :: FailedAt(before + Calls(Stop, ids), after, Close, ids, k)
    case Stopped => after == before + Calls(Stop, ids) + Calls(Close, ids)
  }

  class Component {
    const rocs: Rocs
    ghost var threads: set<Thread>
    ghost var controls: set<Control>

    constructor (devices: seq<Placement>, outcomes: nat -> bool)
      ensures Valid() && threads == {} && controls == {} && fresh(rocs) && rocs.history == []
      ensures rocs.devices == devices && rocs.outcomes == outcomes && rocs.asked == 0 && rocs.sys == Initial()
      ensures rocs.staleFrees == 0 && rocs.log == []
    {
      rocs := new Rocs(devices, outcomes);
      threads, controls := {}, {};
    }

    ghost predicate Valid()
      reads *
    {
      && rocs.Valid()
      && (forall t {:trigger IsSettled(t)} :: t in threads ==> IsSettled(t))
      && (forall c {:trigger IsSound(c)} :: c in controls ==> IsSound(c))
      && (forall c, d {:trigger AreApart(c, d)} :: c in controls && d in controls && c != d ==> AreApart(c, d))
    }

    /** A thread is idle, or it has opened and started one of its own event sets, whose context
        is open, running, and measures exactly the event set's events. */
    ghost predicate IsSettled(t: Thread)
      reads *
    {
      if t.current == null then t.state == Flags(false, false)
      else t.state == Flags(true, true) && t.current in controls && t.current.owner == t && IsMeasuring(t.current)
    }

    ghost predicate IsMeasuring(c: Control)
      reads c, c.rocsCtx, rocs`sys
    {
      && c.rocsCtx != null
      && c.rocsCtx in rocs.sys.held
      && c.rocsCtx.state == Flags(true, true)
      && c.rocsCtx.eventsId == c.eventsId
      && c.rocsCtx.numEvents == c.numEvents
    }

    /** The event numbers of an event set are known, in memory that has not been freed. */
    ghost predicate IsSound(c: Control)
      reads `threads, c, c.eventsId
    {
      && c.owner in threads
      && rocs.KnownEvents(c.eventsId, c.numEvents)
      && (c.eventsId != null ==> c.eventsId.live)
    }

    /** Two event sets share neither a context nor an array of event numbers. */
    ghost predicate AreApart(c: Control, d: Control)
      reads c, d
    {
      && (c.rocsCtx != null ==> c.rocsCtx != d.rocsCtx)
      && (c.eventsId != null ==> c.eventsId != d.eventsId)
    }

    /** A new thread. */
    method InitThread() returns (t: Thread)
      requires Valid()
      modifies this`threads
      ensures Valid() && fresh(t) && threads == old(threads) + {t}
      ensures t.state == Flags(false, false) && t.current == null
    {
      t := new Thread();
      threads := threads + {t};
      forall u | u in threads
        ensures IsSettled(u)
      {
        assert u != t ==> old(IsSettled(u));
      }
      forall c | c in controls
        ensures IsSound(c)
      {
        assert old(IsSound(c));
      }
    }

    /** The events of an event set. */
    function EventsOf(ctl: Control): seq<nat>
      reads ctl
    {
      Events(ctl.eventsId, ctl.numEvents)
    }

    ghost function PointerOf(ctl: Control): Pointer
      reads ctl, ctl.rocsCtx
    {
      if ctl.rocsCtx == null then Null else if ctl.rocsCtx.live then Alive else Dead
    }

    /** The context pointer after an attempt to start. It is cleared only if there was no memory for
        a context. When opening fails after that, or starting does, the pointer dangles; so it does
        after a refusal, unless it was null. */
    twostate predicate PointerAfter(how: Starting, ctl: Control)
      reads ctl, ctl.rocsCtx
    {
      match how
      case Busy => ctl.rocsCtx == old(ctl.rocsCtx) && PointerOf(ctl) == old(PointerOf(ctl))
      case DeviceTaken => ctl.rocsCtx == old(ctl.rocsCtx) && (ctl.rocsCtx != null ==> !ctl.rocsCtx.live)
      case NoContext => ctl.rocsCtx == null
      case NoCounters | EventFailed | NotStarted => ctl.rocsCtx != null && fresh(ctl.rocsCtx) && !ctl.rocsCtx.live
      case NotClosed | Started =>
        && ctl.rocsCtx != null && fresh(ctl.rocsCtx) && ctl.rocsCtx.live
        && fresh(ctl.rocsCtx.counters) && ctl.rocsCtx.eventsId == ctl.eventsId
    }

    /** Who holds which device after an attempt to start. */
    twostate predicate SysAfter(how: Starting, ctl: Control)
      reads ctl, rocs`sys
    {
      SysMoves(how, old(rocs.sys), old(ctl.rocsCtx), ctl.rocsCtx, DevicesOf(rocs.devices, EventsOf(ctl)), rocs.sys)
    }

    /** Event sets whose events are as they were are as sound as they were. */
    twostate lemma SetsStaySound()
      requires old(Valid()) && threads == old(threads) && controls == old(controls)
      requires forall c :: c in controls ==> c.eventsId == old(c.eventsId) && c.numEvents == old(c.numEvents)
      requires forall c :: c in controls && c.eventsId != null ==> unchanged(c.eventsId)
      ensures forall c {:trigger IsSound(c)} :: c in controls ==> IsSound(c)
    {
      forall c | c in controls
        ensures IsSound(c)
      {
        assert old(IsSound(c));
      }
    }

    /** Starting or stopping one event set keeps the invariant: threads that measure others go on
        doing so, and no two event sets come to share anything. */
    twostate lemma OneSetChanged(ctl: Control)
      requires old(Valid()) && rocs.Valid() && threads == old(threads) && controls == old(controls)
      requires ctl in controls && IsSettled(ctl.owner)
      requires forall u :: u in threads && u != ctl.owner ==> unchanged(u)
      requires forall c :: c in controls && c != ctl ==> unchanged(c)
      requires forall c :: c in controls ==> c.eventsId == old(c.eventsId) && c.numEvents == old(c.numEvents)
      requires forall c :: c in controls && c.eventsId != null ==> unchanged(c.eventsId)
      requires forall c :: c in old(rocs.sys.held) && c != old(ctl.rocsCtx) ==>
        c in rocs.sys.held && unchanged(c`state) && unchanged(c`eventsId) && unchanged(c`numEvents)
      requires ctl.rocsCtx == null || fresh(ctl.rocsCtx) || ctl.rocsCtx == old(ctl.rocsCtx)
      ensures Valid()
    {
      forall u | u in threads
        ensures IsSettled(u)
      {
        assert u != ctl.owner ==> old(IsSettled(u));
        assert u != ctl.owner && u.current != null ==> old(AreApart(ctl, u.current));
      }
      SetsStaySound();
      forall c, d | c in controls && d in controls && c != d
        ensures AreApart(c, d)
      {
        assert old(AreApart(c, d));
      }
    }

    /** Opens and starts the event set of an idle thread. */
    method StartEvents(t: Thread, ctl: Control) returns (errno: Errno, ghost how: Starting)
      requires Valid() && t in threads && ctl in controls && ctl.owner == t
      modifies rocs, rocs.sys.held.Keys`live, t, ctl`rocsCtx, (if ctl.rocsCtx == null then {} else {ctl.rocsCtx})`live
      ensures Valid() && errno == StartErrno(how) && old(rocs.history) <= rocs.history
      ensures if old(t.state.isOpen) then how == Busy && rocs.asked == old(rocs.asked)
              else if !old(rocs.AreFree(EventsOf(ctl))) then how == DeviceTaken && rocs.asked == old(rocs.asked)
              else StartsAs(rocs.outcomes, old(rocs.asked), ctl.numEvents, how, rocs.asked)
      ensures errno in {Ok, Conflict, NoMemory, Misc} && (old(t.state.isOpen) ==> errno == Misc)
      ensures errno == Ok <==>
        && !old(t.state.isOpen) && old(rocs.AreFree(EventsOf(ctl)))
        && forall i :: old(rocs.asked) <= i < old(rocs.asked) + 2 + 2 * ctl.numEvents ==> rocs.outcomes(i)
      ensures errno == Conflict <==> !old(t.state.isOpen) && !old(rocs.AreFree(EventsOf(ctl)))
      ensures errno == NoMemory <==>
        && !old(t.state.isOpen) && old(rocs.AreFree(EventsOf(ctl)))
        && !(rocs.outcomes(old(rocs.asked)) && rocs.outcomes(old(rocs.asked) + 1))
      ensures errno == Ok <==> how == Started
      ensures if how == Started then t.current == ctl && t.state == Flags(true, true)
              else t.current == old(t.current) && t.state == old(t.state)
      ensures how == Busy ==> unchanged(t) && unchanged(ctl) && unchanged(rocs)
      ensures PointerAfter(how, ctl) && SysAfter(how, ctl) && StartLog(how, old(rocs.log), rocs.log, EventsOf(ctl))
      ensures rocs.staleFrees == old(rocs.staleFrees)
        + if !old(t.state.isOpen) && old(PointerOf(ctl)) == Dead && !old(rocs.AreFree(EventsOf(ctl))) then 1 else 0
      ensures rocs.OthersLive(old(rocs.sys.held.Keys), old(ctl.rocsCtx))
    {
      if t.state.isOpen {
        assert IsSettled(t);
        return Misc, Busy;
      }
      errno, how := StartIdle(t, ctl);
      if how != DeviceTaken {
        StartAnswers(rocs.outcomes, old(rocs.asked), ctl.numEvents, how, rocs.asked);
      }
    }

    /** The rest of `StartEvents`. */
    method StartIdle(t: Thread, ctl: Control) returns (errno: Errno, ghost how: Starting)
      requires Valid() && t in threads && ctl in controls && ctl.owner == t && !t.state.isOpen
      modifies rocs, rocs.sys.held.Keys`live, t, ctl`rocsCtx, (if ctl.rocsCtx == null then {} else {ctl.rocsCtx})`live
      ensures Valid() && errno == StartErrno(how) && how != Busy && old(rocs.history) <= rocs.history
      ensures if !old(rocs.AreFree(EventsOf(ctl))) then how == DeviceTaken && rocs.asked == old(rocs.asked)
              else StartsAs(rocs.outcomes, old(rocs.asked), ctl.numEvents, how, rocs.asked)
      ensures if how == Started then t.current == ctl && t.state == Flags(true, true)
              else t.current == old(t.current) && t.state == old(t.state)
      ensures PointerAfter(how, ctl) && SysAfter(how, ctl) && StartLog(how, old(rocs.log), rocs.log, EventsOf(ctl))
      ensures rocs.staleFrees == old(rocs.staleFrees)
        + if how == DeviceTaken && old(PointerOf(ctl)) == Dead then 1 else 0
      ensures rocs.OthersLive(old(rocs.sys.held.Keys), old(ctl.rocsCtx))
    {
      assert IsSettled(t) && IsSound(ctl);
      errno, how := OpenAndStart(t, ctl);
      assert IsSettled(t);
      OneSetChanged(ctl);
    }

    /** Opens a context and starts it; one that does not start is closed again. */
    method OpenAndStart(t: Thread, ctl: Control) returns (errno: Errno, ghost how: Starting)
      requires rocs.Valid() && rocs.KnownEvents(ctl.eventsId, ctl.numEvents) && t.state == Flags(false, false)
      modifies rocs, rocs.sys.held.Keys`live, t, ctl`rocsCtx, (if ctl.rocsCtx == null then {} else {ctl.rocsCtx})`live
      ensures rocs.Valid() && errno == StartErrno(how) && how != Busy && old(rocs.history) <= rocs.history
      ensures if !old(rocs.AreFree(EventsOf(ctl))) then how == DeviceTaken && rocs.asked == old(rocs.asked)
              else StartsAs(rocs.outcomes, old(rocs.asked), ctl.numEvents, how, rocs.asked)
      ensures forall c :: c in old(rocs.sys.held) && c != old(ctl.rocsCtx) ==> c in rocs.sys.held
      ensures how == Started ==>
        IsMeasuring(ctl) && t.current == ctl && t.state == Flags(true, true)
      ensures how != Started ==> t.current == old(t.current) && t.state == Flags(false, false)
      ensures PointerAfter(how, ctl) && SysAfter(how, ctl) && StartLog(how, old(rocs.log), rocs.log, EventsOf(ctl))
      ensures rocs.staleFrees == old(rocs.staleFrees)
        + if how == DeviceTaken && old(PointerOf(ctl)) == Dead then 1 else 0
      ensures rocs.OthersLive(old(rocs.sys.held.Keys), old(ctl.rocsCtx))
    {
      ghost var first, n, outcomes := rocs.asked, ctl.numEvents, rocs.outcomes;
      errno, how := OpenContext(ctl);
      if errno != Ok {
        if how != DeviceTaken {
          OpeningFails(outcomes, first, n, how, rocs.asked);
        }
        return;
      }
      ghost var middle := rocs.asked;
      assert OpensAs(outcomes, first, n, Started, middle);
      errno, how := StartOpened(t, ctl);
      StartComposes(outcomes, first, n, middle, how, rocs.asked);
      if how == NotStarted {
        OpenedAndClosed(old(rocs.sys), ctl.rocsCtx, DevicesOf(rocs.devices, EventsOf(ctl)));
      }
    }

    /** Opens a context for an event set; `Started` stands for success. */
    method OpenContext(ctl: Control) returns (errno: Errno, ghost how: Starting)
      requires rocs.Valid() && rocs.KnownEvents(ctl.eventsId, ctl.numEvents)
      modifies rocs, rocs.sys.held.Keys`live, ctl`rocsCtx, (if ctl.rocsCtx == null then {} else {ctl.rocsCtx})`live
      ensures rocs.Valid() && errno == StartErrno(how) && how !in {Busy, NotStarted, NotClosed}
      ensures old(rocs.history) <= rocs.history
      ensures if !old(rocs.AreFree(EventsOf(ctl))) then how == DeviceTaken && rocs.asked == old(rocs.asked)
              else OpensAs(rocs.outcomes, old(rocs.asked), ctl.numEvents, how, rocs.asked)
      ensures PointerAfter(how, ctl) && SysAfter(how, ctl)
      ensures how != Started ==> StartLog(how, old(rocs.log), rocs.log, EventsOf(ctl))
      ensures how == Started ==>
        && ctl.rocsCtx.state == Flags(true, false) && ctl.rocsCtx.numEvents == ctl.numEvents
        && rocs.log == old(rocs.log) + Calls(Open, EventsOf(ctl))
      ensures rocs.staleFrees == old(rocs.staleFrees)
        + if how == DeviceTaken && old(PointerOf(ctl)) == Dead then 1 else 0
      ensures rocs.OthersLive(old(rocs.sys.held.Keys), old(ctl.rocsCtx))
    {
      ghost var k;
      var ctx;
      errno, ctx, k := rocs.CtxOpen(ctl.eventsId, ctl.numEvents, ctl.rocsCtx);
      ctl.rocsCtx := ctx;
      how := if errno == Ok then Started
             else if errno == Conflict then DeviceTaken
             else if ctx == null then NoContext
             else if errno == NoMemory then NoCounters else EventFailed;
    }

    method StartOpened(t: Thread, ctl: Control) returns (errno: Errno, ghost how: Starting)
      requires rocs.Valid() && ctl.rocsCtx != null && ctl.rocsCtx in rocs.sys.held && ctl.rocsCtx.live
      requires ctl.rocsCtx.state == Flags(true, false)
      requires ctl.rocsCtx.eventsId == ctl.eventsId && ctl.rocsCtx.numEvents == ctl.numEvents
      modifies rocs, rocs.sys.held.Keys`live, t, ctl.rocsCtx
      ensures rocs.Valid()
      ensures how in {NotStarted, NotClosed, Started}
      ensures errno == StartErrno(how)
      ensures old(rocs.history) <= rocs.history && rocs.staleFrees == old(rocs.staleFrees)
      ensures StartedAs(rocs.outcomes, old(rocs.asked), ctl.numEvents, how, rocs.asked)
      ensures rocs.sys == if how == NotStarted then Next(old(rocs.sys), Closed(ctl.rocsCtx)) else old(rocs.sys)
      ensures ctl.rocsCtx.live <==> how != NotStarted
      ensures rocs.OthersLive(old(rocs.sys.held.Keys), ctl.rocsCtx)
      ensures StartedLog(how, old(rocs.log), rocs.log, EventsOf(ctl))
      ensures how != NotStarted ==>
        ctl.rocsCtx.eventsId == ctl.eventsId && ctl.rocsCtx.counters == old(ctl.rocsCtx.counters)
      ensures if how == Started
        then IsMeasuring(ctl) && t.current == ctl && t.state == Flags(true, true)
        else t.current == old(t.current) && t.state == Flags(false, false)
    {
      ghost var first, n, outcomes := rocs.asked, ctl.numEvents, rocs.outcomes;
      ghost var k;
      t.state := Flags(true, false);
      errno, k := rocs.CtxStart(ctl.rocsCtx);
      how := Started;
      if errno != Ok {
        how := CloseUnstarted(t, ctl, old(rocs.log), first, k);
        return;
      }
      assert StartedAs(outcomes, first, n, how, rocs.asked);
      SetRunning(t, ctl);
    }

    /** The thread has started the event set. */
    method SetRunning(t: Thread, ctl: Control)
      requires rocs.Valid() && ctl.rocsCtx != null && ctl.rocsCtx in rocs.sys.held
      requires ctl.rocsCtx.state == Flags(true, true)
      requires ctl.rocsCtx.eventsId == ctl.eventsId && ctl.rocsCtx.numEvents == ctl.numEvents && t.state.isOpen
      modifies t
      ensures rocs.Valid() && IsMeasuring(ctl) && t.current == ctl && t.state == Flags(true, true)
    {
      t.state := t.state.(isRunning := true);
      t.current := ctl;
    }

    /** Closes a context that did not start, if the thread has it open. */
    method CloseUnstarted(t: Thread, ctl: Control, ghost log: seq<Call>, ghost first: nat, ghost k: nat)
      returns (ghost how: Starting)
      requires rocs.Valid() && t.state == Flags(true, false)
      requires ctl.rocsCtx != null && ctl.rocsCtx in rocs.sys.held && ctl.rocsCtx.live
      requires ctl.rocsCtx.eventsId == ctl.eventsId && ctl.rocsCtx.numEvents == ctl.numEvents
      requires HalfStarted(log, rocs.log, EventsOf(ctl), k) && !rocs.Succeed(first, ctl.numEvents)
      requires rocs.asked == first + Halting(rocs.outcomes, first, ctl.numEvents)
      modifies rocs, rocs.sys.held.Keys`live, t`state, ctl.rocsCtx
      ensures rocs.Valid() && how in {NotStarted, NotClosed} && t.state == Flags(false, false)
      ensures old(rocs.history) <= rocs.history && rocs.staleFrees == old(rocs.staleFrees)
      ensures rocs.sys == if how == NotStarted then Next(old(rocs.sys), Closed(ctl.rocsCtx)) else old(rocs.sys)
      ensures StartedAs(rocs.outcomes, first, ctl.numEvents, how, rocs.asked)
      ensures StartedLog(how, log, rocs.log, EventsOf(ctl))
      ensures ctl.rocsCtx.live <==> how != NotStarted
      ensures how == NotClosed ==> unchanged(ctl.rocsCtx)
      ensures rocs.OthersLive(old(rocs.sys.held.Keys), ctl.rocsCtx)
    {
      ghost var ids, middle, n := EventsOf(ctl), rocs.log, rocs.asked;
      how := NotClosed;
      if t.state.isOpen {
        ghost var j;
        var closed;
        closed, j := rocs.CtxClose(ctl.rocsCtx);
        how := if closed == Ok then NotStarted else NotClosed;
        assert closed != Ok ==> FailedAt(middle, rocs.log, Close, ids, j);
        StartingFails(rocs.outcomes, first, ctl.numEvents, n, how, rocs.asked);
      }
      t.state := Flags(false, false);
    }

    /** What stopping an event set leaves behind. */
    twostate predicate StoppedAs(how: Stopping, t: Thread, ctl: Control)
      reads t, ctl, rocs`sys
    {
      match how
      case NotRunning => unchanged(t) && unchanged(ctl) && rocs.sys == old(rocs.sys)
      case NotStopped => unchanged(t) && unchanged(ctl) && rocs.sys == old(rocs.sys)
      case Unclosed =>
        t.current == null && t.state == Flags(false, false) && ctl.rocsCtx == null && rocs.sys == old(rocs.sys)
      case Stopped =>
        && t.current == null && t.state == Flags(false, false) && ctl.rocsCtx == null
        && old(ctl.rocsCtx) != null && Steps(old(rocs.sys), Closed(old(ctl.rocsCtx)), rocs.sys)
    }

    /** Stops and closes the started event set of a thread. When stopping fails, it stays started;
        once stopped, the thread is idle even if closing fails. */
    method StopEvents(t: Thread, ctl: Control) returns (errno: Errno, ghost how: Stopping)
      requires Valid() && t in threads && ctl in controls
      requires t.state.isRunning ==> t.current == ctl
      modifies rocs, rocs.sys.held.Keys`live, t, ctl`rocsCtx, ctl.rocsCtx
      ensures Valid() && errno == (if how == Stopped then Ok else Misc) && old(rocs.history) <= rocs.history
      ensures if !old(t.state.isRunning) then how == NotRunning && rocs.asked == old(rocs.asked)
              else StopsAs(rocs.outcomes, old(rocs.asked), ctl.numEvents, how, rocs.asked)
      ensures errno in {Ok, Misc}
      ensures errno == Ok <==>
        && old(t.state.isRunning)
        && forall i :: old(rocs.asked) <= i < old(rocs.asked) + 2 * ctl.numEvents ==> rocs.outcomes(i)
      ensures if old(t.state.isRunning)
              && (forall i :: old(rocs.asked) <= i < old(rocs.asked) + ctl.numEvents ==> rocs.outcomes(i))
              then t.state == Flags(false, false) && t.current == null && ctl.rocsCtx == null
              else unchanged(t) && ctl.rocsCtx == old(ctl.rocsCtx)
      ensures how == NotRunning ==> unchanged(rocs) && (var c := old(ctl.rocsCtx); c != null ==> unchanged(c))
      ensures StoppedAs(how, t, ctl) && StopLog(how, old(rocs.log), rocs.log, EventsOf(ctl))
      ensures rocs.staleFrees == old(rocs.staleFrees) + if how == Stopped && old(PointerOf(ctl)) == Dead then 1 else 0
      ensures rocs.OthersLive(old(rocs.sys.held.Keys), if how == Stopped then old(ctl.rocsCtx) else null)
      ensures how == Stopped ==> (var c: Context := old(ctl.rocsCtx); !c.live)
      ensures how == NotStopped ==> (var c := old(ctl.rocsCtx); c != null && unchanged(c`counters))
    {
      assert IsSettled(t);
      if !t.state.isRunning {
        return Misc, NotRunning;
      }
      errno, how := StopAndClose(t, ctl);
      StopAnswers(rocs.outcomes, old(rocs.asked), ctl.numEvents, how, rocs.asked);
      assert IsSettled(t);
      OneSetChanged(ctl);
    }

    method StopAndClose(t: Thread, ctl: Control) returns (errno: Errno, ghost how: Stopping)
      requires rocs.Valid() && t.current == ctl && t.state == Flags(true, true) && IsMeasuring(ctl)
      modifies rocs, rocs.sys.held.Keys`live, t, ctl`rocsCtx, ctl.rocsCtx
      ensures rocs.Valid() && errno == (if how == Stopped then Ok else Misc) && old(rocs.history) <= rocs.history
      ensures how != NotRunning && (how == NotStopped ==> IsMeasuring(ctl))
      ensures StopsAs(rocs.outcomes, old(rocs.asked), ctl.numEvents, how, rocs.asked)
      ensures forall c :: c in old(rocs.sys.held) && c != old(ctl.rocsCtx) ==> c in rocs.sys.held
      ensures StoppedAs(how, t, ctl) && StopLog(how, old(rocs.log), rocs.log, EventsOf(ctl))
      ensures rocs.staleFrees == old(rocs.staleFrees) + if how == Stopped && old(PointerOf(ctl)) == Dead then 1 else 0
      ensures rocs.OthersLive(old(rocs.sys.held.Keys), if how == Stopped then old(ctl.rocsCtx) else null)
      ensures how == Stopped ==> (var c: Context := old(ctl.rocsCtx); !c.live)
      ensures how == NotStopped ==> (var c := old(ctl.rocsCtx); c != null && unchanged(c`counters))
    {
      ghost var k;
      errno, k := rocs.CtxStop(ctl.rocsCtx);
      if errno != Ok {
        return Misc, NotStopped;
      }
      t.state := t.state.(isRunning := false);
      errno, how := CloseStopped(t, ctl, old(rocs.log), old(rocs.asked));
    }

    /** Closes a stopped context; the thread is idle and the pointer cleared even if that fails. */
    method CloseStopped(t: Thread, ctl: Control, ghost log: seq<Call>, ghost first: nat)
      returns (errno: Errno, ghost how: Stopping)
      requires rocs.Valid() && ctl.rocsCtx != null && ctl.rocsCtx in rocs.sys.held
      requires ctl.rocsCtx.eventsId == ctl.eventsId && ctl.rocsCtx.numEvents == ctl.numEvents
      requires rocs.log == log + Calls(Stop, EventsOf(ctl))
      requires rocs.asked == first + ctl.numEvents && rocs.Succeed(first, ctl.numEvents)
      modifies rocs, rocs.sys.held.Keys`live, t, ctl`rocsCtx, ctl.rocsCtx
      ensures rocs.Valid() && old(rocs.history) <= rocs.history
      ensures how in {Unclosed, Stopped} && errno == if how == Stopped then Ok else Misc
      ensures StopsAs(rocs.outcomes, first, ctl.numEvents, how, rocs.asked)
      ensures t.state == Flags(false, false) && t.current == null && ctl.rocsCtx == null
      ensures rocs.sys == if how == Stopped then Next(old(rocs.sys), Closed(old(ctl.rocsCtx))) else old(rocs.sys)
      ensures StopLog(how, log, rocs.log, EventsOf(ctl))
      ensures how == Stopped ==> (var c: Context := old(ctl.rocsCtx); !c.live)
      ensures rocs.staleFrees == old(rocs.staleFrees) + if how == Stopped && old(PointerOf(ctl)) == Dead then 1 else 0
      ensures rocs.OthersLive(old(rocs.sys.held.Keys), if how == Stopped then old(ctl.rocsCtx) else null)
    {
      ghost var k;
      errno, k := rocs.CtxClose(ctl.rocsCtx);
      how := if errno == Ok then Stopped else Unclosed;
      t.state := Flags(false, false);
      t.current := null;
      ctl.rocsCtx := null;
      assert errno != Ok ==> FailedAt(old(rocs.log), rocs.log, Close, EventsOf(ctl), k);
    }

    /** Reads the started event set of a thread. */
    method ReadEvents(t: Thread, ctl: Control) returns (errno: Errno, counts: array?<int>)
      requires Valid() && t in threads && ctl in controls
      requires t.state.isRunning ==> t.current == ctl
      modifies rocs`log, rocs`asked, rocs`values, rocs`readings
      modifies (if !t.state.isRunning || ctl.rocsCtx == null then {} else {ctl.rocsCtx.counters})
      ensures Valid() && errno in {Ok, Misc} && (t.state.isRunning ==> IsMeasuring(ctl))
      ensures errno == Ok <==> t.state.isRunning && rocs.Succeed(old(rocs.asked), ctl.numEvents)
      ensures !t.state.isRunning ==> counts == null && unchanged(rocs)
      ensures t.state.isRunning ==>
        && rocs.asked == old(rocs.asked) + Tried(rocs.outcomes, old(rocs.asked), ctl.numEvents)
        && rocs.KnownEvents(ctl.eventsId, ctl.numEvents) && |old(rocs.values)| == |rocs.devices|
        && old(rocs.readings) <= rocs.readings
      ensures t.state.isRunning ==>
        var read := rocs.readings[|old(rocs.readings)|..];
        && |read| <= ctl.numEvents == ctl.rocsCtx.counters.Length
        && ctl.rocsCtx.counters[..] == read + old(ctl.rocsCtx.counters[..])[|read|..]
        && rocs.values == Stored(old(rocs.values), EventsOf(ctl)[..|read|], read)
        && if errno == Ok
           then |read| == ctl.numEvents && counts == ctl.rocsCtx.counters
             && rocs.log == old(rocs.log) + Calls(Read, EventsOf(ctl))
           else counts == null && FailedAt(old(rocs.log), rocs.log, Read, EventsOf(ctl), |read|)
    {
      assert IsSettled(t);
      if !t.state.isRunning {
        return Misc, null;
      }
      ghost var values;
      assert rocs.IsHeld(rocs.sys.held, ctl.rocsCtx);
      errno, counts, values := rocs.CtxRead(ctl.rocsCtx);
      assert rocs.readings[|old(rocs.readings)|..] == values;
      OthersKept();
    }

    /** Writing failed at event `k`, which has its value by then. */
    ghost predicate WriteFailedAt(k: nat, log: seq<Call>, before: seq<int>, ids: seq<nat>, values: seq<int>)
      requires |ids| <= |values| && forall i :: 0 <= i < |ids| ==> ids[i] < |before|
      reads rocs`log, rocs`values
    {
      FailedAt(log, rocs.log, Write, ids, k) && rocs.values == Stored(before, ids[..k + 1], values)
    }

    /** Writes the started event set of a thread. */
    method WriteEvents(t: Thread, ctl: Control, values: seq<int>) returns (errno: Errno)
      requires Valid() && t in threads && ctl in controls && |values| >= ctl.numEvents
      requires t.state.isRunning ==> t.current == ctl
      modifies rocs`log, rocs`asked, rocs`values
      ensures Valid() && errno in {Ok, Misc} && (t.state.isRunning ==> IsMeasuring(ctl))
      ensures errno == Ok <==> t.state.isRunning && rocs.Succeed(old(rocs.asked), ctl.numEvents)
      ensures !t.state.isRunning ==> unchanged(rocs)
      ensures t.state.isRunning ==>
        && rocs.asked == old(rocs.asked) + Tried(rocs.outcomes, old(rocs.asked), ctl.numEvents)
        && rocs.KnownEvents(ctl.eventsId, ctl.numEvents) && |old(rocs.values)| == |rocs.devices|
      ensures errno == Ok ==>
        && rocs.log == old(rocs.log) + Calls(Write, EventsOf(ctl))
        && rocs.values == Stored(old(rocs.values), EventsOf(ctl), values)
      ensures t.state.isRunning && errno != Ok ==>
        exists k: nat :: WriteFailedAt(k, old(rocs.log), old(rocs.values), EventsOf(ctl), values)
    {
      assert IsSettled(t);
      if !t.state.isRunning {
        return Misc;
      }
      ghost var k;
      errno, k := rocs.CtxWrite(ctl.rocsCtx, values);
      assert errno != Ok ==> WriteFailedAt(k, old(rocs.log), old(rocs.values), EventsOf(ctl), values);
      OthersKept();
    }

    /** Sets the counters of the started event set of a thread to zero. */
    method ResetEvents(t: Thread, ctl: Control) returns (errno: Errno)
      requires Valid() && t in threads && ctl in controls
      requires t.state.isRunning ==> t.current == ctl
      modifies rocs`values, (if !t.state.isRunning || ctl.rocsCtx == null then {} else {ctl.rocsCtx.counters})
      ensures Valid()
      ensures !t.state.isRunning ==> unchanged(rocs)
      ensures errno == if t.state.isRunning then Ok else Misc
      ensures errno == Ok ==> ctl.rocsCtx != null && ctl.rocsCtx.counters[..] == seq(ctl.numEvents, _ => 0)
    {
      assert IsSettled(t);
      if !t.state.isRunning {
        return Misc;
      }
      errno := rocs.CtxReset(ctl.rocsCtx);
      OthersKept();
    }

    /** Nothing the invariant depends on has changed. */
    twostate lemma OthersKept()
      requires old(Valid()) && rocs.Valid() && unchanged(this) && rocs.sys == old(rocs.sys)
      requires rocs.staleFrees == old(rocs.staleFrees)
      requires unchanged(threads) && unchanged(controls)
      requires forall c :: c in old(rocs.sys.held) ==> unchanged(c)
      requires forall c :: c in controls && c.eventsId != null ==> unchanged(c.eventsId)
      ensures Valid()
    {
      forall u | u in threads
        ensures IsSettled(u)
      {
        assert old(IsSettled(u));
      }
      SetsStaySound();
      forall c, d | c in controls && d in controls && c != d
        ensures AreApart(c, d)
      {
        assert old(AreApart(c, d));
      }
    }

    /** A new event set of a thread. */
    method InitControlState(ghost t: Thread) returns (ctl: Control)
      requires Valid() && t in threads
      modifies this`controls
      ensures Valid() && fresh(ctl) && ctl.owner == t && controls == old(controls) + {ctl}
      ensures ctl.eventsId == null && ctl.numEvents == 0 && ctl.rocsCtx == null
    {
      ctl := new Control(t);
      controls := controls + {ctl};
      forall u | u in threads
        ensures IsSettled(u)
      {
        assert old(IsSettled(u));
      }
      forall c | c in controls
        ensures IsSound(c)
      {
        assert c != ctl ==> old(IsSound(c));
      }
      forall c, d | c in controls && d in controls && c != d
        ensures AreApart(c, d)
      {
        assert c != ctl && d != ctl ==> old(AreApart(c, d));
        assert d == ctl ==> old(IsSound(c));
      }
    }

    /** Replaces the events of an event set, which a running thread may not do. The old array is
        freed. */
    method UpdateControlState(t: Thread, ctl: Control, events: seq<nat>) returns (errno: Errno)
      requires Valid() && t in threads && ctl in controls && ctl.owner == t
      requires forall i :: 0 <= i < |events| ==> events[i] < |rocs.devices|
      modifies rocs`asked, ctl`eventsId, ctl`numEvents, (if ctl.eventsId == null then {} else {ctl.eventsId})`live
      ensures Valid()
      ensures errno == NoMemory <==> !t.state.isRunning && !rocs.outcomes(old(rocs.asked))
      ensures rocs.asked == old(rocs.asked) + if t.state.isRunning then 0 else 1
      ensures errno == Ok ==> (var a := old(ctl.eventsId); a != null ==> !a.live)
      ensures errno == NoMemory ==> (var a := old(ctl.eventsId); a != null ==> unchanged(a))
      ensures t.state.isRunning ==>
        errno == Misc && unchanged(ctl) && (ctl.eventsId != null ==> unchanged(ctl.eventsId))
      ensures errno == Ok ==>
        ctl.numEvents == |events| && EventsOf(ctl) == events && ctl.eventsId != null && fresh(ctl.eventsId)
      ensures errno == NoMemory ==> ctl.eventsId == old(ctl.eventsId) && ctl.numEvents == 0
      ensures errno in {Ok, Misc, NoMemory} && (errno == Misc <==> t.state.isRunning)
    {
      if t.state.isRunning {
        return Misc;
      }
      assert IsSettled(t);
      var granted := rocs.Granted();
      if !granted {
        ctl.numEvents := 0;
        errno := NoMemory;
      } else {
        ReplaceEvents(ctl, events);
        errno := Ok;
      }
      forall u | u in threads
        ensures IsSettled(u)
      {
        assert old(IsSettled(u));
      }
      forall c | c in controls
        ensures IsSound(c)
      {
        assert old(IsSound(c));
        assert c != ctl ==> old(AreApart(c, ctl));
      }
      forall c, d | c in controls && d in controls && c != d
        ensures AreApart(c, d)
      {
        assert old(AreApart(c, d));
      }
    }

    method ReplaceEvents(ctl: Control, events: seq<nat>)
      modifies ctl`eventsId, ctl`numEvents, (if ctl.eventsId == null then {} else {ctl.eventsId})`live
      ensures ctl.eventsId != null && fresh(ctl.eventsId) && ctl.eventsId.live
      ensures ctl.eventsId.ids == events && ctl.numEvents == |events|
      ensures var a := old(ctl.eventsId); a != null ==> !a.live
    {
      var replacement := new IdArray(events);
      FreeArray(ctl.eventsId);
      ctl.eventsId := replacement;
      ctl.numEvents := |events|;
    }

    ghost method FreeArray(a: IdArray?)
      modifies (if a == null then {} else {a})`live
      ensures a != null ==> !a.live
    {
      if a != null {
        a.live := false;
      }
    }

    /** Frees the events of an event set, unless it still has a context. */
    method CleanupEventset(ctl: Control) returns (errno: Errno)
      requires Valid() && ctl in controls
      modifies ctl`eventsId, ctl`numEvents, (if ctl.eventsId == null then {} else {ctl.eventsId})`live
      ensures Valid()
      ensures if old(ctl.rocsCtx) != null
        then errno == Misc && unchanged(ctl) && (ctl.eventsId != null ==> unchanged(ctl.eventsId))
        else errno == Ok && ctl.eventsId == null && ctl.numEvents == 0
      ensures errno == Ok ==> (var a := old(ctl.eventsId); a != null ==> !a.live)
    {
      if ctl.rocsCtx != null {
        return Misc;
      }
      FreeArray(ctl.eventsId);
      ctl.eventsId := null;
      ctl.numEvents := 0;
      errno := Ok;
      forall u | u in threads
        ensures IsSettled(u)
      {
        assert old(IsSettled(u));
      }
      forall c | c in controls
        ensures IsSound(c)
      {
        assert old(IsSound(c));
        assert c != ctl ==> old(AreApart(c, ctl));
      }
      forall c, d | c in controls && d in controls && c != d
        ensures AreApart(c, d)
      {
        assert old(AreApart(c, d));
      }
    }

    /** Forgets what a thread has started; its context, if any, stays open. */
    method ShutdownThread(t: Thread)
      requires Valid() && t in threads
      modifies t
      ensures Valid() && t.state == Flags(false, false) && t.current == null
    {
      t.state := Flags(false, false);
      t.current := null;
      forall u | u in threads
        ensures IsSettled(u)
      {
        assert u != t ==> old(IsSettled(u));
      }
      forall c | c in controls
        ensures IsSound(c)
      {
        assert old(IsSound(c));
      }
    }
  }

  /** As long as nothing has been freed twice: while a thread is running, what its reads, writes,
      resets and stops reach is in order. The context of its event set is alive, open, running and
      accounted for, and it shares an array of event numbers with the event set that nobody has
      freed. */
  lemma RunningThreadIsSafe(component: Component, t: Thread)
    requires component.Valid() && component.rocs.staleFrees == 0
    requires t in component.threads && t.state.isRunning
    ensures t.state == Flags(true, true) && t.current != null && t.current.rocsCtx != null
    ensures var ctx: Context := t.current.rocsCtx;
      && ctx.live && ctx.state == Flags(true, true) && ctx in component.rocs.sys.held
      && ctx.eventsId == t.current.eventsId && ctx.numEvents == t.current.numEvents
      && (ctx.eventsId != null ==> ctx.eventsId.live)
  {
    assert component.IsSettled(t);
    assert component.IsSound(t.current);
    assert component.rocs.IsHeld(component.rocs.sys.held, t.current.rocsCtx);
  }

  /** Two running threads never measure the same device. */
  lemma RunningThreadsShareNoDevice(component: Component, t: Thread, u: Thread, i: nat, j: nat)
    requires component.Valid() && t in component.threads && u in component.threads && t != u
    requires t.state.isRunning && u.state.isRunning && t.current != null && u.current != null
    requires i < |Events(t.current.eventsId, t.current.numEvents)|
    requires j < |Events(u.current.eventsId, u.current.numEvents)|
    ensures var a := Events(t.current.eventsId, t.current.numEvents)[i];
      var b := Events(u.current.eventsId, u.current.numEvents)[j];
      && a < |component.rocs.devices| && b < |component.rocs.devices|
      && (component.rocs.devices[a].Unbound? || component.rocs.devices[a] != component.rocs.devices[b])
  {
    assert component.IsSettled(t) && component.IsSettled(u);
    var rocs := component.rocs;
    var c: Context, d: Context := t.current.rocsCtx, u.current.rocsCtx;
    assert component.AreApart(t.current, u.current);
    assert rocs.IsHeld(rocs.sys.held, c) && rocs.IsHeld(rocs.sys.held, d);
    RunsAreExclusive(rocs.history);
    assert rocs.sys.held[c] !! rocs.sys.held[d];
    var a, b := Events(c.eventsId, c.numEvents)[i], Events(d.eventsId, d.numEvents)[j];
    if rocs.devices[a].On? {
      assert rocs.devices[a].device in DevicesOf(rocs.devices, Events(c.eventsId, c.numEvents));
    }
    if rocs.devices[b].On? {
      assert rocs.devices[b].device in DevicesOf(rocs.devices, Events(d.eventsId, d.numEvents));
    }
  }
}
