/** Whole runs of requests on the component: every step is a step of the protocol. */
module PapiRuns {
  import opened Contexts
  import opened DeviceMask
  import opened Exclusivity
  import opened Options
  import opened PapiLayer
  import opened PapiProtocol

  /** A component with its threads and event sets, numbered; and what PAPI remembers of them: the
      event set each thread has started, and the thread of each event set. */
  datatype Session = Session(component: Component, threads: seq<Thread>, controls: seq<Control>,
                             running: seq<Option<nat>>, owners: seq<nat>)

  /** The view of a session. `repr` holds everything that requests may change. */
  ghost predicate Shows(s: Session, v: View, repr: set<object>)
    reads *
  {
    && s.component.Valid() && {s.component, s.component.rocs} <= repr
    && IsView(v) && |v.running| == |s.threads| && |v.owners| == |s.controls|
    && v.running == s.running && v.owners == s.owners
    && ShowsRocs(s.component.rocs, v, repr)
    && (forall i {:trigger ShowsThread(s, v, repr, i)} :: 0 <= i < |s.threads| ==> ShowsThread(s, v, repr, i))
    && (forall i {:trigger ShowsSet(s, v, repr, i)} :: 0 <= i < |s.controls| ==> ShowsSet(s, v, repr, i))
    && AllDifferent(s.threads) && AllDifferent(s.controls)
  }

  /** What the component of a session runs on. */
  ghost function EnvOf(s: Session): Env {
    Env(s.component.rocs.devices, s.component.rocs.outcomes)
  }

  ghost predicate AllDifferent<T>(s: seq<T>) {
    forall i, j {:trigger s[i], s[j]} :: 0 <= i < j < |s| ==> s[i] != s[j]
  }

  ghost predicate ShowsRocs(rocs: Rocs, v: View, repr: set<object>)
    reads rocs
  {
    && (forall c :: c in rocs.sys.held.Keys ==> c in repr)
    && v.mask == rocs.sys.mask && v.lost == rocs.sys.lost && v.stale == rocs.staleFrees && v.asked == rocs.asked
  }

  ghost predicate ShowsThread(s: Session, v: View, repr: set<object>, i: nat)
    requires i < |s.threads| == |v.running|
    reads s.component, s.threads[i]
  {
    && s.threads[i] in s.component.threads && s.threads[i] in repr
    && match v.running[i]
       case None => s.threads[i].current == null
       case Some(c) => c < |s.controls| && s.threads[i].current == s.controls[c]
  }

  ghost predicate ShowsSet(s: Session, v: View, repr: set<object>, i: nat)
    requires i < |s.controls| == |v.owners| == |v.events| == |v.pointers|
    reads s.component, s.component.rocs`sys, s.controls[i], s.controls[i].rocsCtx
  {
    && IsShown(s, s.controls[i], v, repr, i)
    && v.pointers[i] == s.component.PointerOf(s.controls[i])
    && PointsInto(s.component.rocs, s.controls[i].rocsCtx, repr)
  }

  ghost predicate IsShown(s: Session, ctl: Control, v: View, repr: set<object>, i: nat)
    requires i < |s.controls| == |v.owners| == |v.events| == |v.pointers|
    reads s.component, ctl`eventsId, ctl`numEvents
  {
    && ctl in s.component.controls && ctl in repr
    && v.owners[i] < |s.threads| && ctl.owner == s.threads[v.owners[i]]
    && v.events[i] == Events(ctl.eventsId, ctl.numEvents)
    && (ctl.eventsId != null ==> ctl.eventsId in repr)
  }

  ghost predicate PointsInto(rocs: Rocs, ctx: Context?, repr: set<object>)
    reads rocs`sys, ctx
  {
    ctx != null ==> ctx in repr && (ctx in rocs.sys.held ==> ctx.counters in repr)
  }

  ghost function Pointers(s: Session): (p: seq<Pointer>)
    reads *
    ensures |p| == |s.controls| && forall i :: 0 <= i < |p| ==> p[i] == s.component.PointerOf(s.controls[i])
  {
    seq(|s.controls|, i requires 0 <= i < |s.controls| reads * => s.component.PointerOf(s.controls[i]))
  }

  /** A thread is idle, or it has its event set open and running. */
  lemma ThreadState(s: Session, v: View, repr: set<object>, t: nat)
    requires Shows(s, v, repr) && t < |s.threads|
    ensures s.threads[t] in s.component.threads && s.threads[t] in repr
    ensures s.threads[t].state == if v.running[t].None? then Flags(false, false) else Flags(true, true)
  {
    assert ShowsThread(s, v, repr, t) && s.component.IsSettled(s.threads[t]);
  }

  /** What is still so of the view `v` after a request of thread `t` that concerns event set `c`. */
  ghost predicate OthersShown(s: Session, v: View, repr: set<object>, t: nat, c: nat)
    requires IsView(v) && |v.running| == |s.threads| && |v.owners| == |s.controls|
    reads *
  {
    && (forall i {:trigger ShowsThread(s, v, repr, i)} :: 0 <= i < |s.threads| && i != t ==> ShowsThread(s, v, repr, i))
    && (forall i {:trigger OtherShown(s, v, repr, c, i)} :: 0 <= i < |s.controls| ==> OtherShown(s, v, repr, c, i))
  }

  ghost predicate OtherShown(s: Session, v: View, repr: set<object>, c: nat, i: nat)
    requires i < |s.controls| == |v.owners| == |v.events| == |v.pointers|
    reads *
  {
    && IsShown(s, s.controls[i], v, repr, i)
    && (i != c ==>
        && PointsInto(s.component.rocs, s.controls[i].rocsCtx, repr)
        && if s.component.rocs.staleFrees == v.stale || v.pointers[i] != Alive
           then s.component.PointerOf(s.controls[i]) == v.pointers[i]
           else s.component.PointerOf(s.controls[i]) != Null)
  }

  /** What a start does to the view, but for the pointers of the other event sets. */
  ghost predicate StartShown(s: Session, v: View, t: nat, c: nat, how: Starting)
    requires IsView(v) && Owns(v, t, c) && c < |s.controls|
    reads *
  {
    var rocs, wanted := s.component.rocs, DevicesOf(s.component.rocs.devices, v.events[c]);
    && (if v.running[t].Some? then how == Busy && rocs.asked == v.asked
        else if IsTaken(EnvOf(s), v, c) then how == DeviceTaken && rocs.asked == v.asked
        else StartsAs(rocs.outcomes, v.asked, |v.events[c]|, how, rocs.asked))
    && s.component.PointerOf(s.controls[c]) == PointerFor(how, v.pointers[c])
    && rocs.sys.mask == (if how in {Busy, DeviceTaken, NotStarted} then v.mask else v.mask + wanted)
    && (if how in {NoContext, NoCounters, EventFailed} then rocs.sys.lost == v.lost + wanted
        else if how == DeviceTaken then v.lost <= rocs.sys.lost else rocs.sys.lost == v.lost)
    && rocs.staleFrees == v.stale + if how == DeviceTaken && v.pointers[c] == Dead then 1 else 0
  }

  method StartOne(s: Session, thread: Thread, ctl: Control, t: nat, c: nat, ghost v: View, ghost repr: set<object>)
    returns (errno: Errno, ghost how: Starting)
    requires Shows(s, v, repr) && Owns(v, t, c) && thread == s.threads[t] && ctl == s.controls[c]
    modifies s.component.rocs, s.component.rocs.sys.held.Keys`live, thread, ctl`rocsCtx
    modifies (if ctl.rocsCtx == null then {} else {ctl.rocsCtx})`live
    ensures s.component.Valid() && errno == StartErrno(how) && StartShown(s, v, t, c, how)
    ensures thread.current == if how == Started then ctl else old(thread.current)
    ensures s.component.PointerAfter(how, ctl)
    ensures s.component.rocs.sys.held.Keys
         <= old(s.component.rocs.sys.held.Keys) + if how in {NotClosed, Started} then {ctl.rocsCtx} else {}
    ensures s.component.rocs.OthersLive(old(s.component.rocs.sys.held.Keys), old(ctl.rocsCtx))
    ensures forall i {:trigger ShowsThread(s, v, repr, i)} ::
      0 <= i < |s.threads| && i != t ==> ShowsThread(s, v, repr, i)
  {
    ThreadState(s, v, repr, t);
    assert ShowsSet(s, v, repr, c) && ShowsThread(s, v, repr, t);
    assert s.component.IsSound(ctl) && |v.events[c]| == ctl.numEvents;
    errno, how := s.component.StartEvents(thread, ctl);
    StartMovesDevices(how, old(s.component.rocs.sys), old(ctl.rocsCtx), ctl.rocsCtx,
                      DevicesOf(s.component.rocs.devices, v.events[c]), s.component.rocs.sys);
    forall i | 0 <= i < |s.threads| && i != t
      ensures ShowsThread(s, v, repr, i)
    {
      assert old(ShowsThread(s, v, repr, i));
    }
  }

  /** Starts an event set; the other ones are as before. */
  method Start(s: Session, thread: Thread, ctl: Control, t: nat, c: nat, ghost v: View, ghost repr: set<object>)
    returns (errno: Errno, ghost how: Starting)
    requires Shows(s, v, repr) && Owns(v, t, c) && thread == s.threads[t] && ctl == s.controls[c]
    modifies s.component.rocs, s.component.rocs.sys.held.Keys`live, thread, ctl`rocsCtx
    modifies (if ctl.rocsCtx == null then {} else {ctl.rocsCtx})`live
    ensures s.component.Valid() && errno == StartErrno(how) && StartShown(s, v, t, c, how)
    ensures OthersShown(s, v, repr, t, c)
    ensures thread in s.component.threads && thread in repr
    ensures if how == Started then thread.current == ctl else ShowsThread(s, v, repr, t)
    ensures s.component.PointerAfter(how, ctl) && old(PointsInto(s.component.rocs, ctl.rocsCtx, repr))
    ensures s.component.rocs.sys.held.Keys
         <= old(s.component.rocs.sys.held.Keys) + if how in {NotClosed, Started} then {ctl.rocsCtx} else {}
  {
    assert ShowsSet(s, v, repr, c) && ShowsThread(s, v, repr, t);
    errno, how := StartOne(s, thread, ctl, t, c, v, repr);
    forall i | 0 <= i < |s.controls|
      ensures OtherShown(s, v, repr, c, i)
    {
      assert old(ShowsSet(s, v, repr, i));
      if i != c {
        assert old(s.component.AreApart(ctl, s.controls[i]));
      }
    }
  }

  /** A view with the pointers, devices and frees that are seen now. */
  ghost function Seen(s: Session, v: View, running: seq<Option<nat>>): View
    reads *
  {
    var rocs := s.component.rocs;
    v.(running := running, pointers := Pointers(s), mask := rocs.sys.mask, lost := rocs.sys.lost,
       stale := rocs.staleFrees, asked := rocs.asked)
  }

  /** A session is shown again after a request of thread `t` that concerns event set `c`. */
  lemma ShowsAgain(s: Session, s': Session, v: View, w: View, repr: set<object>, repr': set<object>, t: nat, c: nat)
    requires s.component.Valid() && {s.component, s.component.rocs} <= repr <= repr'
    requires IsView(v) && |v.running| == |s.threads| && |v.owners| == |s.controls| && Owns(v, t, c)
    requires v.running == s.running && v.owners == s.owners && AllDifferent(s.threads) && AllDifferent(s.controls)
    requires s' == s.(running := s'.running) && |s'.running| == |s.running|
    requires s'.running == s.running[t := s'.running[t]] && w == Seen(s, v, s'.running)
    requires OthersShown(s, v, repr, t, c) && ShowsThread(s', w, repr', t)
    requires s.component.rocs.sys.held.Keys <= repr' && PointsInto(s.component.rocs, s.controls[c].rocsCtx, repr')
    ensures Shows(s', w, repr') && OthersPoint(v, c, w)
  {
    forall i | 0 <= i < |s.threads|
      ensures ShowsThread(s', w, repr', i)
    {
      assert i != t ==> ShowsThread(s, v, repr, i);
    }
    forall i | 0 <= i < |s.controls|
      ensures ShowsSet(s', w, repr', i)
      ensures i != c ==>
        if w.stale == v.stale || v.pointers[i] != Alive then w.pointers[i] == v.pointers[i] else w.pointers[i] != Null
    {
      assert OtherShown(s, v, repr, c, i);
    }
  }

  method DoStart(s: Session, t: nat, c: nat, ghost v: View, ghost repr: set<object>)
    returns (s': Session, errno: Errno, ghost how: Starting, ghost w: View, ghost repr': set<object>)
    requires Shows(s, v, repr) && Owns(v, t, c)
    modifies repr
    ensures Shows(s', w, repr') && repr <= repr' && fresh(repr' - repr) && s'.component == s.component
    ensures errno == StartErrno(how) && AfterStart(EnvOf(s), v, t, c, how, w)
  {
    assert ShowsSet(s, v, repr, c) && ShowsThread(s, v, repr, t);
    var ctl := s.controls[c];
    errno, how := Start(s, s.threads[t], ctl, t, c, v, repr);
    s' := if errno == Ok then s.(running := s.running[t := Some(c)]) else s;
    w := Seen(s, v, s'.running);
    repr' := repr;
    if ctl.rocsCtx != null {
      repr' := if how in {NotClosed, Started} then repr + {ctl.rocsCtx, ctl.rocsCtx.counters} else repr + {ctl.rocsCtx};
    }
    ShowsAgain(s, s', v, w, repr, repr', t, c);
  }

  /** What a stop does to the view, but for the pointers of the other event sets. */
  ghost predicate StopShown(s: Session, v: View, t: nat, c: nat, how: Stopping)
    requires IsView(v) && Owns(v, t, c)
    reads s.component.rocs
  {
    var rocs := s.component.rocs;
    && (if v.running[t].None? then how == NotRunning && rocs.asked == v.asked
        else StopsAs(rocs.outcomes, v.asked, |v.events[c]|, how, rocs.asked))
    && rocs.sys.lost == v.lost
    && rocs.sys.mask == (if how == Stopped then v.mask - DevicesOf(rocs.devices, v.events[c]) else v.mask)
    && rocs.staleFrees == v.stale + if how == Stopped && v.pointers[c] == Dead then 1 else 0
  }

  method StopOne(s: Session, thread: Thread, ctl: Control, t: nat, c: nat, ghost v: View, ghost repr: set<object>)
    returns (errno: Errno, ghost how: Stopping)
    requires Shows(s, v, repr) && Owns(v, t, c) && v.running[t] in {None, Some(c)}
    requires thread == s.threads[t] && ctl == s.controls[c]
    modifies s.component.rocs, s.component.rocs.sys.held.Keys`live, thread, ctl`rocsCtx, ctl.rocsCtx
    ensures s.component.Valid() && errno == (if how == Stopped then Ok else Misc) && StopShown(s, v, t, c, how)
    ensures how in {NotRunning, NotStopped} ==>
      && ctl.rocsCtx == old(ctl.rocsCtx) && thread.current == old(thread.current)
      && s.component.PointerOf(ctl) == v.pointers[c] && s.component.rocs.sys == old(s.component.rocs.sys)
      && (ctl.rocsCtx != null ==> ctl.rocsCtx.counters == old(ctl.rocsCtx.counters))
    ensures how in {Unclosed, Stopped} ==> thread.current == null && ctl.rocsCtx == null
    ensures thread.state.isRunning <==> how == NotStopped
    ensures s.component.rocs.sys.held.Keys <= old(s.component.rocs.sys.held.Keys)
    ensures s.component.rocs.OthersLive(old(s.component.rocs.sys.held.Keys),
                                        if how == Stopped then old(ctl.rocsCtx) else null)
  {
    ThreadState(s, v, repr, t);
    assert ShowsSet(s, v, repr, c) && ShowsThread(s, v, repr, t);
    if v.running[t].Some? {
      HeldByStarted(s, v, repr, t);
    }
    assert s.component.IsSound(ctl) && |v.events[c]| == ctl.numEvents;
    errno, how := s.component.StopEvents(thread, ctl);
    ThreadStays(s, thread);
  }

  /** Stops an event set; the other ones are as before. */
  method Stop(s: Session, thread: Thread, ctl: Control, t: nat, c: nat, ghost v: View, ghost repr: set<object>)
    returns (errno: Errno, ghost how: Stopping)
    requires Shows(s, v, repr) && Owns(v, t, c) && v.running[t] in {None, Some(c)}
    requires thread == s.threads[t] && ctl == s.controls[c]
    modifies s.component.rocs, s.component.rocs.sys.held.Keys`live, thread, ctl`rocsCtx, ctl.rocsCtx
    ensures s.component.Valid() && errno == (if how == Stopped then Ok else Misc) && StopShown(s, v, t, c, how)
    ensures OthersShown(s, v, repr, t, c)
    ensures how in {NotRunning, NotStopped} ==>
      && ShowsThread(s, v, repr, t) && s.component.PointerOf(ctl) == v.pointers[c]
      && PointsInto(s.component.rocs, ctl.rocsCtx, repr)
    ensures how in {Unclosed, Stopped} ==>
      thread.current == null && ctl.rocsCtx == null && thread in s.component.threads && thread in repr
    ensures thread.state.isRunning <==> how == NotStopped
    ensures s.component.rocs.sys.held.Keys <= old(s.component.rocs.sys.held.Keys)
  {
    assert ShowsSet(s, v, repr, c) && ShowsThread(s, v, repr, t);
    errno, how := StopOne(s, thread, ctl, t, c, v, repr);
    forall i | 0 <= i < |s.threads| && i != t
      ensures ShowsThread(s, v, repr, i)
    {
      assert old(ShowsThread(s, v, repr, i));
    }
    forall i | 0 <= i < |s.controls|
      ensures OtherShown(s, v, repr, c, i)
    {
      assert old(ShowsSet(s, v, repr, i));
      if i != c {
        assert old(s.component.AreApart(ctl, s.controls[i]));
      }
    }
  }

  lemma ThreadStays(s: Session, thread: Thread)
    requires s.component.Valid() && thread in s.component.threads
    ensures thread.state.isRunning <==> thread.current != null
  {
    assert s.component.IsSettled(thread);
  }

  method DoStop(s: Session, t: nat, c: nat, ghost v: View, ghost repr: set<object>)
    returns (s': Session, errno: Errno, ghost how: Stopping, ghost w: View)
    requires Shows(s, v, repr) && Owns(v, t, c) && v.running[t] in {None, Some(c)}
    modifies repr
    ensures Shows(s', w, repr) && s'.component == s.component
    ensures errno == (if how == Stopped then Ok else Misc) && AfterStop(EnvOf(s), v, t, c, how, w)
  {
    assert ShowsSet(s, v, repr, c) && ShowsThread(s, v, repr, t);
    var ctl := s.controls[c];
    errno, how := Stop(s, s.threads[t], ctl, t, c, v, repr);
    s' := if s.threads[t].state.isRunning then s else s.(running := s.running[t := None]);
    w := Seen(s, v, s'.running);
    ShowsAgain(s, s', v, w, repr, repr, t, c);
  }

  /** The context of a started event set holds the devices of its events, which are acquired. */
  lemma HeldByStarted(s: Session, v: View, repr: set<object>, t: nat)
    requires Shows(s, v, repr) && t < |s.threads| && v.running[t].Some?
    ensures var c, rocs := v.running[t].value, s.component.rocs;
      && c < |s.controls| && s.controls[c].rocsCtx != null && s.controls[c].rocsCtx in rocs.sys.held
      && rocs.sys.held[s.controls[c].rocsCtx] == DevicesOf(rocs.devices, v.events[c]) <= rocs.sys.mask
      && s.controls[c].rocsCtx.counters in repr
  {
    assert ShowsThread(s, v, repr, t) && s.component.IsSettled(s.threads[t]);
    var c, rocs := v.running[t].value, s.component.rocs;
    assert ShowsSet(s, v, repr, c) && rocs.IsHeld(rocs.sys.held, s.controls[c].rocsCtx);
    RunsAreExclusive(rocs.history);
    UnionHas(rocs.sys.held, s.controls[c].rocsCtx);
  }

  method DoNewThread(s: Session, ghost v: View, ghost repr: set<object>)
    returns (s': Session, ghost w: View, ghost repr': set<object>)
    requires Shows(s, v, repr)
    modifies repr
    ensures Shows(s', w, repr') && repr <= repr' && fresh(repr' - repr) && s'.component == s.component
    ensures w == v.(running := v.running + [None])
  {
    var t := s.component.InitThread();
    s' := s.(threads := s.threads + [t], running := s.running + [None]);
    w, repr' := v.(running := v.running + [None]), repr + {t};
    forall i | 0 <= i < |s'.threads|
      ensures ShowsThread(s', w, repr', i)
    {
      assert i < |s.threads| ==> old(ShowsThread(s, v, repr, i));
    }
    forall i | 0 <= i < |s'.controls|
      ensures ShowsSet(s', w, repr', i)
    {
      assert old(ShowsSet(s, v, repr, i));
    }
  }

  method DoEndThread(s: Session, t: nat, ghost v: View, ghost repr: set<object>) returns (s': Session, ghost w: View)
    requires Shows(s, v, repr) && t < |v.running|
    modifies repr
    ensures Shows(s', w, repr) && s'.component == s.component
    ensures w == v.(running := v.running[t := None])
  {
    ThreadState(s, v, repr, t);
    s.component.ShutdownThread(s.threads[t]);
    s' := s.(running := s.running[t := None]);
    w := v.(running := v.running[t := None]);
    forall i | 0 <= i < |s'.threads|
      ensures ShowsThread(s', w, repr, i)
    {
      assert old(ShowsThread(s, v, repr, i));
    }
    forall i | 0 <= i < |s'.controls|
      ensures ShowsSet(s', w, repr, i)
    {
      assert old(ShowsSet(s, v, repr, i));
    }
  }

  method DoNewSet(s: Session, t: nat, ghost v: View, ghost repr: set<object>)
    returns (s': Session, ghost w: View, ghost repr': set<object>)
    requires Shows(s, v, repr) && t < |v.running|
    modifies repr
    ensures Shows(s', w, repr') && repr <= repr' && fresh(repr' - repr) && s'.component == s.component
    ensures w == v.(owners := v.owners + [t], events := v.events + [[]], pointers := v.pointers + [Null])
  {
    ThreadState(s, v, repr, t);
    var ctl := s.component.InitControlState(s.threads[t]);
    s' := s.(controls := s.controls + [ctl], owners := s.owners + [t]);
    w := v.(owners := v.owners + [t], events := v.events + [[]], pointers := v.pointers + [Null]);
    repr' := repr + {ctl};
    forall i | 0 <= i < |s'.threads|
      ensures ShowsThread(s', w, repr', i)
    {
      assert old(ShowsThread(s, v, repr, i));
    }
    forall i | 0 <= i < |s'.controls|
      ensures ShowsSet(s', w, repr', i)
    {
      assert i < |s.controls| ==> old(ShowsSet(s, v, repr, i));
    }
  }

  method DoSetEvents(s: Session, t: nat, c: nat, ids: seq<nat>, ghost v: View, ghost repr: set<object>)
    returns (errno: Errno, ghost w: View, ghost repr': set<object>)
    requires Shows(s, v, repr) && Owns(v, t, c)
    requires forall i :: 0 <= i < |ids| ==> ids[i] < |s.component.rocs.devices|
    modifies repr
    ensures Shows(s, w, repr') && repr <= repr' && fresh(repr' - repr)
    ensures errno == if v.running[t].Some? then Misc else if s.component.rocs.outcomes(v.asked) then Ok else NoMemory
    ensures w == v.(events := v.events[c := EventsAfter(errno, ids, v.events[c])],
                    asked := v.asked + if v.running[t].Some? then 0 else 1)
  {
    ThreadState(s, v, repr, t);
    assert ShowsSet(s, v, repr, c);
    var ctl := s.controls[c];
    errno := s.component.UpdateControlState(s.threads[t], ctl, ids);
    w := v.(events := v.events[c := s.component.EventsOf(ctl)], asked := s.component.rocs.asked);
    repr' := repr;
    if ctl.eventsId != null {
      repr' := repr + {ctl.eventsId};
    }
    forall i | 0 <= i < |s.threads|
      ensures ShowsThread(s, w, repr', i)
    {
      assert old(ShowsThread(s, v, repr, i));
    }
    forall i | 0 <= i < |s.controls|
      ensures ShowsSet(s, w, repr', i)
    {
      assert old(ShowsSet(s, v, repr, i));
    }
  }

  method DoCleanUp(s: Session, c: nat, ghost v: View, ghost repr: set<object>) returns (errno: Errno, ghost w: View)
    requires Shows(s, v, repr) && c < |v.owners|
    modifies repr
    ensures Shows(s, w, repr)
    ensures errno == if v.pointers[c] == Null then Ok else Misc
    ensures w == v.(events := v.events[c := if v.pointers[c] == Null then [] else v.events[c]])
  {
    assert ShowsSet(s, v, repr, c);
    var ctl := s.controls[c];
    errno := s.component.CleanupEventset(ctl);
    w := v.(events := v.events[c := s.component.EventsOf(ctl)]);
    forall i | 0 <= i < |s.threads|
      ensures ShowsThread(s, w, repr, i)
    {
      assert old(ShowsThread(s, v, repr, i));
    }
    forall i | 0 <= i < |s.controls|
      ensures ShowsSet(s, w, repr, i)
    {
      assert old(ShowsSet(s, v, repr, i));
    }
  }

  method DoRead(s: Session, t: nat, c: nat, ghost v: View, ghost repr: set<object>)
    returns (errno: Errno, ghost w: View)
    requires Shows(s, v, repr) && Owns(v, t, c) && v.running[t] in {None, Some(c)}
    modifies repr
    ensures Shows(s, w, repr) && AfterAccess(EnvOf(s), v, t, c, errno, w)
  {
    ThreadState(s, v, repr, t);
    assert ShowsThread(s, v, repr, t) && ShowsSet(s, v, repr, c);
    if v.running[t].Some? {
      HeldByStarted(s, v, repr, t);
    }
    var counts;
    errno, counts := s.component.ReadEvents(s.threads[t], s.controls[c]);
    w := v.(asked := s.component.rocs.asked);
    forall i | 0 <= i < |s.threads|
      ensures ShowsThread(s, w, repr, i)
    {
      assert old(ShowsThread(s, v, repr, i));
    }
    forall i | 0 <= i < |s.controls|
      ensures ShowsSet(s, w, repr, i)
    {
      assert old(ShowsSet(s, v, repr, i));
    }
  }

  method DoWrite(s: Session, t: nat, c: nat, values: seq<int>, ghost v: View, ghost repr: set<object>)
    returns (errno: Errno, ghost w: View)
    requires Shows(s, v, repr) && Owns(v, t, c) && v.running[t] in {None, Some(c)} && |values| >= |v.events[c]|
    modifies repr
    ensures Shows(s, w, repr) && AfterAccess(EnvOf(s), v, t, c, errno, w)
  {
    ThreadState(s, v, repr, t);
    assert ShowsThread(s, v, repr, t) && ShowsSet(s, v, repr, c);
    assert s.component.IsSound(s.controls[c]);
    errno := s.component.WriteEvents(s.threads[t], s.controls[c], values);
    w := v.(asked := s.component.rocs.asked);
    forall i | 0 <= i < |s.threads|
      ensures ShowsThread(s, w, repr, i)
    {
      assert old(ShowsThread(s, v, repr, i));
    }
    forall i | 0 <= i < |s.controls|
      ensures ShowsSet(s, w, repr, i)
    {
      assert old(ShowsSet(s, v, repr, i));
    }
  }

  method DoReset(s: Session, t: nat, c: nat, ghost v: View, ghost repr: set<object>) returns (errno: Errno)
    requires Shows(s, v, repr) && Owns(v, t, c) && v.running[t] in {None, Some(c)}
    modifies repr
    ensures Shows(s, v, repr) && errno == if v.running[t].None? then Misc else Ok
  {
    ThreadState(s, v, repr, t);
    assert ShowsThread(s, v, repr, t) && ShowsSet(s, v, repr, c);
    if v.running[t].Some? {
      HeldByStarted(s, v, repr, t);
    }
    errno := s.component.ResetEvents(s.threads[t], s.controls[c]);
    forall i | 0 <= i < |s.threads|
      ensures ShowsThread(s, v, repr, i)
    {
      assert old(ShowsThread(s, v, repr, i));
    }
    forall i | 0 <= i < |s.controls|
      ensures ShowsSet(s, v, repr, i)
    {
      assert old(ShowsSet(s, v, repr, i));
    }
  }

  predicate OwnsSet(s: Session, t: nat, c: nat) {
    t < |s.running| && c < |s.owners| && s.owners[c] == t
  }

  predicate UsesSet(s: Session, t: nat, c: nat) {
    OwnsSet(s, t, c) && s.running[t] in {None, Some(c)}
  }

  /** What PAPI passes on. */
  predicate Passes(s: Session, r: Request)
    requires |s.controls| == |s.owners|
    reads s.controls
  {
    match r
    case NewThread => true
    case EndThread(t) => t < |s.running|
    case NewSet(t) => t < |s.running|
    case SetEvents(t, c, ids) =>
      OwnsSet(s, t, c) && forall i :: 0 <= i < |ids| ==> ids[i] < |s.component.rocs.devices|
    case StartSet(t, c) => OwnsSet(s, t, c)
    case StopSet(t, c) => UsesSet(s, t, c)
    case ReadSet(t, c) => UsesSet(s, t, c)
    case WriteSet(t, c, values) => UsesSet(s, t, c) && |values| >= s.controls[c].numEvents
    case ResetSet(t, c) => UsesSet(s, t, c)
    case CleanUp(c) => c < |s.owners|
  }

  lemma PassesIfPassed(s: Session, v: View, repr: set<object>, r: Request)
    requires Shows(s, v, repr)
    ensures Passes(s, r) <==> Passed(EnvOf(s), v, r)
  {
    if r.WriteSet? && r.c < |s.controls| {
      assert ShowsSet(s, v, repr, r.c) && s.component.IsSound(s.controls[r.c]);
    }
  }

  lemma LostIsAcquired(s: Session, v: View, repr: set<object>)
    requires Shows(s, v, repr)
    ensures v.lost <= v.mask
  {
    RunsAreExclusive(s.component.rocs.history);
  }

  /** One request, answered and shown as the protocol says. */
  method Do(s: Session, r: Request, ghost v: View, ghost repr: set<object>)
    returns (s': Session, errno: Option<Errno>, ghost step: Step, ghost w: View, ghost repr': set<object>)
    requires Shows(s, v, repr)
    modifies repr
    ensures Shows(s', w, repr') && repr <= repr' && fresh(repr' - repr) && s'.component == s.component
    ensures step.request == r && step.errno == errno && Follows(EnvOf(s), v, step, w)
  {
    PassesIfPassed(s, v, repr, r);
    s', w, repr' := s, v, repr;
    ghost var start, stop := Busy, NotRunning;
    if !Passes(s, r) {
      errno := None;
    } else {
      errno := Some(Ok);
      var answer := Ok;
      match r {
        case NewThread =>
          s', w, repr' := DoNewThread(s, v, repr);
        case EndThread(t) =>
          s', w := DoEndThread(s, t, v, repr);
        case NewSet(t) =>
          s', w, repr' := DoNewSet(s, t, v, repr);
        case SetEvents(t, c, ids) =>
          answer, w, repr' := DoSetEvents(s, t, c, ids, v, repr);
        case StartSet(t, c) =>
          s', answer, start, w, repr' := DoStart(s, t, c, v, repr);
        case StopSet(t, c) =>
          s', answer, stop, w := DoStop(s, t, c, v, repr);
        case ReadSet(t, c) =>
          answer, w := DoRead(s, t, c, v, repr);
        case WriteSet(t, c, values) =>
          answer, w := DoWrite(s, t, c, values, v, repr);
        case ResetSet(t, c) =>
          answer := DoReset(s, t, c, v, repr);
        case CleanUp(c) =>
          answer, w := DoCleanUp(s, c, v, repr);
      }
      errno := Some(answer);
    }
    step := Step(r, errno, start, stop);
    LostIsAcquired(s', w, repr');
  }

  /** Any requests of any threads, on a new component. */
  method Run(devices: seq<Placement>, outcomes: nat -> bool, requests: seq<Request>)
    returns (session: Session, answers: seq<Option<Errno>>,
             ghost views: seq<View>, ghost steps: seq<Step>, ghost repr: set<object>)
    ensures IsRun(Env(devices, outcomes), views, steps) && |steps| == |requests| == |answers|
    ensures forall i :: 0 <= i < |steps| ==> steps[i].request == requests[i] && steps[i].errno == answers[i]
    ensures Shows(session, views[|steps|], repr) && EnvOf(session) == Env(devices, outcomes)
  {
    var component := new Component(devices, outcomes);
    session := Session(component, [], [], [], []);
    answers := [];
    ghost var view := Beginning();
    views, steps, repr := [view], [], {component, component.rocs};
    for i := 0 to |requests|
      invariant |steps| == |answers| == i && IsRun(Env(devices, outcomes), views, steps) && view == views[i]
      invariant forall j :: 0 <= j < i ==> steps[j].request == requests[j] && steps[j].errno == answers[j]
      invariant Shows(session, view, repr) && fresh(repr) && EnvOf(session) == Env(devices, outcomes)
    {
      ghost var step, w;
      var errno;
      session, errno, step, w, repr := Do(session, requests[i], view, repr);
      RunOneMore(Env(devices, outcomes), views, steps, step, w);
      view, views, steps := w, views + [w], steps + [step];
      answers := answers + [errno];
    }
  }

  /** What a thread reaches while it runs, at the end of any run in which nothing was freed twice. */
  lemma RunningIsSafeAfterRuns(env: Env, views: seq<View>, steps: seq<Step>,
                               s: Session, repr: set<object>, t: nat)
    requires IsRun(env, views, steps) && Shows(s, views[|steps|], repr)
    requires forall i :: 0 <= i < |steps| ==> !FreesTwiceAt(env, views, steps, i)
    requires t < |s.threads| && views[|steps|].running[t].Some?
    ensures s.threads[t].state == Flags(true, true) && s.threads[t].current != null
    ensures var ctl := s.threads[t].current;
      && views[|steps|].running[t].value < |s.controls| && ctl == s.controls[views[|steps|].running[t].value]
      && ctl.rocsCtx != null
      && ctl.rocsCtx.live && ctl.rocsCtx.state == Flags(true, true) && ctl.rocsCtx in s.component.rocs.sys.held
      && ctl.rocsCtx.eventsId == ctl.eventsId && (ctl.eventsId != null ==> ctl.eventsId.live)
  {
    NothingFreedTwice(env, views, steps, |steps|);
    ThreadState(s, views[|steps|], repr, t);
    assert ShowsThread(s, views[|steps|], repr, t);
    RunningThreadIsSafe(s.component, s.threads[t]);
  }

  /** An event set whose only event fails to open at the first attempt: the second attempt is
      refused and frees the context again, and the event set cannot be cleaned up. */
  method StuckEventSet() returns (answers: seq<Option<Errno>>, ghost stale: nat)
    ensures answers == [Some(Ok), Some(Ok), Some(Ok), Some(Misc), Some(Conflict), Some(Misc)] && stale == 1
  {
    var outcomes := k => k != 3;
    var requests := [NewThread, NewSet(0), SetEvents(0, 0, [0]), StartSet(0, 0), StartSet(0, 0), CleanUp(0)];
    var session;
    ghost var views, steps, repr;
    session, answers, views, steps, repr := Run([On(0)], outcomes, requests);
    SetThatFails(Env([On(0)], outcomes), views, steps);
    stale := views[6].stale;
  }

  /** An event set that starts and stops, but whose event fails to close: the stop says so, and the
      event set cannot be started again. */
  method UnclosedEventSet() returns (answers: seq<Option<Errno>>)
    ensures answers == [Some(Ok), Some(Ok), Some(Ok), Some(Ok), Some(Misc), Some(Conflict)]
  {
    var outcomes := k => k != 6;
    var requests := [NewThread, NewSet(0), SetEvents(0, 0, [0]), StartSet(0, 0), StopSet(0, 0), StartSet(0, 0)];
    var session;
    ghost var views, steps, repr;
    session, answers, views, steps, repr := Run([On(0)], outcomes, requests);
    SetThatIsNotClosed(Env([On(0)], outcomes), views, steps);
  }
}
