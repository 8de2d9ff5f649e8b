/** Where the acquired devices are over whole runs of requests: with event sets that threads have
    started, or with contexts that no request reaches any more. */
module PapiDevices {
  import opened Contexts
  import opened DeviceMask
  import opened Options
  import opened PapiLayer
  import opened PapiProtocol

  /** The devices of the event set that thread `t` has started. */
  ghost function DevicesOfThread(env: Env, v: View, t: nat): iset<Device>
    requires IsView(v) && RunningIsOwned(v) && t < |v.running|
  {
    if v.running[t].None? then iset{} else DevicesOf(env.devices, v.events[v.running[t].value])
  }

  ghost predicate Uses(env: Env, v: View, t: nat, d: Device)
    requires IsView(v) && RunningIsOwned(v)
  {
    t < |v.running| && d in DevicesOfThread(env, v, t)
  }

  ghost predicate IsInUse(env: Env, v: View, d: Device)
    requires IsView(v) && RunningIsOwned(v)
  {
    exists t: nat :: Uses(env, v, t, d)
  }

  /** The devices of all started event sets. */
  ghost function InUse(env: Env, v: View): iset<Device>
    requires IsView(v) && RunningIsOwned(v)
  {
    iset d: Device | IsInUse(env, v, d)
  }

  /** The acquired devices that no running thread uses. */
  ghost function Unused(env: Env, v: View): iset<Device>
    requires IsView(v) && RunningIsOwned(v)
  {
    v.mask - InUse(env, v)
  }

  /** The devices of started event sets are acquired, no two threads share one, and the sets have
      their contexts. */
  ghost predicate IsAccounted(env: Env, v: View) {
    && IsView(v) && RunningIsOwned(v) && InUse(env, v) <= v.mask
    && (forall t: nat {:trigger UsesItsOwn(env, v, t)} :: UsesItsOwn(env, v, t))
    && (forall t :: 0 <= t < |v.running| && v.running[t].Some? ==> v.pointers[v.running[t].value] != Null)
  }

  /** What a step leaves acquired although no running thread uses it: the devices of an event set
      that failed to open, that did not start and was not closed either, that was stopped and not
      closed, or whose thread ended while it was running. */
  ghost function Abandoned(env: Env, v: View, s: Step): iset<Device>
    requires IsView(v) && RunningIsOwned(v)
  {
    if !Passed(env, v, s.request) then iset{}
    else match s.request
      case StartSet(t, c) =>
        if s.start in {NoContext, NoCounters, EventFailed, NotClosed} then DevicesOf(env.devices, v.events[c])
        else iset{}
      case StopSet(t, c) => if s.stop == Unclosed then DevicesOf(env.devices, v.events[c]) else iset{}
      case EndThread(t) => DevicesOfThread(env, v, t)
      case _ => iset{}
  }

  /** The thread uses in `w` what it used in `v`. */
  ghost predicate UsesTheSame(env: Env, v: View, w: View, t: nat)
    requires IsView(v) && RunningIsOwned(v) && IsView(w) && RunningIsOwned(w)
  {
    forall d :: Uses(env, w, t, d) <==> Uses(env, v, t, d)
  }

  /** No thread but `t` uses anything else than before. */
  ghost predicate OthersUseTheSame(env: Env, v: View, w: View, t: nat)
    requires IsView(v) && RunningIsOwned(v) && IsView(w) && RunningIsOwned(w)
  {
    forall u: nat {:trigger UsesTheSame(env, v, w, u)} :: u != t ==> UsesTheSame(env, v, w, u)
  }

  /** The devices of thread `t` are those of nobody else. */
  ghost predicate UsesItsOwn(env: Env, v: View, t: nat)
    requires IsView(v) && RunningIsOwned(v)
  {
    forall u: nat, d {:trigger Uses(env, v, t, d), Uses(env, v, u, d)} ::
      Uses(env, v, t, d) && Uses(env, v, u, d) ==> t == u
  }

  lemma OneThreadChanges(env: Env, v: View, w: View, t: nat)
    requires IsAccounted(env, v) && IsView(w) && RunningIsOwned(w) && t < |v.running| && t < |w.running|
    requires OthersUseTheSame(env, v, w, t)
    ensures DevicesOfThread(env, v, t) <= InUse(env, v)
    ensures InUse(env, w) == InUse(env, v) - DevicesOfThread(env, v, t) + DevicesOfThread(env, w, t)
  {
    forall d
      ensures d in DevicesOfThread(env, v, t) ==> d in InUse(env, v)
      ensures d in InUse(env, w) <==>
        (d in InUse(env, v) && d !in DevicesOfThread(env, v, t)) || d in DevicesOfThread(env, w, t)
    {
      if u: nat :| Uses(env, v, u, d) && u != t {
        assert UsesTheSame(env, v, w, u) && Uses(env, w, u, d);
      }
      if u: nat :| Uses(env, w, u, d) && u != t {
        assert UsesTheSame(env, v, w, u) && Uses(env, v, u, d) && UsesItsOwn(env, v, t);
      }
      assert d in DevicesOfThread(env, w, t) ==> Uses(env, w, t, d);
      assert d in DevicesOfThread(env, v, t) ==> Uses(env, v, t, d);
    }
  }

  lemma StaysDisjoint(env: Env, v: View, w: View, t: nat)
    requires IsAccounted(env, v) && IsView(w) && RunningIsOwned(w)
    requires OthersUseTheSame(env, v, w, t) && (UsesTheSame(env, v, w, t) || UsesItsOwn(env, w, t))
    ensures forall u: nat {:trigger UsesItsOwn(env, w, u)} :: UsesItsOwn(env, w, u)
  {
    forall u: nat, x: nat, d | Uses(env, w, u, d) && Uses(env, w, x, d)
      ensures u == x
    {
      assert u != t ==> UsesTheSame(env, v, w, u);
      assert x != t ==> UsesTheSame(env, v, w, x);
      assert UsesItsOwn(env, v, u);
    }
  }

  lemma InUseStill(env: Env, v: View, w: View, d: Device)
    requires IsView(v) && RunningIsOwned(v) && IsView(w) && RunningIsOwned(w) && IsInUse(env, v, d)
    requires forall t: nat {:trigger UsesTheSame(env, v, w, t)} :: UsesTheSame(env, v, w, t)
    ensures IsInUse(env, w, d)
  {
    var t: nat :| Uses(env, v, t, d);
    assert UsesTheSame(env, v, w, t);
    assert Uses(env, w, t, d);
  }

  lemma NobodyChanges(env: Env, v: View, w: View)
    requires IsAccounted(env, v) && IsView(w) && RunningIsOwned(w)
    requires forall t: nat {:trigger UsesTheSame(env, v, w, t)} :: UsesTheSame(env, v, w, t)
    ensures InUse(env, w) == InUse(env, v)
    ensures forall u: nat {:trigger UsesItsOwn(env, w, u)} :: UsesItsOwn(env, w, u)
  {
    forall t: nat
      ensures UsesTheSame(env, w, v, t)
    {
      assert UsesTheSame(env, v, w, t);
    }
    forall d | IsInUse(env, v, d)
      ensures IsInUse(env, w, d)
    {
      InUseStill(env, v, w, d);
    }
    forall d | IsInUse(env, w, d)
      ensures IsInUse(env, v, d)
    {
      InUseStill(env, w, v, d);
    }
    StaysDisjoint(env, v, w, 0);
  }

  /** A step after which every thread has started what it had started before. */
  lemma QuietStep(env: Env, v: View, s: Step, w: View)
    requires IsAccounted(env, v) && Follows(env, v, s, w) && RunningIsOwned(w)
    requires forall t :: 0 <= t < |w.running| ==> w.running[t] == if t < |v.running| then v.running[t] else None
    requires |v.running| <= |w.running|
    ensures InUse(env, w) == InUse(env, v)
    ensures forall u: nat {:trigger UsesItsOwn(env, w, u)} :: UsesItsOwn(env, w, u)
    ensures forall t :: 0 <= t < |w.running| && w.running[t].Some? ==> w.pointers[w.running[t].value] != Null
  {
    forall t: nat
      ensures UsesTheSame(env, v, w, t)
    {
      if t < |v.running| && v.running[t].Some? {
        assert w.events[v.running[t].value] == v.events[v.running[t].value];
      }
    }
    NobodyChanges(env, v, w);
  }

  /** A step of one thread, which starts an event set or is idle afterwards. */
  lemma OneThreadStep(env: Env, v: View, w: View, t: nat)
    requires IsAccounted(env, v) && IsView(w) && RunningIsOwned(w) && t < |v.running| == |w.running|
    requires w.running == v.running[t := w.running[t]] && w.events == v.events && w.owners == v.owners
    requires w.running[t].Some? ==> DevicesOfThread(env, w, t) !! v.mask
    ensures DevicesOfThread(env, v, t) <= InUse(env, v)
    ensures InUse(env, w) == InUse(env, v) - DevicesOfThread(env, v, t) + DevicesOfThread(env, w, t)
    ensures forall u: nat {:trigger UsesItsOwn(env, w, u)} :: UsesItsOwn(env, w, u)
  {
    forall u: nat | u != t
      ensures UsesTheSame(env, v, w, u)
    {
    }
    forall u: nat, d | u != t && Uses(env, w, u, d)
      ensures !Uses(env, w, t, d)
    {
      assert UsesTheSame(env, v, w, u) && IsInUse(env, v, d);
    }
    OneThreadChanges(env, v, w, t);
    StaysDisjoint(env, v, w, t);
  }

  lemma StepKeepsPointers(env: Env, v: View, s: Step, w: View)
    requires IsAccounted(env, v) && Follows(env, v, s, w)
    ensures RunningIsOwned(w)
    ensures forall t :: 0 <= t < |w.running| && w.running[t].Some? ==> w.pointers[w.running[t].value] != Null
  {
  }

  /** A thread that ends or stops its event set no longer uses its devices, which stay acquired unless
      they were released. */
  lemma LeavingStep(env: Env, v: View, s: Step, w: View, t: nat)
    requires IsAccounted(env, v) && Follows(env, v, s, w) && Passed(env, v, s.request) && RunningIsOwned(w)
    requires s.request == EndThread(t) || (s.request.StopSet? && s.request.t == t && s.stop in {Unclosed, Stopped})
    ensures InUse(env, w) == InUse(env, v) - DevicesOfThread(env, v, t) && DevicesOfThread(env, v, t) <= InUse(env, v)
    ensures w.mask == if s.request.StopSet? && s.stop == Stopped then v.mask - DevicesOfThread(env, v, t) else v.mask
    ensures forall u: nat {:trigger UsesItsOwn(env, w, u)} :: UsesItsOwn(env, w, u)
  {
    OneThreadStep(env, v, w, t);
  }

  lemma StartingStep(env: Env, v: View, s: Step, w: View)
    requires IsAccounted(env, v) && Follows(env, v, s, w) && Passed(env, v, s.request) && RunningIsOwned(w)
    requires s.request.StartSet? && s.start == Started
    ensures Unused(env, w) == Unused(env, v) && InUse(env, w) <= w.mask
    ensures forall u: nat {:trigger UsesItsOwn(env, w, u)} :: UsesItsOwn(env, w, u)
  {
    OneThreadStep(env, v, w, s.request.t);
  }

  /** Every step keeps the account, and what it abandons stays acquired without being used. */
  lemma StepKeepsAccount(env: Env, v: View, s: Step, w: View)
    requires IsAccounted(env, v) && Follows(env, v, s, w)
    ensures IsAccounted(env, w) && Unused(env, w) == Unused(env, v) + Abandoned(env, v, s)
  {
    StepKeepsPointers(env, v, s, w);
    if Passed(env, v, s.request) && s.request.EndThread? {
      LeavingStep(env, v, s, w, s.request.t);
    } else if Passed(env, v, s.request) && s.request.StopSet? && s.stop in {Unclosed, Stopped} {
      LeavingStep(env, v, s, w, s.request.t);
    } else if Passed(env, v, s.request) && s.request.StartSet? && s.start == Started {
      StartingStep(env, v, s, w);
    } else {
      QuietStep(env, v, s, w);
    }
  }

  // ----- runs -----

  lemma {:induction false} RunIsAccounted(env: Env, views: seq<View>, steps: seq<Step>, j: nat)
    requires IsRun(env, views, steps) && j < |views|
    ensures IsAccounted(env, views[j])
  {
    if j > 0 {
      RunIsAccounted(env, views, steps, j - 1);
      assert Link(env, views, steps, j - 1);
      StepKeepsAccount(env, views[j - 1], steps[j - 1], views[j]);
    }
  }

  /** Step `i` abandons the device. */
  ghost predicate AbandonsAt(env: Env, views: seq<View>, steps: seq<Step>, i: nat, d: Device) {
    && i < |steps| == |views| - 1 && IsView(views[i]) && RunningIsOwned(views[i])
    && d in Abandoned(env, views[i], steps[i])
  }

  /** Some of the first `j` steps does. */
  ghost predicate AbandonsBefore(env: Env, views: seq<View>, steps: seq<Step>, j: nat, d: Device) {
    exists i: nat :: i < j && AbandonsAt(env, views, steps, i, d)
  }

  lemma AbandonsBeforeNext(env: Env, views: seq<View>, steps: seq<Step>, j: nat, d: Device)
    ensures AbandonsBefore(env, views, steps, j + 1, d)
       <==> AbandonsBefore(env, views, steps, j, d) || AbandonsAt(env, views, steps, j, d)
  {
  }

  lemma {:induction false} UnusedIsAbandoned(env: Env, views: seq<View>, steps: seq<Step>, j: nat, d: Device)
    requires IsRun(env, views, steps) && j < |views|
    ensures IsAccounted(env, views[j])
    ensures d in Unused(env, views[j]) <==> AbandonsBefore(env, views, steps, j, d)
  {
    RunIsAccounted(env, views, steps, j);
    if j > 0 {
      UnusedIsAbandoned(env, views, steps, j - 1, d);
      assert Link(env, views, steps, j - 1);
      StepKeepsAccount(env, views[j - 1], steps[j - 1], views[j]);
      AbandonsBeforeNext(env, views, steps, j - 1, d);
    }
  }

  /** At every point of a run the acquired devices are those of the started event sets, and besides
      exactly the ones that some step has abandoned. */
  lemma AcquiredIsUsedOrAbandoned(env: Env, views: seq<View>, steps: seq<Step>, j: nat, d: Device)
    requires IsRun(env, views, steps) && j < |views|
    ensures IsView(views[j]) && RunningIsOwned(views[j])
    ensures d in views[j].mask <==> IsInUse(env, views[j], d) || AbandonsBefore(env, views, steps, j, d)
    ensures !(IsInUse(env, views[j], d) && AbandonsBefore(env, views, steps, j, d))
  {
    RunIsAccounted(env, views, steps, j);
    UnusedIsAbandoned(env, views, steps, j, d);
    assert d in InUse(env, views[j]) <==> IsInUse(env, views[j], d);
  }

  /** So exactly the devices of started event sets are acquired if and only if no step has abandoned
      a device. */
  lemma NothingIsAbandoned(env: Env, views: seq<View>, steps: seq<Step>, j: nat)
    requires IsRun(env, views, steps) && j < |views|
    ensures IsView(views[j]) && RunningIsOwned(views[j])
    ensures views[j].mask == InUse(env, views[j])
       <==> forall i: nat, d :: i < j ==> !AbandonsAt(env, views, steps, i, d)
  {
    RunIsAccounted(env, views, steps, j);
    forall d: Device
      ensures d in views[j].mask <==> IsInUse(env, views[j], d) || AbandonsBefore(env, views, steps, j, d)
      ensures !(IsInUse(env, views[j], d) && AbandonsBefore(env, views, steps, j, d))
    {
      AcquiredIsUsedOrAbandoned(env, views, steps, j, d);
    }
    forall i: nat, d | i < j && AbandonsAt(env, views, steps, i, d)
      ensures AbandonsBefore(env, views, steps, j, d)
    {
    }
  }

  /** An idle thread's start is refused if and only if one of the devices is used by a running thread
      or has been abandoned by an earlier step. */
  lemma RefusedExactly(env: Env, views: seq<View>, steps: seq<Step>, j: nat)
    requires IsRun(env, views, steps) && j < |steps|
    requires IsView(views[j]) && steps[j].request.StartSet? && Passed(env, views[j], steps[j].request)
    requires views[j].running[steps[j].request.t].None? && RunningIsOwned(views[j])
    ensures steps[j].start == DeviceTaken
       <==> exists d :: d in DevicesOf(env.devices, views[j].events[steps[j].request.c])
                     && (IsInUse(env, views[j], d) || AbandonsBefore(env, views, steps, j, d))
  {
    var wanted := DevicesOf(env.devices, views[j].events[steps[j].request.c]);
    assert Link(env, views, steps, j);
    forall d: Device
      ensures d in views[j].mask <==> IsInUse(env, views[j], d) || AbandonsBefore(env, views, steps, j, d)
    {
      AcquiredIsUsedOrAbandoned(env, views, steps, j, d);
    }
    if !(wanted !! views[j].mask) {
      var d :| d in wanted && d in views[j].mask;
    }
  }

  /** Step `i` abandons the devices of these events. */
  ghost predicate AbandonsSet(env: Env, views: seq<View>, steps: seq<Step>, i: nat, ids: seq<nat>)
    requires i < |steps| == |views| - 1
  {
    && IsView(views[i]) && RunningIsOwned(views[i]) && Passed(env, views[i], steps[i].request)
    && match steps[i].request
       case StartSet(t, c) =>
         steps[i].start in {NoContext, NoCounters, EventFailed, NotClosed} && ids == views[i].events[c]
       case StopSet(t, c) => steps[i].stop == Unclosed && ids == views[i].events[c]
       case EndThread(t) => views[i].running[t].Some? && ids == views[i].events[views[i].running[t].value]
       case _ => false
  }

  /** After that, starting an event set with the same events from an idle thread is refused, ever
      after, if and only if one of them is bound to a device. */
  lemma AbandonedForEver(env: Env, views: seq<View>, steps: seq<Step>, i: nat, ids: seq<nat>, j: nat)
    requires IsRun(env, views, steps) && i < j < |steps| && AbandonsSet(env, views, steps, i, ids)
    requires IsView(views[j]) && steps[j].request.StartSet? && Passed(env, views[j], steps[j].request)
    requires views[j].events[steps[j].request.c] == ids && views[j].running[steps[j].request.t].None?
    ensures steps[j].start == DeviceTaken <==> IsBound(env.devices, ids)
  {
    RunningStaysOwned(env, views, steps, j);
    RefusedExactly(env, views, steps, j);
    BoundEventsHaveDevices(env.devices, ids);
    if d :| d in DevicesOf(env.devices, ids) {
      assert AbandonsAt(env, views, steps, i, d);
      assert AbandonsBefore(env, views, steps, j, d);
    }
  }
}
