/** What PAPI sees of the component over whole runs of requests by any threads, as a machine on
    plain values. */
module PapiProtocol {
  import opened Contexts
  import opened DeviceMask
  import opened Options
  import opened PapiLayer

  /** A request for the component. Threads and event sets go by number. */
  datatype Request =
    | NewThread
    | EndThread(t: nat)
    | NewSet(t: nat)
    | SetEvents(t: nat, c: nat, ids: seq<nat>)
    | StartSet(t: nat, c: nat)
    | StopSet(t: nat, c: nat)
    | ReadSet(t: nat, c: nat)
    | WriteSet(t: nat, c: nat, values: seq<int>)
    | ResetSet(t: nat, c: nat)
    | CleanUp(c: nat)

  /** What the component runs on: the device of each event of the native event table, and whether
      each callback or allocation succeeds, in the order in which they are made. */
  datatype Env = Env(devices: seq<Placement>, outcomes: nat -> bool)

  /** For every thread, the event set it has started. For every event set, its thread, its events
      and what its context pointer leads to. The acquired devices, the lost ones among them; how
      often a context was freed twice; and how many callbacks and allocations have been made. */
  datatype View = View(
    running: seq<Option<nat>>,
    owners: seq<nat>,
    events: seq<seq<nat>>,
    pointers: seq<Pointer>,
    mask: iset<Device>,
    lost: iset<Device>,
    stale: nat,
    asked: nat)

  /** A request and its answer, none if PAPI does not pass the request on; and how a start or a
      stop ended. */
  datatype Step = Step(request: Request, errno: Option<Errno>, start: Starting, stop: Stopping)

  ghost predicate IsView(v: View) {
    |v.owners| == |v.events| == |v.pointers|
  }

  /** The event set belongs to the thread. */
  ghost predicate Owns(v: View, t: nat, c: nat)
    requires IsView(v)
  {
    t < |v.running| && c < |v.owners| && v.owners[c] == t
  }

  /** PAPI passes on what concerns existing threads and their own event sets, with known events;
      and a thread that has started an event set stops and uses only that one. */
  ghost predicate Passed(env: Env, v: View, r: Request)
    requires IsView(v)
  {
    match r
    case NewThread => true
    case EndThread(t) => t < |v.running|
    case NewSet(t) => t < |v.running|
    case SetEvents(t, c, ids) => Owns(v, t, c) && forall i :: 0 <= i < |ids| ==> ids[i] < |env.devices|
    case StartSet(t, c) => Owns(v, t, c)
    case StopSet(t, c) => Owns(v, t, c) && v.running[t] in {None, Some(c)}
    case ReadSet(t, c) => Owns(v, t, c) && v.running[t] in {None, Some(c)}
    case WriteSet(t, c, values) => Owns(v, t, c) && v.running[t] in {None, Some(c)} && |values| >= |v.events[c]|
    case ResetSet(t, c) => Owns(v, t, c) && v.running[t] in {None, Some(c)}
    case CleanUp(c) => c < |v.owners|
  }

  /** Some device of the event set is in use. */
  ghost predicate IsTaken(env: Env, v: View, c: nat)
    requires IsView(v) && c < |v.events|
  {
    !(DevicesOf(env.devices, v.events[c]) !! v.mask)
  }

  /** The pointers of the other event sets; freeing something twice may have freed what one of them
      leads to. */
  ghost predicate OthersPoint(v: View, c: nat, w: View)
    requires IsView(v)
  {
    && |w.pointers| == |v.pointers|
    && forall d :: 0 <= d < |v.pointers| && d != c ==>
         if w.stale == v.stale || v.pointers[d] != Alive then w.pointers[d] == v.pointers[d] else w.pointers[d] != Null
  }

  function PointerFor(how: Starting, before: Pointer): Pointer {
    match how
    case Busy => before
    case DeviceTaken => if before == Null then Null else Dead
    case NoContext => Null
    case NoCounters | EventFailed | NotStarted => Dead
    case NotClosed | Started => Alive
  }

  ghost predicate AfterStart(env: Env, v: View, t: nat, c: nat, how: Starting, w: View)
    requires IsView(v) && Owns(v, t, c)
  {
    var wanted := DevicesOf(env.devices, v.events[c]);
    && (if v.running[t].Some? then how == Busy && w.asked == v.asked
        else if IsTaken(env, v, c) then how == DeviceTaken && w.asked == v.asked
        else StartsAs(env.outcomes, v.asked, |v.events[c]|, how, w.asked))
    && w.owners == v.owners && w.events == v.events
    && w.running == (if how == Started then v.running[t := Some(c)] else v.running)
    && OthersPoint(v, c, w) && w.pointers[c] == PointerFor(how, v.pointers[c])
    && w.mask == (if how in {Busy, DeviceTaken, NotStarted} then v.mask else v.mask + wanted)
    && (if how in {NoContext, NoCounters, EventFailed} then w.lost == v.lost + wanted
        else if how == DeviceTaken then v.lost <= w.lost else w.lost == v.lost)
    && w.stale == v.stale + if how == DeviceTaken && v.pointers[c] == Dead then 1 else 0
  }

  ghost predicate AfterStop(env: Env, v: View, t: nat, c: nat, how: Stopping, w: View)
    requires IsView(v) && Owns(v, t, c)
  {
    && (if v.running[t].None? then how == NotRunning && w.asked == v.asked
        else StopsAs(env.outcomes, v.asked, |v.events[c]|, how, w.asked))
    && w.owners == v.owners && w.events == v.events && w.lost == v.lost
    && w.running == (if how in {Unclosed, Stopped} then v.running[t := None] else v.running)
    && OthersPoint(v, c, w)
    && w.pointers[c] == (if how in {Unclosed, Stopped} then Null else v.pointers[c])
    && w.mask == (if how == Stopped then v.mask - DevicesOf(env.devices, v.events[c]) else v.mask)
    && w.stale == v.stale + if how == Stopped && v.pointers[c] == Dead then 1 else 0
  }

  /** The events of an event set that was to be given the events `ids`. */
  function EventsAfter(errno: Errno, ids: seq<nat>, before: seq<nat>): seq<nat> {
    match errno
    case Ok => ids
    case NoMemory => []
    case _ => before
  }

  /** A read or a write succeeds if and only if the thread is running and the callbacks for the events
      of its event set all succeed; the first that fails is the last. */
  ghost predicate AfterAccess(env: Env, v: View, t: nat, c: nat, errno: Errno, w: View)
    requires IsView(v) && Owns(v, t, c)
  {
    var running, n := v.running[t].Some?, |v.events[c]|;
    && errno == (if running && AllSucceed(env.outcomes, v.asked, n) then Ok else Misc)
    && w == v.(asked := v.asked + if running then Tried(env.outcomes, v.asked, n) else 0)
  }

  /** One request takes the view `v` to the view `w`. */
  ghost predicate Follows(env: Env, v: View, s: Step, w: View)
    requires IsView(v)
  {
    && IsView(w) && w.lost <= w.mask
    && if !Passed(env, v, s.request) then s.errno == None && w == v
       else s.errno.Some? && match s.request
       case NewThread => s.errno == Some(Ok) && w == v.(running := v.running + [None])
       case EndThread(t) => s.errno == Some(Ok) && w == v.(running := v.running[t := None])
       case NewSet(t) =>
         && s.errno == Some(Ok)
         && w == v.(owners := v.owners + [t], events := v.events + [[]], pointers := v.pointers + [Null])
       case SetEvents(t, c, ids) =>
         && s.errno == Some(if v.running[t].Some? then Misc else if env.outcomes(v.asked) then Ok else NoMemory)
         && w == v.(events := v.events[c := EventsAfter(s.errno.value, ids, v.events[c])],
                    asked := v.asked + if v.running[t].Some? then 0 else 1)
       case StartSet(t, c) => s.errno == Some(StartErrno(s.start)) && AfterStart(env, v, t, c, s.start, w)
       case StopSet(t, c) =>
         s.errno == Some(if s.stop == Stopped then Ok else Misc) && AfterStop(env, v, t, c, s.stop, w)
       case ReadSet(t, c) => AfterAccess(env, v, t, c, s.errno.value, w)
       case WriteSet(t, c, _) => AfterAccess(env, v, t, c, s.errno.value, w)
       case ResetSet(t, c) => s.errno == Some(if v.running[t].None? then Misc else Ok) && w == v
       case CleanUp(c) =>
         && s.errno == Some(if v.pointers[c] == Null then Ok else Misc)
         && w == v.(events := v.events[c := if v.pointers[c] == Null then [] else v.events[c]])
  }

  /** What a start answers. It succeeds if and only if the thread goes from running nothing to running that
      event set; and that is so if and only if the devices are free, both allocations are granted, and all
      events open and start. */
  lemma StartSetAnswers(env: Env, v: View, s: Step, w: View)
    requires IsView(v) && Follows(env, v, s, w) && s.request.StartSet? && Passed(env, v, s.request)
    ensures var t, c, idle := s.request.t, s.request.c, v.running[s.request.t] == None;
      var taken := exists d :: d in DevicesOf(env.devices, v.events[c]) && d in v.mask;
      && s.errno in {Some(Ok), Some(Conflict), Some(NoMemory), Some(Misc)}
      && (s.errno == Some(Ok) <==> idle && w.running == v.running[t := Some(c)])
      && (s.errno != Some(Ok) ==> w.running == v.running)
      && (s.errno == Some(Ok) <==>
            idle && !taken && forall i :: v.asked <= i < v.asked + 2 + 2 * |v.events[c]| ==> env.outcomes(i))
      && (s.errno == Some(Conflict) <==> idle && taken)
      && (s.errno == Some(NoMemory) <==> idle && !taken && !(env.outcomes(v.asked) && env.outcomes(v.asked + 1)))
  {
    var t, c := s.request.t, s.request.c;
    var wanted := DevicesOf(env.devices, v.events[c]);
    assert IsTaken(env, v, c) <==> exists d :: d in wanted && d in v.mask by {
      if !(wanted !! v.mask) {
        var d :| d in wanted && d in v.mask;
      }
    }
    if v.running[t].None? && !IsTaken(env, v, c) {
      StartAnswers(env.outcomes, v.asked, |v.events[c]|, s.start, w.asked);
    }
    if v.running[t].None? {
      assert v.running[t := Some(c)][t] != v.running[t];
    }
  }

  /** What a stop answers. It succeeds if and only if the thread is running and all its events stop and
      close; the thread is idle afterwards if they stop. */
  lemma StopSetAnswers(env: Env, v: View, s: Step, w: View)
    requires IsView(v) && Follows(env, v, s, w) && s.request.StopSet? && Passed(env, v, s.request)
    ensures var t, n := s.request.t, |v.events[s.request.c]|;
      var stops := v.running[t].Some? && forall i :: v.asked <= i < v.asked + n ==> env.outcomes(i);
      && s.errno in {Some(Ok), Some(Misc)}
      && (s.errno == Some(Ok) <==>
            v.running[t].Some? && forall i :: v.asked <= i < v.asked + 2 * n ==> env.outcomes(i))
      && w.running == if stops then v.running[t := None] else v.running
  {
    if v.running[s.request.t].Some? {
      StopAnswers(env.outcomes, v.asked, |v.events[s.request.c]|, s.stop, w.asked);
    }
  }

  /** What a start leaves that is refused, or succeeds. */
  lemma StartSetLeaves(env: Env, v: View, s: Step, w: View)
    requires IsView(v) && Follows(env, v, s, w) && s.request.StartSet? && Passed(env, v, s.request)
    ensures var c, wanted := s.request.c, DevicesOf(env.devices, v.events[s.request.c]);
      && (v.running[s.request.t].Some? ==> w == v)
      && (s.errno == Some(Conflict) ==>
            && w.mask == v.mask && w.asked == v.asked
            && w.pointers[c] == (if v.pointers[c] == Null then Null else Dead)
            && w.stale == v.stale + if v.pointers[c] == Dead then 1 else 0)
      && (s.errno == Some(Ok) ==>
            && w.mask == v.mask + wanted && w.lost == v.lost && w.asked == v.asked + 2 + 2 * |v.events[c]|
            && w.pointers[c] == Alive && w.stale == v.stale)
  {
    var t, c := s.request.t, s.request.c;
    StartSetAnswers(env, v, s, w);
    if v.running[t].Some? {
      assert w.pointers == v.pointers;
    } else if s.errno == Some(Ok) {
      TriedAll(env.outcomes, v.asked + 2, |v.events[c]|);
    }
  }

  /** What a start leaves whose first failure is that of callback or allocation `i`. Without a context the
      pointer is null; when the counters or an event fail, the context is freed and its devices are lost.
      When event `k` does not start, `k` events are stopped, and then all are closed; if that succeeds the
      context is freed and its devices given back, and else it stays. */
  lemma FailedStartLeaves(env: Env, v: View, s: Step, w: View, i: nat)
    requires IsView(v) && Follows(env, v, s, w) && s.request.StartSet? && Passed(env, v, s.request)
    requires v.running[s.request.t].None? && !IsTaken(env, v, s.request.c)
    requires v.asked <= i < v.asked + 2 + 2 * |v.events[s.request.c]| && !env.outcomes(i)
    requires forall j :: v.asked <= j < i ==> env.outcomes(j)
    ensures var c, wanted, n := s.request.c, DevicesOf(env.devices, v.events[s.request.c]), |v.events[s.request.c]|;
      && s.errno == Some(if i < v.asked + 2 then NoMemory else Misc) && w.running == v.running && w.stale == v.stale
      && (i < v.asked + 2 + n ==>
            && w.pointers[c] == (if i == v.asked then Null else Dead)
            && w.mask == v.mask + wanted && w.lost == v.lost + wanted)
      && (i < v.asked + 2 ==> w.asked == i + 1)
      && (v.asked + 2 <= i < v.asked + 2 + n ==> w.asked == i + 1 + (i - (v.asked + 2)))
      && (v.asked + 2 + n <= i ==>
            var closing := i + 1 + (i - (v.asked + 2 + n));
            && w.lost == v.lost
            && if AllSucceed(env.outcomes, closing, n)
               then w.pointers[c] == Dead && w.mask == v.mask && w.asked == closing + n
               else w.pointers[c] == Alive && w.mask == v.mask + wanted && closing < w.asked <= closing + n)
  {
    FirstFailureDecides(env.outcomes, v.asked, |v.events[s.request.c]|, i, s.start, w.asked);
  }

  /** What a stop leaves: nothing has changed if an event does not stop; the pointer is null and the thread
      idle if they stop; the devices are given back, and the context is freed, if they also close. */
  lemma StopSetLeaves(env: Env, v: View, s: Step, w: View)
    requires IsView(v) && Follows(env, v, s, w) && s.request.StopSet? && Passed(env, v, s.request)
    ensures var t, c, n := s.request.t, s.request.c, |v.events[s.request.c]|;
      var stops := v.running[t].Some? && forall i :: v.asked <= i < v.asked + n ==> env.outcomes(i);
      && (v.running[t].None? ==> w == v)
      && (!stops ==> w == v.(asked := w.asked))
      && (stops ==> w.pointers[c] == Null && w.running == v.running[t := None])
      && w.lost == v.lost && w.events == v.events && w.owners == v.owners
      && w.mask == (if s.errno == Some(Ok) then v.mask - DevicesOf(env.devices, v.events[c]) else v.mask)
      && w.stale == v.stale + if s.errno == Some(Ok) && v.pointers[c] == Dead then 1 else 0
  {
    StopSetAnswers(env, v, s, w);
    if s.stop !in {Unclosed, Stopped} {
      assert w.pointers == v.pointers;
    }
  }

  ghost function Beginning(): (v: View)
    ensures IsView(v)
  {
    View([], [], [], [], iset{}, iset{}, 0, 0)
  }

  ghost predicate Link(env: Env, views: seq<View>, steps: seq<Step>, i: nat)
    requires i < |steps| == |views| - 1
  {
    IsView(views[i]) && Follows(env, views[i], steps[i], views[i + 1])
  }

  /** A run from the beginning, with the views between its steps. */
  ghost predicate IsRun(env: Env, views: seq<View>, steps: seq<Step>) {
    && |steps| == |views| - 1 && views[0] == Beginning()
    && forall i {:trigger Link(env, views, steps, i)} :: 0 <= i < |steps| ==> Link(env, views, steps, i)
  }

  lemma RunOneMore(env: Env, views: seq<View>, steps: seq<Step>, step: Step, w: View)
    requires IsRun(env, views, steps) && IsView(views[|steps|]) && Follows(env, views[|steps|], step, w)
    ensures IsRun(env, views + [w], steps + [step])
  {
    forall i | 0 <= i < |steps| + 1
      ensures Link(env, views + [w], steps + [step], i)
    {
      assert i < |steps| ==> Link(env, views, steps, i);
    }
  }

  lemma {:induction false} ViewsOfRun(env: Env, views: seq<View>, steps: seq<Step>, j: nat)
    requires IsRun(env, views, steps) && j < |views|
    ensures IsView(views[j]) && views[j].lost <= views[j].mask
  {
    if j > 0 {
      assert Link(env, views, steps, j - 1);
    }
  }

  // ----- running threads -----

  /** A started event set belongs to the thread that started it. */
  ghost predicate RunningIsOwned(v: View)
    requires IsView(v)
  {
    forall t :: 0 <= t < |v.running| && v.running[t].Some? ==> Owns(v, t, v.running[t].value)
  }

  /** Its context is alive. */
  ghost predicate RunningIsAlive(v: View)
    requires IsView(v) && RunningIsOwned(v)
  {
    forall t :: 0 <= t < |v.running| && v.running[t].Some? ==> v.pointers[v.running[t].value] == Alive
  }

  lemma {:induction false} RunningStaysOwned(env: Env, views: seq<View>, steps: seq<Step>, j: nat)
    requires IsRun(env, views, steps) && j < |views|
    ensures IsView(views[j]) && RunningIsOwned(views[j])
  {
    if j > 0 {
      RunningStaysOwned(env, views, steps, j - 1);
      assert Link(env, views, steps, j - 1);
    }
  }

  /** At every point of a run up to which nothing was freed twice, the context of every started
      event set is alive. */
  lemma {:induction false} RunningStaysAlive(env: Env, views: seq<View>, steps: seq<Step>, j: nat)
    requires IsRun(env, views, steps) && j < |views| && views[j].stale == 0
    ensures IsView(views[j]) && RunningIsOwned(views[j]) && RunningIsAlive(views[j])
  {
    RunningStaysOwned(env, views, steps, j);
    if j > 0 {
      assert Link(env, views, steps, j - 1);
      RunningStaysAlive(env, views, steps, j - 1);
    }
  }

  // ----- freeing twice -----

  /** An idle thread starts an event set whose context was freed and one of whose devices is in use. */
  ghost predicate FreesTwice(env: Env, v: View, r: Request)
    requires IsView(v)
  {
    && r.StartSet? && Passed(env, v, r)
    && v.running[r.t].None? && v.pointers[r.c] == Dead && IsTaken(env, v, r.c)
  }

  ghost predicate FreesTwiceAt(env: Env, views: seq<View>, steps: seq<Step>, i: nat)
    requires i < |steps| < |views|
  {
    IsView(views[i]) && FreesTwice(env, views[i], steps[i].request)
  }

  /** Nothing was freed twice in a run if and only if no idle thread started an event set with a
      freed context and a device in use. */
  lemma {:induction false} NothingFreedTwice(env: Env, views: seq<View>, steps: seq<Step>, j: nat)
    requires IsRun(env, views, steps) && j < |views|
    ensures views[j].stale == 0 <==> forall i :: 0 <= i < j ==> !FreesTwiceAt(env, views, steps, i)
  {
    if j > 0 {
      NothingFreedTwice(env, views, steps, j - 1);
      assert Link(env, views, steps, j - 1);
      if views[j - 1].stale == 0 {
        RunningStaysAlive(env, views, steps, j - 1);
        assert views[j].stale == 0 <==> !FreesTwiceAt(env, views, steps, j - 1);
      }
    }
  }

  // ----- lost devices -----

  lemma {:induction false} LostStaysLost(env: Env, views: seq<View>, steps: seq<Step>, i: nat, j: nat)
    requires IsRun(env, views, steps) && i <= j < |views|
    ensures views[i].lost <= views[j].lost
    decreases j
  {
    if i < j {
      LostStaysLost(env, views, steps, i, j - 1);
      assert Link(env, views, steps, j - 1);
    }
  }

  /** Some of these events is bound to a device. */
  predicate IsBound(devices: seq<Placement>, ids: seq<nat>) {
    exists i :: 0 <= i < |ids| && ids[i] < |devices| && devices[ids[i]].On?
  }

  lemma BoundEventsHaveDevices(devices: seq<Placement>, ids: seq<nat>)
    ensures DevicesOf(devices, ids) != iset{} <==> IsBound(devices, ids)
  {
    if i :| 0 <= i < |ids| && ids[i] < |devices| && devices[ids[i]].On? {
      assert devices[ids[i]].device in DevicesOf(devices, ids);
    }
  }

  /** Step `i` is a start of event set `c` that failed after its devices were acquired. */
  ghost predicate FailsToOpen(env: Env, views: seq<View>, steps: seq<Step>, i: nat, c: nat)
    requires i < |steps| == |views| - 1
  {
    && IsView(views[i]) && Passed(env, views[i], steps[i].request)
    && steps[i].request.StartSet? && steps[i].request.c == c
    && steps[i].start in {NoContext, NoCounters, EventFailed}
  }

  /** After that, starting an event set with the same events from an idle thread is refused, ever
      after, if and only if one of them is bound to a device. */
  lemma RetriesAreRefusedForEver(env: Env, views: seq<View>, steps: seq<Step>, i: nat, c: nat, j: nat)
    requires IsRun(env, views, steps) && i < j < |steps| && FailsToOpen(env, views, steps, i, c)
    requires IsView(views[j]) && steps[j].request.StartSet? && Passed(env, views[j], steps[j].request)
    requires views[j].events[steps[j].request.c] == views[i].events[c]
    requires views[j].running[steps[j].request.t].None?
    ensures steps[j].start == DeviceTaken <==> IsBound(env.devices, views[i].events[c])
  {
    var wanted := DevicesOf(env.devices, views[i].events[c]);
    BoundEventsHaveDevices(env.devices, views[i].events[c]);
    assert Link(env, views, steps, i) && Link(env, views, steps, j);
    assert wanted <= views[i + 1].lost;
    LostStaysLost(env, views, steps, i + 1, j);
    ViewsOfRun(env, views, steps, j);
    if d :| d in wanted {
      assert d in views[j].mask;
    }
  }

  /** Step `k` gives event set `c` other events. */
  ghost predicate Replaces(steps: seq<Step>, k: nat, c: nat)
    requires k < |steps|
  {
    steps[k].request.SetEvents? && steps[k].request.c == c
  }

  /** An event set with a device that failed to open once it had a context. */
  ghost predicate IsStuck(env: Env, v: View, c: nat, ids: seq<nat>) {
    && IsView(v) && c < |v.owners| && v.events[c] == ids && v.pointers[c] == Dead
    && IsTaken(env, v, c)
    && forall t :: 0 <= t < |v.running| ==> v.running[t] != Some(c)
  }

  /** An event set that failed to open once it had a context, and that has an event bound to a
      device, is stuck for as long as its events are not replaced: whatever any thread does, it
      cannot be cleaned up, and starting it again frees its context again. */
  lemma {:induction false} StuckForEver(env: Env, views: seq<View>, steps: seq<Step>, i: nat, c: nat, j: nat)
    requires IsRun(env, views, steps) && i < j < |views| && FailsToOpen(env, views, steps, i, c)
    requires steps[i].start != NoContext && IsBound(env.devices, views[i].events[c])
    requires forall k :: i < k < j ==> !Replaces(steps, k, c)
    ensures IsStuck(env, views[j], c, views[i].events[c])
    decreases j
  {
    var ids := views[i].events[c];
    assert Link(env, views, steps, j - 1);
    if j == i + 1 {
      RunningStaysOwned(env, views, steps, i);
      BoundEventsHaveDevices(env.devices, ids);
      var d :| d in DevicesOf(env.devices, ids);
      assert d in views[j].mask;
    } else {
      StuckForEver(env, views, steps, i, c, j - 1);
      assert Link(env, views, steps, i);
      BoundEventsHaveDevices(env.devices, ids);
      var d :| d in DevicesOf(env.devices, ids);
      assert d in views[i + 1].lost;
      LostStaysLost(env, views, steps, i + 1, j);
      assert d in views[j].mask;
      assert !Replaces(steps, j - 1, c);
    }
  }

  /** What a stuck event set answers. */
  lemma StuckSetsAnswer(env: Env, v: View, c: nat, ids: seq<nat>, s: Step, w: View)
    requires IsStuck(env, v, c, ids) && Follows(env, v, s, w)
    ensures s.request == CleanUp(c) ==> s.errno == Some(Misc)
    ensures s.request.StartSet? && s.request.c == c && Passed(env, v, s.request) && v.running[s.request.t].None? ==>
      s.errno == Some(Conflict) && w.stale == v.stale + 1
  {
  }

  // ----- two runs -----

  /** A thread gets an event set with one event, which is bound to a device. */
  ghost predicate SetsUp(env: Env, views: seq<View>, steps: seq<Step>) {
    && IsRun(env, views, steps) && |steps| == 6 && env.devices == [On(0)] && env.outcomes(0)
    && steps[0].request == NewThread && steps[1].request == NewSet(0) && steps[2].request == SetEvents(0, 0, [0])
    && steps[3].request == StartSet(0, 0)
  }

  lemma SetIsUp(env: Env, views: seq<View>, steps: seq<Step>)
    requires SetsUp(env, views, steps)
    ensures views[3] == View([None], [0], [[0]], [Null], iset{}, iset{}, 0, 1)
    ensures steps[0].errno == steps[1].errno == steps[2].errno == Some(Ok)
    ensures DevicesOf(env.devices, [0]) == iset{0}
  {
    assert Link(env, views, steps, 0) && Link(env, views, steps, 1) && Link(env, views, steps, 2);
    assert env.devices[[0][0]] == On(0);
  }

  /** The event fails to open. */
  lemma SetThatFails(env: Env, views: seq<View>, steps: seq<Step>)
    requires SetsUp(env, views, steps) && env.outcomes(1) && env.outcomes(2) && !env.outcomes(3)
    requires steps[4].request == StartSet(0, 0) && steps[5].request == CleanUp(0)
    ensures steps[0].errno == steps[1].errno == steps[2].errno == Some(Ok)
    ensures steps[3].errno == Some(Misc) && steps[4].errno == Some(Conflict) && steps[5].errno == Some(Misc)
    ensures views[6].stale == 1
  {
    SetIsUp(env, views, steps);
    assert Link(env, views, steps, 3);
    assert steps[3].start == EventFailed;
    assert 0 in views[4].mask && views[4].pointers[0] == Dead;
    assert Link(env, views, steps, 4) && Link(env, views, steps, 5);
  }

  /** The event opens, starts and stops, but fails to close. */
  lemma SetThatIsNotClosed(env: Env, views: seq<View>, steps: seq<Step>)
    requires SetsUp(env, views, steps) && (forall k: nat :: k < 6 ==> env.outcomes(k)) && !env.outcomes(6)
    requires steps[4].request == StopSet(0, 0) && steps[5].request == StartSet(0, 0)
    ensures steps[0].errno == steps[1].errno == steps[2].errno == steps[3].errno == Some(Ok)
    ensures steps[4].errno == Some(Misc) && steps[5].errno == Some(Conflict)
  {
    SetIsUp(env, views, steps);
    assert Link(env, views, steps, 3);
    assert steps[3].start == Started && views[4].asked == 5;
    assert Link(env, views, steps, 4);
    assert steps[4].stop == Unclosed && 0 in views[5].mask;
    assert Link(env, views, steps, 5);
  }
}
