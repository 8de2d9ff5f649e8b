/** Who holds which device, over whole runs of opening and closing contexts. */
module Exclusivity {

  /** `mask` are the acquired devices, `held` the devices of each open context. `lost` are devices
      that stay acquired although no context holds them: an opening that fails after acquiring
      does not give them back, and neither does freeing an open context. */
  datatype Sys<!C, !D> = Sys(mask: iset<D>, held: map<C, iset<D>>, lost: iset<D>)

  datatype Event<C, !D> =
    | Opened(ctx: C, acquired: iset<D>)
    | Refused(wanted: iset<D>)
    | OpenFailed(acquired: iset<D>)
    | Closed(ctx: C)
    | CloseFailed(ctx: C)
    | Dropped(ctx: C)  // freed while open

  ghost predicate Enabled<C, D>(s: Sys<C, D>, e: Event<C, D>) {
    match e
    case Opened(c, acq) => c !in s.held && acq !! s.mask
    case Refused(acq) => !(acq !! s.mask)
    case OpenFailed(acq) => acq !! s.mask
    case Closed(c) => c in s.held
    case CloseFailed(c) => c in s.held
    case Dropped(c) => c in s.held
  }

  /** What an event does: acquiring adds to the mask, releasing takes the symmetric difference. */
  ghost function Next<C, D>(s: Sys<C, D>, e: Event<C, D>): Sys<C, D>
    requires Enabled(s, e)
  {
    match e
    case Opened(c, acq) => Sys(s.mask + acq, s.held[c := acq], s.lost)
    case Refused(_) => s
    case OpenFailed(acq) => Sys(s.mask + acq, s.held, s.lost + acq)
    case Closed(c) => Sys((s.mask - s.held[c]) + (s.held[c] - s.mask), s.held - {c}, s.lost)
    case CloseFailed(_) => s
    case Dropped(c) => Sys(s.mask, s.held - {c}, s.lost + s.held[c])
  }

  /** An event that is enabled takes one state to the other. */
  ghost predicate Steps<C, D>(s: Sys<C, D>, e: Event<C, D>, t: Sys<C, D>) {
    Enabled(s, e) && t == Next(s, e)
  }

  /** The devices that some open context holds. */
  ghost function Union<C, D>(held: map<C, iset<D>>): iset<D> {
    iset c, d | c in held && d in held[c] :: d
  }

  /** No two contexts hold the same device, no holder's device is lost, and the mask covers the
      holders' devices and the lost ones, and nothing else. */
  ghost predicate Exclusive<C, D>(s: Sys<C, D>) {
    && (forall c, d :: c in s.held && d in s.held && c != d ==> s.held[c] !! s.held[d])
    && (forall c :: c in s.held ==> s.held[c] !! s.lost)
    && s.mask == Union(s.held) + s.lost
  }

  lemma UnionHas<C, D>(held: map<C, iset<D>>, c: C)
    requires c in held
    ensures held[c] <= Union(held)
  {
  }

  lemma StepKeepsExclusive<C, D>(s: Sys<C, D>, e: Event<C, D>)
    requires Exclusive(s) && Enabled(s, e)
    ensures Exclusive(Next(s, e))
  {
    match e
    case Opened(c, acq) =>
      forall x | x in s.held
        ensures s.held[x] !! acq
      {
        UnionHas(s.held, x);
      }
      UnionAfterOpening(s.held, c, acq);
    case OpenFailed(acq) =>
      forall x | x in s.held
        ensures s.held[x] !! acq
      {
        UnionHas(s.held, x);
      }
    case Closed(c) =>
      UnionHas(s.held, c);
      UnionAfterClosing(s.held, c);
    case Dropped(c) =>
      UnionHas(s.held, c);
      UnionAfterClosing(s.held, c);
    case Refused(_) =>
    case CloseFailed(_) =>
  }

  lemma UnionAfterOpening<C, D>(held: map<C, iset<D>>, c: C, acq: iset<D>)
    requires c !in held
    ensures Union(held[c := acq]) == Union(held) + acq
  {
    var held' := held[c := acq];
    forall d | d in Union(held)
      ensures d in Union(held')
    {
      var x :| x in held && d in held[x];
      assert x in held' && held'[x] == held[x];
    }
    forall d | d in acq
      ensures d in Union(held')
    {
      assert d in held'[c];
    }
  }

  lemma UnionAfterClosing<C, D>(held: map<C, iset<D>>, c: C)
    requires c in held
    requires forall x, y :: x in held && y in held && x != y ==> held[x] !! held[y]
    ensures Union(held - {c}) == Union(held) - held[c]
  {
    var held' := held - {c};
    forall d | d in Union(held) - held[c]
      ensures d in Union(held')
    {
      var x :| x in held && d in held[x];
      assert x in held' && held'[x] == held[x];
    }
    forall d | d in Union(held')
      ensures d in Union(held) - held[c]
    {
      var x :| x in held' && d in held'[x];
      assert held[x] !! held[c];
    }
  }

  ghost function Initial<C, D>(): Sys<C, D> {
    Sys(iset{}, map[], iset{})
  }

  /** The state after a run, newest event last; an event that is not enabled changes nothing. */
  ghost function After<C, D>(run: seq<Event<C, D>>): Sys<C, D> {
    if run == [] then Initial()
    else
      var s, e := After(run[..|run| - 1]), run[|run| - 1];
      if Enabled(s, e) then Next(s, e) else s
  }

  /** Over every run with any number of contexts, devices are held exclusively. */
  lemma {:induction false} RunsAreExclusive<C, D>(run: seq<Event<C, D>>)
    ensures Exclusive(After(run))
  {
    if run != [] {
      var s, e := After(run[..|run| - 1]), run[|run| - 1];
      RunsAreExclusive(run[..|run| - 1]);
      if Enabled(s, e) {
        StepKeepsExclusive(s, e);
      }
    }
  }

  lemma OneMoreEvent<C, D>(run: seq<Event<C, D>>, e: Event<C, D>)
    requires Enabled(After(run), e)
    ensures After(run + [e]) == Next(After(run), e)
  {
    assert (run + [e])[..|run|] == run;
  }

  /** Opening a context and closing it again leaves everything as it was. */
  lemma OpenedAndClosed<C, D>(s: Sys<C, D>, c: C, acq: iset<D>)
    requires Enabled(s, Opened(c, acq))
    ensures Enabled(Next(s, Opened(c, acq)), Closed(c)) && Next(Next(s, Opened(c, acq)), Closed(c)) == s
  {
    var t := Next(s, Opened(c, acq));
    assert t.held - {c} == s.held && (t.mask - acq) + (acq - t.mask) == s.mask;
  }

  /** The devices an event leaves acquired with no holder. */
  ghost function Loss<C, D>(s: Sys<C, D>, e: Event<C, D>): iset<D> {
    if !Enabled(s, e) then iset{}
    else if e.OpenFailed? then e.acquired
    else if e.Dropped? then s.held[e.ctx]
    else iset{}
  }

  ghost predicate LosesNothing<C, D>(run: seq<Event<C, D>>) {
    run == [] || (LosesNothing(run[..|run| - 1]) && Loss(After(run[..|run| - 1]), run[|run| - 1]) == iset{})
  }

  /** The mask is exactly the union of what open contexts hold if and only if no event of the run
      lost a device. */
  lemma {:induction false} MaskIsUnionUnlessLost<C, D>(run: seq<Event<C, D>>)
    ensures After(run).mask == Union(After(run).held) <==> LosesNothing(run)
  {
    RunsAreExclusive(run);
    var s := After(run);
    assert s.mask == Union(s.held) <==> s.lost == iset{} by {
      forall d | d in s.lost
        ensures d !in Union(s.held)
      {
        assert forall c :: c in s.held ==> s.held[c] !! s.lost;
      }
    }
    NothingLost(run);
  }

  lemma {:induction false} NothingLost<C, D>(run: seq<Event<C, D>>)
    ensures After(run).lost == iset{} <==> LosesNothing(run)
  {
    if run != [] {
      NothingLost(run[..|run| - 1]);
      LostSoFar(run);
      NoneInEither(After(run[..|run| - 1]).lost, Loss(After(run[..|run| - 1]), run[|run| - 1]));
    }
  }

  lemma LostSoFar<C, D>(run: seq<Event<C, D>>)
    requires run != []
    ensures var s, e := After(run[..|run| - 1]), run[|run| - 1]; After(run).lost == s.lost + Loss(s, e)
  {
  }

  lemma NoneInEither<D>(a: iset<D>, b: iset<D>)
    ensures a + b == iset{} <==> a == iset{} && b == iset{}
  {
    if a + b == iset{} {
      assert forall d :: d in a || d in b ==> d in a + b;
    }
  }

  // ----- lost devices -----

  /** A lost device stays acquired over every later run. */
  lemma {:induction false} LostForEver<C, D>(run: seq<Event<C, D>>, later: seq<Event<C, D>>)
    requires run <= later
    ensures After(run).lost <= After(later).lost <= After(later).mask
    decreases |later|
  {
    RunsAreExclusive(later);
    if |run| < |later| {
      LostForEver(run, later[..|later| - 1]);
      LostSoFar(later);
    } else {
      assert run == later;
    }
  }

  /** After an opening that failed with its devices acquired, opening the same devices again is
      refused for ever, whatever happens in between, if and only if there are any. */
  lemma RefusedForEver<C, D>(run: seq<Event<C, D>>, acquired: iset<D>, later: seq<Event<C, D>>)
    requires Enabled(After(run), OpenFailed(acquired)) && run + [OpenFailed(acquired)] <= later
    ensures Enabled(After(later), Refused(acquired)) <==> acquired != iset{}
  {
    OneMoreEvent(run, OpenFailed(acquired));
    LostForEver(run + [OpenFailed(acquired)], later);
    if d :| d in acquired {
      assert d in After(later).mask;
    }
  }

  /** One failed opening of one device makes the mask exceed what open contexts hold. */
  lemma OneFailureLosesADevice<C, D>(d: D)
    ensures var s := After<C, D>([OpenFailed(iset{d})]); s.mask == iset{d} && Union(s.held) == iset{}
  {
    OneMoreEvent<C, D>([], OpenFailed(iset{d}));
    assert [] + [OpenFailed(iset{d})] == [Event<C, D>.OpenFailed(iset{d})];
  }
}
