/** What each slot of the native event table holds, stated on the reports alone: which function, device,
    variant and subvariant, under which name, with which mode and description. */
module EventSlots {
  import opened EventTableSpec
  import opened Options

  /** But for description and mode, the events are the same. */
  predicate SameEvent(e: NtvEvent, f: NtvEvent) {
    && e.id == f.id && e.name == f.name && e.func == f.func
    && e.device == f.device && e.variant == f.variant && e.subvariant == f.subvariant
  }

  /** What a slot describes stays; only its description and its mode may change. */
  lemma SlotStays(p: Platform, m: Marks, rs: seq<Report>, k: nat)
    requires AreUsable(p, rs) && rs != [] && k < SizeFrom(p, m.Keys, rs[..|rs| - 1])
    ensures k < SizeFrom(p, m.Keys, rs)
    ensures SameEvent(TableFrom(p, m, rs[..|rs| - 1])[k], TableFrom(p, m, rs)[k])
  {
  }

  /** What the last report adds, if it is not merged away. */
  lemma TableAdds(p: Platform, m: Marks, rs: seq<Report>)
    requires AreUsable(p, rs) && rs != [] && !IsMerged(m.Keys + Keys(rs[..|rs| - 1]), rs[|rs| - 1])
    ensures SizeFrom(p, m.Keys, rs) == SizeFrom(p, m.Keys, rs[..|rs| - 1]) + |Parts(p, rs[|rs| - 1])|
    ensures TableFrom(p, m, rs)
         == TableFrom(p, m, rs[..|rs| - 1]) + NewEvents(p, rs[|rs| - 1], SizeFrom(p, m.Keys, rs[..|rs| - 1]))
  {
  }

  lemma AddedAt<T>(t: seq<T>, before: seq<T>, added: seq<T>, j: nat)
    requires t == before + added && j < |added|
    ensures t[|before| + j] == added[j]
  {
  }

  lemma SlotMade(p: Platform, m: Marks, rs: seq<Report>, j: nat)
    requires AreUsable(p, rs) && rs != [] && !IsMerged(m.Keys + Keys(rs[..|rs| - 1]), rs[|rs| - 1])
    requires j < |Parts(p, rs[|rs| - 1])|
    ensures var at := SizeFrom(p, m.Keys, rs[..|rs| - 1]);
      && at + j < |TableFrom(p, m, rs)|
      && TableFrom(p, m, rs)[at + j] == EventOf(p, rs[|rs| - 1], at + j, Parts(p, rs[|rs| - 1])[j])
  {
    var at, r := SizeFrom(p, m.Keys, rs[..|rs| - 1]), rs[|rs| - 1];
    var added := NewEvents(p, r, at);
    TableAdds(p, m, rs);
    AddedAt(TableFrom(p, m, rs), TableFrom(p, m, rs[..|rs| - 1]), added, j);
    assert added[j] == EventOf(p, r, at + j, Parts(p, r)[j]);
  }

  lemma SizeAdds(p: Platform, seen: set<MergeKey>, rs: seq<Report>, i: nat)
    requires AreUsable(p, rs) && i < |rs| && !IsMerged(seen + Keys(rs[..i]), rs[i])
    ensures SizeFrom(p, seen, rs[..i + 1]) == SizeFrom(p, seen, rs[..i]) + |Parts(p, rs[i])| <= SizeFrom(p, seen, rs)
  {
    assert rs[..i + 1][..i] == rs[..i];
    SizesGrow(p, seen, rs, i + 1);
  }

  /** Part `j` of a report. */
  predicate IsPart(p: Platform, r: Report, j: nat, variant: int, subvariant: int)
    requires IsUsable(p, r)
  {
    match r.func
    case PciThroughputGet => variant == j && subvariant == -1
    case PowerProfilePresetsGet => variant == j && subvariant == -1
    case PowerCapRangeGet => variant == j && subvariant == r.subvariant
    case EccCountGet => variant == r.variant && subvariant == j
    case PciBandwidthGet =>
      var n := p.rates[r.dev];
      && (j < 2 ==> variant == j && subvariant == -1)
      && (2 <= j < 2 + n ==> variant == 2 && subvariant == j - 2)
      && (2 + n <= j ==> variant == 3 && subvariant == j - 2 - n)
    case GpuClkFreqGet => variant == r.variant && subvariant == j
    case GpuClkFreqSet => variant == r.variant && subvariant == -1
    case _ => variant == r.variant && subvariant == r.subvariant
  }

  lemma PartsInOrder(p: Platform, r: Report)
    requires IsUsable(p, r)
    ensures |Parts(p, r)| == match r.func
                             case PciThroughputGet => 3
                             case PowerProfilePresetsGet => 3
                             case PowerCapRangeGet => 2
                             case EccCountGet => 2
                             case PciBandwidthGet => if p.rates[r.dev] == 0 then 0 else 2 + 2 * p.rates[r.dev]
                             case PciBandwidthSet => if p.rates[r.dev] == 0 then 0 else 1
                             case GpuClkFreqGet =>
                               var n := p.clocks[r.dev * 5 + r.variant]; if n == 0 then 0 else 2 + n
                             case GpuClkFreqSet => if p.clocks[r.dev * 5 + r.variant] == 0 then 0 else 1
                             case _ => if p.name(r.func, r.dev, r.variant, r.subvariant).None? then 0 else 1
    ensures forall j :: 0 <= j < |Parts(p, r)| ==> IsPart(p, r, j, Parts(p, r)[j].0, Parts(p, r)[j].1)
  {
  }

  /** Report `i` took slot `k`. */
  ghost predicate Took(p: Platform, seen: set<MergeKey>, rs: seq<Report>, i: nat, k: nat)
    requires AreUsable(p, rs)
  {
    && i < |rs| && (KeyOf(rs[i]).None? || KeyOf(rs[i]).value !in seen + Keys(rs[..i]))
    && SizeFrom(p, seen, rs[..i]) <= k < SizeFrom(p, seen, rs[..i + 1])
  }

  lemma {:induction false} SomeReportTook(p: Platform, seen: set<MergeKey>, rs: seq<Report>, k: nat) returns (i: nat)
    requires AreUsable(p, rs) && 3 <= k < SizeFrom(p, seen, rs)
    ensures Took(p, seen, rs, i, k)
  {
    var n := |rs| - 1;
    var front := rs[..n];
    assert rs[..n + 1] == rs;
    if k < SizeFrom(p, seen, front) {
      i := SomeReportTook(p, seen, front, k);
      assert front[..i] == rs[..i] && front[..i + 1] == rs[..i + 1];
    } else {
      i := n;
    }
  }

  lemma TookInRange(p: Platform, seen: set<MergeKey>, rs: seq<Report>, i: nat, k: nat)
    requires AreUsable(p, rs) && Took(p, seen, rs, i, k)
    ensures 3 <= k < SizeFrom(p, seen, rs)
  {
    SizesGrow(p, seen, rs, i + 1);
  }

  lemma TookLater(p: Platform, seen: set<MergeKey>, rs: seq<Report>, i: nat, j: nat, k: nat)
    requires AreUsable(p, rs) && Took(p, seen, rs, i, k) && j < i
    ensures !Took(p, seen, rs, j, k)
  {
    SizesGrow(p, seen, rs[..i], j + 1);
    assert rs[..i][..j + 1] == rs[..j + 1];
  }

  /** Every slot but the first three was taken by a report, and by one only. */
  lemma EverySlotWasTaken(p: Platform, m: Marks, rs: seq<Report>, k: nat)
    requires AreUsable(p, rs)
    ensures 3 <= k < |TableFrom(p, m, rs)| <==> exists i: nat :: Took(p, m.Keys, rs, i, k)
    ensures forall i: nat, j: nat :: Took(p, m.Keys, rs, i, k) && Took(p, m.Keys, rs, j, k) ==> i == j
  {
    var seen := m.Keys;
    if 3 <= k < SizeFrom(p, seen, rs) {
      var i := SomeReportTook(p, seen, rs, k);
    }
    forall i: nat | Took(p, seen, rs, i, k)
      ensures 3 <= k < SizeFrom(p, seen, rs)
      ensures forall j: nat :: j < i ==> !Took(p, seen, rs, j, k)
    {
      TookInRange(p, seen, rs, i, k);
      forall j: nat | j < i
        ensures !Took(p, seen, rs, j, k)
      {
        TookLater(p, seen, rs, i, j, k);
      }
    }
  }

  /** What took a slot in a prefix took it. */
  lemma TookInPrefix(p: Platform, seen: set<MergeKey>, rs: seq<Report>, n: nat, i: nat, k: nat)
    requires AreUsable(p, rs) && n <= |rs| && i < n
    ensures Took(p, seen, rs[..n], i, k) <==> Took(p, seen, rs, i, k)
  {
    assert rs[..n][..i] == rs[..i] && rs[..n][..i + 1] == rs[..i + 1];
  }

  /** Report `j` is a setter for a key that has slot `k`, which is filled by then. */
  ghost predicate SetsSlot(p: Platform, m: Marks, rs: seq<Report>, j: nat, k: nat)
    requires AreUsable(p, rs)
  {
    && j < |rs| && rs[j].func in {FanSpeedSet, PowerCapSet, PerfLevel("_set")} && KeyOf(rs[j]).Some?
    && KeyOf(rs[j]).value in m.Keys + Keys(rs[..j])
    && k == MarksFrom(p, m, rs[..j])[KeyOf(rs[j]).value] < SizeFrom(p, m.Keys, rs[..j])
  }

  ghost predicate IsSet(p: Platform, m: Marks, rs: seq<Report>, k: nat)
    requires AreUsable(p, rs)
  {
    exists j: nat :: SetsSlot(p, m, rs, j, k)
  }

  lemma SetsInFront(p: Platform, m: Marks, rs: seq<Report>, j: nat, k: nat)
    requires AreUsable(p, rs) && j < |rs| - 1
    ensures SetsSlot(p, m, rs, j, k) <==> SetsSlot(p, m, rs[..|rs| - 1], j, k)
  {
    var front := rs[..|rs| - 1];
    assert front[..j] == rs[..j] && front[j] == rs[j];
  }

  lemma SetsBefore(p: Platform, m: Marks, rs: seq<Report>, k: nat)
    requires AreUsable(p, rs) && rs != []
    ensures IsSet(p, m, rs, k) <==> IsSet(p, m, rs[..|rs| - 1], k) || SetsSlot(p, m, rs, |rs| - 1, k)
  {
    var n := |rs| - 1;
    if IsSet(p, m, rs, k) && !SetsSlot(p, m, rs, n, k) {
      var j: nat :| SetsSlot(p, m, rs, j, k);
      SetsInFront(p, m, rs, j, k);
      assert IsSet(p, m, rs[..n], k);
    }
    if IsSet(p, m, rs[..n], k) {
      var j: nat :| SetsSlot(p, m, rs[..n], j, k);
      SetsInFront(p, m, rs, j, k);
      assert IsSet(p, m, rs, k);
    }
  }

  lemma ModeOneMore(p: Platform, m: Marks, rs: seq<Report>, k: nat)
    requires AreUsable(p, rs) && rs != [] && k < SizeFrom(p, m.Keys, rs[..|rs| - 1])
    ensures k < |TableFrom(p, m, rs)|
    ensures var e, f := TableFrom(p, m, rs[..|rs| - 1])[k], TableFrom(p, m, rs)[k];
      && f.mode == (if SetsSlot(p, m, rs, |rs| - 1, k) then ReadWrite else e.mode)
      && f.described == (if SetsSlot(p, m, rs, |rs| - 1, k) then rs[|rs| - 1].func else e.described)
  {
  }

  lemma NotSetYet(p: Platform, m: Marks, rs: seq<Report>, k: nat)
    requires AreUsable(p, rs) && rs != [] && k >= SizeFrom(p, m.Keys, rs[..|rs| - 1])
    ensures !IsSet(p, m, rs, k)
  {
    var front := rs[..|rs| - 1];
    forall j: nat | j < |rs|
      ensures !SetsSlot(p, m, rs, j, k)
    {
      SizesGrow(p, m.Keys, front, j);
      assert front[..j] == rs[..j];
    }
  }

  lemma ModeAtFirst(p: Platform, m: Marks, rs: seq<Report>, k: nat)
    requires AreUsable(p, rs) && rs != [] && Took(p, m.Keys, rs, |rs| - 1, k)
    ensures k < |TableFrom(p, m, rs)| && !IsSet(p, m, rs, k)
    ensures TableFrom(p, m, rs)[k].mode == ModeOf(p, rs[|rs| - 1].func)
    ensures TableFrom(p, m, rs)[k].described == rs[|rs| - 1].func
  {
    assert rs[..|rs|] == rs;
    NotSetYet(p, m, rs, k);
    SlotMade(p, m, rs, k - SizeFrom(p, m.Keys, rs[..|rs| - 1]));
  }

  lemma TookInFront(p: Platform, seen: set<MergeKey>, rs: seq<Report>, i: nat, k: nat)
    requires AreUsable(p, rs) && Took(p, seen, rs, i, k) && i < |rs| - 1
    ensures Took(p, seen, rs[..|rs| - 1], i, k) && k < SizeFrom(p, seen, rs[..|rs| - 1]) <= SizeFrom(p, seen, rs)
  {
    TookInPrefix(p, seen, rs, |rs| - 1, i, k);
    TookInRange(p, seen, rs[..|rs| - 1], i, k);
    SizesGrow(p, seen, rs, |rs| - 1);
  }

  /** Part `j` of a report, in the slot with this number. */
  predicate IsEventOf(p: Platform, r: Report, e: NtvEvent, id: nat, j: nat)
    requires IsUsable(p, r)
  {
    && e.id == id && e.func == r.func && e.device == r.dev
    && e.name == p.name(r.func, r.dev, e.variant, e.subvariant)
    && IsPart(p, r, j, e.variant, e.subvariant)
  }

  lemma EventAtFirst(p: Platform, m: Marks, rs: seq<Report>, k: nat, j: nat)
    requires AreUsable(p, rs) && rs != [] && Took(p, m.Keys, rs, |rs| - 1, k)
    requires j == k - SizeFrom(p, m.Keys, rs[..|rs| - 1])
    ensures k < |TableFrom(p, m, rs)| && IsEventOf(p, rs[|rs| - 1], TableFrom(p, m, rs)[k], k, j)
  {
    assert rs[..|rs|] == rs;
    SizeAdds(p, m.Keys, rs, |rs| - 1);
    SlotMade(p, m, rs, j);
    PartsInOrder(p, rs[|rs| - 1]);
  }

  lemma EventStays(p: Platform, m: Marks, rs: seq<Report>, k: nat, r: Report, j: nat)
    requires AreUsable(p, rs) && rs != [] && k < SizeFrom(p, m.Keys, rs[..|rs| - 1]) && IsUsable(p, r)
    requires IsEventOf(p, r, TableFrom(p, m, rs[..|rs| - 1])[k], k, j)
    ensures k < |TableFrom(p, m, rs)| && IsEventOf(p, r, TableFrom(p, m, rs)[k], k, j)
  {
    SlotStays(p, m, rs, k);
  }

  lemma {:induction false} SlotOfReport(p: Platform, m: Marks, rs: seq<Report>, i: nat, k: nat, j: nat)
    requires AreUsable(p, rs) && Took(p, m.Keys, rs, i, k) && j == k - SizeFrom(p, m.Keys, rs[..i])
    ensures k < |TableFrom(p, m, rs)| && IsEventOf(p, rs[i], TableFrom(p, m, rs)[k], k, j)
    decreases |rs|
  {
    if i == |rs| - 1 {
      EventAtFirst(p, m, rs, k, j);
    } else {
      var front := rs[..|rs| - 1];
      assert front[..i] == rs[..i] && front[i] == rs[i];
      TookInFront(p, m.Keys, rs, i, k);
      SlotOfReport(p, m, front, i, k, j);
      EventStays(p, m, rs, k, rs[i], j);
    }
  }

  lemma PartsAt(p: Platform, r: Report, t: seq<NtvEvent>, at: nat, after: nat)
    requires IsUsable(p, r) && at <= after <= |t| && after == at + |Parts(p, r)|
    requires forall k :: at <= k < after ==> IsPart(p, r, k - at, t[k].variant, t[k].subvariant)
    ensures match r.func
       case PciThroughputGet =>
         after == at + 3 && forall k :: at <= k < after ==> t[k].variant == k - at && t[k].subvariant == -1
       case PowerProfilePresetsGet =>
         after == at + 3 && forall k :: at <= k < after ==> t[k].variant == k - at && t[k].subvariant == -1
       case PowerCapRangeGet =>
         after == at + 2 && forall k :: at <= k < after ==> t[k].variant == k - at && t[k].subvariant == r.subvariant
       case EccCountGet =>
         after == at + 2 && forall k :: at <= k < after ==> t[k].variant == r.variant && t[k].subvariant == k - at
       case PciBandwidthGet =>
         var n := p.rates[r.dev];
         && after == (if n == 0 then at else at + 2 + n + n)
         && (n > 0 ==> forall k :: at <= k < at + 2 ==> t[k].variant == k - at && t[k].subvariant == -1)
         && (n > 0 ==> forall k :: at + 2 <= k < at + 2 + n ==> t[k].variant == 2 && t[k].subvariant == k - at - 2)
         && (n > 0 ==> forall k :: at + 2 + n <= k < after ==> t[k].variant == 3 && t[k].subvariant == k - at - 2 - n)
       case GpuClkFreqGet =>
         var n := p.clocks[r.dev * 5 + r.variant];
         && after == (if n == 0 then at else at + 2 + n)
         && forall k :: at <= k < after ==> t[k].variant == r.variant && t[k].subvariant == k - at
       case PciBandwidthSet =>
         && after == (if p.rates[r.dev] == 0 then at else at + 1)
         && forall k :: at <= k < after ==> t[k].variant == r.variant && t[k].subvariant == r.subvariant
       case GpuClkFreqSet =>
         && after == (if p.clocks[r.dev * 5 + r.variant] == 0 then at else at + 1)
         && forall k :: at <= k < after ==> t[k].variant == r.variant && t[k].subvariant == -1
       case _ =>
         && after == (if p.name(r.func, r.dev, r.variant, r.subvariant).None? then at else at + 1)
         && forall k :: at <= k < after ==> t[k].variant == r.variant && t[k].subvariant == r.subvariant
  {
    PartsInOrder(p, r);
  }

  /** A report that is not merged away takes the next slots. Each describes the report's function for its
      device, under the name the platform has for it. How many there are, and of which variants and
      subvariants in which order, depends on the kind of report. */
  lemma SlotsOfReport(p: Platform, m: Marks, rs: seq<Report>, i: nat, t: seq<NtvEvent>, at: nat, after: nat)
    requires AreUsable(p, rs) && i < |rs| && t == TableFrom(p, m, rs)
    requires KeyOf(rs[i]).None? || KeyOf(rs[i]).value !in m.Keys + Keys(rs[..i])
    requires at == SizeFrom(p, m.Keys, rs[..i]) && after == SizeFrom(p, m.Keys, rs[..i + 1])
    ensures 3 <= at <= after <= |t|
    ensures forall k :: at <= k < after ==>
      && t[k].id == k && t[k].func == rs[i].func && t[k].device == rs[i].dev
      && t[k].name == p.name(rs[i].func, rs[i].dev, t[k].variant, t[k].subvariant)
    ensures var r := rs[i];
      match r.func
      case PciThroughputGet =>
        after == at + 3 && forall k :: at <= k < after ==> t[k].variant == k - at && t[k].subvariant == -1
      case PowerProfilePresetsGet =>
        after == at + 3 && forall k :: at <= k < after ==> t[k].variant == k - at && t[k].subvariant == -1
      case PowerCapRangeGet =>
        after == at + 2 && forall k :: at <= k < after ==> t[k].variant == k - at && t[k].subvariant == r.subvariant
      case EccCountGet =>
        after == at + 2 && forall k :: at <= k < after ==> t[k].variant == r.variant && t[k].subvariant == k - at
      case PciBandwidthGet =>
        var n := p.rates[r.dev];
        && after == (if n == 0 then at else at + 2 + n + n)
        && (n > 0 ==> forall k :: at <= k < at + 2 ==> t[k].variant == k - at && t[k].subvariant == -1)
        && (n > 0 ==> forall k :: at + 2 <= k < at + 2 + n ==> t[k].variant == 2 && t[k].subvariant == k - at - 2)
        && (n > 0 ==> forall k :: at + 2 + n <= k < after ==> t[k].variant == 3 && t[k].subvariant == k - at - 2 - n)
      case GpuClkFreqGet =>
        var n := p.clocks[r.dev * 5 + r.variant];
        && after == (if n == 0 then at else at + 2 + n)
        && forall k :: at <= k < after ==> t[k].variant == r.variant && t[k].subvariant == k - at
      case PciBandwidthSet =>
        && after == (if p.rates[r.dev] == 0 then at else at + 1)
        && forall k :: at <= k < after ==> t[k].variant == r.variant && t[k].subvariant == r.subvariant
      case GpuClkFreqSet =>
        && after == (if p.clocks[r.dev * 5 + r.variant] == 0 then at else at + 1)
        && forall k :: at <= k < after ==> t[k].variant == r.variant && t[k].subvariant == -1
      case _ =>
        && after == (if p.name(r.func, r.dev, r.variant, r.subvariant).None? then at else at + 1)
        && forall k :: at <= k < after ==> t[k].variant == r.variant && t[k].subvariant == r.subvariant
  {
    var r := rs[i];
    SizeAdds(p, m.Keys, rs, i);
    forall k: nat | at <= k < after
      ensures t[k].id == k && t[k].func == r.func && t[k].device == r.dev
      ensures t[k].name == p.name(r.func, r.dev, t[k].variant, t[k].subvariant)
      ensures IsPart(p, r, k - at, t[k].variant, t[k].subvariant)
    {
      SlotOfReport(p, m, rs, i, k, k - at);
    }
    PartsAt(p, r, t, at, after);
  }

  /** The slot is readable and writable if a setter found it marked, and else has this mode. */
  ghost predicate HasMode(p: Platform, m: Marks, rs: seq<Report>, k: nat, mode: Mode)
    requires AreUsable(p, rs)
  {
    && k < |TableFrom(p, m, rs)|
    && TableFrom(p, m, rs)[k].mode == if IsSet(p, m, rs, k) then ReadWrite else mode
  }

  lemma ModeStays(p: Platform, m: Marks, rs: seq<Report>, k: nat, mode: Mode)
    requires AreUsable(p, rs) && rs != [] && HasMode(p, m, rs[..|rs| - 1], k, mode)
    ensures HasMode(p, m, rs, k, mode)
  {
    SetsBefore(p, m, rs, k);
    ModeOneMore(p, m, rs, k);
  }

  lemma {:induction false} ModeAfter(p: Platform, m: Marks, rs: seq<Report>, i: nat, k: nat)
    requires AreUsable(p, rs) && Took(p, m.Keys, rs, i, k)
    ensures HasMode(p, m, rs, k, ModeOf(p, rs[i].func))
    decreases |rs|
  {
    if i == |rs| - 1 {
      ModeAtFirst(p, m, rs, k);
    } else {
      var front := rs[..|rs| - 1];
      assert front[i] == rs[i];
      TookInFront(p, m.Keys, rs, i, k);
      ModeAfter(p, m, front, i, k);
      ModeStays(p, m, rs, k, ModeOf(p, rs[i].func));
    }
  }

  /** The mode of a slot: readable and writable if a setter found it marked; else what the kind of report
      says. */
  lemma ModeOfSlot(p: Platform, m: Marks, rs: seq<Report>, i: nat, k: nat)
    requires AreUsable(p, rs) && Took(p, m.Keys, rs, i, k)
    ensures k < |TableFrom(p, m, rs)|
    ensures TableFrom(p, m, rs)[k].mode ==
      if IsSet(p, m, rs, k) then ReadWrite
      else match rs[i].func
           case PciThroughputGet => ReadOnly
           case PowerProfilePresetsGet => ReadOnly
           case PowerCapRangeGet => ReadOnly
           case EccCountGet => ReadOnly
           case PciBandwidthGet => ReadOnly
           case GpuClkFreqGet => ReadOnly
           case PciBandwidthSet => WriteOnly
           case GpuClkFreqSet => WriteOnly
           case func => p.mode(func)
  {
    ModeAfter(p, m, rs, i, k);
  }

  /** The last setter that found slot `k` marked. */
  ghost predicate LastSets(p: Platform, m: Marks, rs: seq<Report>, j: nat, k: nat)
    requires AreUsable(p, rs)
  {
    SetsSlot(p, m, rs, j, k) && forall l: nat :: l > j ==> !SetsSlot(p, m, rs, l, k)
  }

  lemma LastSetsInFront(p: Platform, m: Marks, rs: seq<Report>, j: nat, k: nat)
    requires AreUsable(p, rs) && LastSets(p, m, rs, j, k) && j < |rs| - 1
    ensures LastSets(p, m, rs[..|rs| - 1], j, k)
  {
    SetsInFront(p, m, rs, j, k);
    forall l: nat {:trigger SetsSlot(p, m, rs[..|rs| - 1], l, k)} | j < l < |rs| - 1
      ensures !SetsSlot(p, m, rs[..|rs| - 1], l, k)
    {
      SetsInFront(p, m, rs, l, k);
    }
  }

  /** A slot that a setter found marked has the description of the last such setter. */
  lemma {:induction false} DescribedByLast(p: Platform, m: Marks, rs: seq<Report>, j: nat, k: nat)
    requires AreUsable(p, rs) && LastSets(p, m, rs, j, k)
    ensures k < |TableFrom(p, m, rs)| && TableFrom(p, m, rs)[k].described == rs[j].func
    decreases |rs|
  {
    var n := |rs| - 1;
    if j < n {
      LastSetsInFront(p, m, rs, j, k);
      DescribedByLast(p, m, rs[..n], j, k);
      assert !SetsSlot(p, m, rs, n, k);
    }
    ModeOneMore(p, m, rs, k);
  }

  /** Any other slot has the description of its own function. */
  lemma {:induction false} DescribedBySelf(p: Platform, m: Marks, rs: seq<Report>, i: nat, k: nat)
    requires AreUsable(p, rs) && Took(p, m.Keys, rs, i, k) && !IsSet(p, m, rs, k)
    ensures k < |TableFrom(p, m, rs)| && TableFrom(p, m, rs)[k].described == rs[i].func
    decreases |rs|
  {
    var n := |rs| - 1;
    if i == n {
      ModeAtFirst(p, m, rs, k);
    } else {
      TookInFront(p, m.Keys, rs, i, k);
      SetsBefore(p, m, rs, k);
      DescribedBySelf(p, m, rs[..n], i, k);
      ModeOneMore(p, m, rs, k);
    }
  }

  /** The first three events. No setter's mark leads to them, unless it was wrong from the beginning. */
  lemma {:induction false} FirstThree(p: Platform, m: Marks, rs: seq<Report>)
    requires AreUsable(p, rs) && forall key :: key in m ==> m[key] >= 3
    ensures |TableFrom(p, m, rs)| >= 3
    ensures var t := TableFrom(p, m, rs);
      && t[0].func == Other("rsmi_dev_count") && t[1].func == Other("rsmi_lib_version")
      && t[2].func == Other("rsmi_dev_driver_version_str_get")
      && forall k :: 0 <= k < 3 ==>
           && t[k].id == k && t[k].device == -1 && t[k].variant == -1 && t[k].subvariant == -1
           && t[k].name == p.name(t[k].func, -1, -1, -1) && t[k].mode == ReadOnly
  {
    if rs != [] {
      FirstThree(p, m, rs[..|rs| - 1]);
    }
  }

  // ----- the first build -----

  lemma {:induction false} MarkIsTaken(p: Platform, m: Marks, rs: seq<Report>, key: MergeKey) returns (i: nat)
    requires AreUsable(p, rs) && key in Keys(rs) && key !in m
    ensures Took(p, m.Keys, rs, i, MarksFrom(p, m, rs)[key]) && KeyOf(rs[i]) == Some(key)
  {
    var n := |rs| - 1;
    if key in Keys(rs[..n]) {
      i := MarkIsTaken(p, m, rs[..n], key);
      TookInPrefix(p, m.Keys, rs, n, i, MarksFrom(p, m, rs[..n])[key]);
    } else {
      i := n;
      assert rs[..n + 1] == rs;
      PartsOfMergeable(p, rs[n]);
    }
  }

  /** Two reports for one key are not both unmerged. */
  lemma FirstIsUnique(rs: seq<Report>, i: nat, j: nat)
    requires i < j < |rs| && KeyOf(rs[i]).Some? && KeyOf(rs[i]) == KeyOf(rs[j])
    ensures KeyOf(rs[j]).value in Keys(rs[..j])
  {
    assert KeyOf(rs[..j][i]) == KeyOf(rs[j]);
    KeyHasReport(rs[..j], KeyOf(rs[j]).value);
  }

  /** A report with a key takes one slot. */
  lemma KeyTakesOneSlot(p: Platform, m: Marks, rs: seq<Report>, i: nat, k: nat, l: nat)
    requires AreUsable(p, rs) && Took(p, m.Keys, rs, i, k) && Took(p, m.Keys, rs, i, l) && KeyOf(rs[i]).Some?
    ensures k == l
  {
    SizeAdds(p, m.Keys, rs, i);
    PartsOfMergeable(p, rs[i]);
  }

  /** The slot that report `i` took is marked for its key from then on. */
  lemma TookMarks(p: Platform, rs: seq<Report>, i: nat, j: nat, k: nat)
    requires AreUsable(p, rs) && i < j < |rs| && Took(p, NOTHING.Keys, rs, i, k) && KeyOf(rs[i]).Some?
    ensures KeyOf(rs[i]).value in Keys(rs[..j])
    ensures k == MarksFrom(p, NOTHING, rs[..j])[KeyOf(rs[i]).value] < SizeFrom(p, NOTHING.Keys, rs[..j])
  {
    var front, key := rs[..j], KeyOf(rs[i]).value;
    KeyHasReport(front, key);
    assert front[i] == rs[i];
    var slot := MarksFrom(p, NOTHING, front)[key];
    var first := MarkIsTaken(p, NOTHING, front, key);
    TookInPrefix(p, NOTHING.Keys, rs, j, first, slot);
    if first < i {
      FirstIsUnique(rs, first, i);
    } else if i < first {
      FirstIsUnique(rs, i, first);
    }
    KeyTakesOneSlot(p, NOTHING, rs, i, k, slot);
  }

  /** A setter that found slot `k` marked is about what report `i` took it for. */
  lemma FirstTook(p: Platform, rs: seq<Report>, j: nat, i: nat, k: nat)
    requires AreUsable(p, rs) && Took(p, NOTHING.Keys, rs, i, k) && SetsSlot(p, NOTHING, rs, j, k)
    ensures i < j && KeyOf(rs[i]) == KeyOf(rs[j])
  {
    var first := MarkIsTaken(p, NOTHING, rs[..j], KeyOf(rs[j]).value);
    TookInPrefix(p, NOTHING.Keys, rs, j, first, k);
    if i < first {
      TookLater(p, NOTHING.Keys, rs, first, i, k);
    } else if first < i {
      TookLater(p, NOTHING.Keys, rs, i, first, k);
    }
  }

  /** The first time the table is built, a slot becomes readable and writable if and only if a setter is
      reported after the report that took it, for the same thing. */
  lemma FirstBuildSets(p: Platform, rs: seq<Report>, i: nat, k: nat)
    requires AreUsable(p, rs) && Took(p, NOTHING.Keys, rs, i, k)
    ensures IsSet(p, NOTHING, rs, k) <==>
      exists j: nat :: i < j < |rs| && rs[j].func in {FanSpeedSet, PowerCapSet, PerfLevel("_set")}
                       && KeyOf(rs[i]).Some? && KeyOf(rs[j]) == KeyOf(rs[i])
  {
    if IsSet(p, NOTHING, rs, k) {
      var j: nat :| SetsSlot(p, NOTHING, rs, j, k);
      FirstTook(p, rs, j, i, k);
    }
    if j: nat :| i < j < |rs| && rs[j].func in {FanSpeedSet, PowerCapSet, PerfLevel("_set")}
                 && KeyOf(rs[i]).Some? && KeyOf(rs[j]) == KeyOf(rs[i]) {
      TookMarks(p, rs, i, j, k);
      assert SetsSlot(p, NOTHING, rs, j, k);
    }
  }
}
