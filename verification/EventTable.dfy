/** Building the native event table in two passes over what the devices report, and using it. */
module EventTable {
  import opened EventTableSpec
  import opened HTableSizing
  import H = HTable
  import opened HTableOps
  import opened Options

  datatype Errno = Ok | NoEvent | End | Invalid | ComponentBug

  datatype Modifier = EnumFirst | EnumEvents | EnumOther

  /** The memo arrays of one pass. An entry is the slot of a key once it has been seen, and zero
      before. */
  class Memo {
    var fanSpeed: seq<nat>
    var powerCap: seq<seq<nat>>
    var perfLevel: seq<nat>

    ghost predicate Valid()
      reads this
    {
      && |fanSpeed| == |powerCap| == |perfLevel| == MAX_DEVICES
      && forall d :: 0 <= d < MAX_DEVICES ==> |powerCap[d]| == MAX_SUBVARIANTS
    }

    constructor ()
      ensures Valid() && Holds(map[])
    {
      fanSpeed, perfLevel := seq(MAX_DEVICES, _ => 0), seq(MAX_DEVICES, _ => 0);
      powerCap := seq(MAX_DEVICES, _ => seq(MAX_SUBVARIANTS, _ => 0));
    }

    static predicate InRange(k: MergeKey) {
      k.dev < MAX_DEVICES && (k.Cap? ==> 0 <= k.sub < MAX_SUBVARIANTS)
    }

    function At(k: MergeKey): nat
      requires Valid() && InRange(k)
      reads this
    {
      match k
      case Fan(d) => fanSpeed[d]
      case Cap(d, s) => powerCap[d][s]
      case Perf(d) => perfLevel[d]
    }

    /** The entries are exactly the slots in `m`. */
    ghost predicate Holds(m: map<MergeKey, nat>)
      requires Valid()
      reads this
    {
      forall k {:trigger At(k)} :: InRange(k) ==> At(k) == if k in m then m[k] else 0
    }

    /** Exactly these keys have been seen. */
    ghost predicate Marks(keys: set<MergeKey>)
      requires Valid()
      reads this
    {
      forall k {:trigger At(k)} :: InRange(k) ==> (At(k) != 0 <==> k in keys)
    }

    /** The special cases of getting and setting: the first report of a key takes slot `n` and is
        handled like any other; later ones are merged. */
    method FirstSeen(k: MergeKey, n: nat) returns (first: bool)
      requires Valid() && InRange(k)
      modifies this
      ensures Valid() && first == (old(At(k)) == 0)
      ensures At(k) == if first then n else old(At(k))
      ensures forall j {:trigger At(j)} :: InRange(j) && j != k ==> At(j) == old(At(j))
    {
      match k
      case Fan(d) =>
        first := fanSpeed[d] == 0;
        if first {
          fanSpeed := fanSpeed[d := n];
        }
      case Cap(d, s) =>
        first := powerCap[d][s] == 0;
        if first {
          var row: seq<nat> := powerCap[d][s := n];
          powerCap := powerCap[d := row];
        }
      case Perf(d) =>
        first := perfLevel[d] == 0;
        if first {
          perfLevel := perfLevel[d := n];
        }
    }

    /** The same, when the entries are the slots in `m`. */
    method Mark(k: MergeKey, n: nat, ghost m: Marks) returns (first: bool)
      requires Valid() && InRange(k) && Holds(m) && AreSlots(m)
      modifies this
      ensures Valid() && first == (k !in m) && Holds(if first then m[k := n] else m)
      ensures !first ==> At(k) == m[k]
    {
      assert At(k) == if k in m then m[k] else 0;
      first := FirstSeen(k, n);
    }
  }

  lemma AppendNext<T>(t: seq<T>, added: seq<T>, i: nat)
    requires i < |added|
    ensures t + added[..i] + [added[i]] == t + added[..i + 1]
  {
    assert added[..i + 1] == added[..i] + [added[i]];
  }

  function LinkPart(i: nat): (int, int) {
    (i, -1)
  }

  function RatePart(j: nat): (int, int) {
    (PCI_BW_CURRENT + 1, j)
  }

  function LanePart(j: nat): (int, int) {
    (PCI_BW_LANE_IDX, j)
  }

  /** What reading the bandwidth of a PCIe link with transfer rates adds to a table. */
  lemma BandwidthEvents(p: Platform, r: Report, t: seq<NtvEvent>)
    requires IsUsable(p, r) && r.func.PciBandwidthGet? && p.rates[r.dev] != 0
    ensures var links, rates := PCI_BW_CURRENT + 1, p.rates[r.dev];
      t + NewEvents(p, r, |t|) == t + Chunk(p, r, |t|, links, LinkPart) + Chunk(p, r, |t| + links, rates, RatePart)
                                  + Chunk(p, r, |t| + links + rates, rates, LanePart)
  {
    var links, rates := PCI_BW_CURRENT + 1, p.rates[r.dev];
    var a, b := Chunk(p, r, |t|, links, LinkPart), Chunk(p, r, |t| + links, rates, RatePart);
    var c := Chunk(p, r, |t| + links + rates, rates, LanePart);
    var new_ := NewEvents(p, r, |t|);
    assert |new_| == links + rates + rates;
    forall i | 0 <= i < |new_|
      ensures new_[i] == (a + b + c)[i]
    {
      assert i < links ==> (a + b + c)[i] == a[i] && Parts(p, r)[i] == LinkPart(i);
      assert links <= i < links + rates ==> (a + b + c)[i] == b[i - links] && Parts(p, r)[i] == RatePart(i - links);
      assert i >= links + rates ==>
        (a + b + c)[i] == c[i - links - rates] && Parts(p, r)[i] == LanePart(i - links - rates);
    }
    assert new_ == a + b + c;
    assert t + (a + b + c) == t + a + b + c;
  }

  /** A new array of slots. */
  function Zeroed(n: nat): (slots: seq<NtvEvent>)
    ensures |slots| == n
  {
    seq(n, _ => NtvEvent(0, None, Other(""), 0, 0, 0, Other(""), ReadOnly))
  }

  class NtvTable {
    const platform: Platform
    const countMemo: Memo
    const fillMemo: Memo
    var count: nat
    var events: seq<NtvEvent>
    var htable: H.HashTable<nat>

    constructor (platform: Platform)
      ensures this.platform == platform
      ensures fresh(countMemo) && fresh(fillMemo) && countMemo != fillMemo
      ensures countMemo.Valid() && countMemo.Holds(map[]) && fillMemo.Valid() && fillMemo.Holds(map[])
      ensures count == 0 && events == []
      ensures Ready(htable) && htable.contents == map[]
      ensures fresh(htable) && fresh(htable.buckets) && fresh(htable.layout.succ.Keys)
    {
      this.platform := platform;
      countMemo := new Memo();
      fillMemo := new Memo();
      count, events := 0, [];
      var errno, handle := HtableInit<nat>();
      htable := handle;
    }

    /** The counting pass's view of the special cases: how many events a report expands to, or
        whether it is handled like any other. */
    method HandleSpecialEventsCount(r: Report, eventsCount: nat) returns (special: bool, eventsCount': nat)
      requires IsUsable(platform, r) && countMemo.Valid() && eventsCount > 0
      modifies countMemo
      ensures countMemo.Valid()
      ensures KeyOf(r).None? ==>
        && unchanged(countMemo) && special == !r.func.Other?
        && eventsCount' == eventsCount + if special then Counted(platform, r) else 0
      ensures KeyOf(r).Some? ==> (
        var k := KeyOf(r).value;
        && special == (old(countMemo.At(k)) != 0) && eventsCount' == eventsCount
        && countMemo.At(k) == (if special then old(countMemo.At(k)) else eventsCount)
        && forall j {:trigger countMemo.At(j)} :: Memo.InRange(j) && j != k ==> countMemo.At(j) == old(countMemo.At(j)))
    {
      eventsCount' := eventsCount;
      match r.func
      case PciThroughputGet => return true, eventsCount + PCI_THROUGHPUT_VARIANTS;
      case PowerProfilePresetsGet => return true, eventsCount + POWER_PRESETS_VARIANTS;
      case PowerCapRangeGet => return true, eventsCount + POWER_CAP_RANGE_VARIANTS;
      case EccCountGet => return true, eventsCount + ECC_COUNT_SUBVARIANTS;
      case PciBandwidthGet =>
        var rates := platform.rates[r.dev];
        if rates != 0 {
          eventsCount' := eventsCount' + PCI_BW_CURRENT + 1;
        }
        for i := 0 to PCI_BW_LANE_IDX - PCI_BW_CURRENT + 1
          invariant eventsCount' == eventsCount + (if rates != 0 then PCI_BW_CURRENT + 1 else 0) + i * rates
        {
          eventsCount' := eventsCount' + rates;
        }
        return true, eventsCount';
      case PciBandwidthSet =>
        return true, eventsCount + if platform.rates[r.dev] != 0 then 1 else 0;
      case GpuClkFreqGet =>
        var levels := platform.clocks[ClockIndex(r)];
        return true, eventsCount + levels + if levels != 0 then CLK_FREQ_SUBVARIANTS else 0;
      case GpuClkFreqSet =>
        return true, eventsCount + if platform.clocks[ClockIndex(r)] != 0 then 1 else 0;
      case FanSpeedGet | FanSpeedSet | PowerCapGet | PowerCapSet | PerfLevel(_) =>
        var first := countMemo.FirstSeen(KeyOf(r).value, eventsCount);
        return !first, eventsCount;
      case Other(_) =>
        return false, eventsCount;
    }

    /** Counts one report, when the keys in `seen` are marked. */
    method CountReport(r: Report, eventsCount: nat, ghost seen: set<MergeKey>) returns (eventsCount': nat)
      requires IsUsable(platform, r) && countMemo.Valid() && countMemo.Marks(seen) && eventsCount >= INFO_EVENTS
      modifies countMemo
      ensures countMemo.Valid() && countMemo.Marks(seen + (if KeyOf(r).Some? then {KeyOf(r).value} else {}))
      ensures eventsCount' == eventsCount + if IsMerged(seen, r) then 0 else Counted(platform, r)
    {
      PartsOfMergeable(platform, r);
      var special;
      special, eventsCount' := HandleSpecialEventsCount(r, eventsCount);
      if !special {
        var name := platform.name(r.func, r.dev, r.variant, r.subvariant);
        if name.Some? {
          eventsCount' := eventsCount' + 1;
        }
      }
    }

    /** The counting pass. Keys already marked by an earlier pass are not counted again. */
    method GetNtvEventsCount(reports: seq<Report>, ghost marked: set<MergeKey>) returns (eventsCount: nat)
      requires AreUsable(platform, reports) && countMemo.Valid() && countMemo.Marks(marked)
      modifies countMemo
      ensures countMemo.Valid() && countMemo.Marks(marked + Keys(reports))
      ensures eventsCount == CountFrom(platform, marked, reports)
    {
      eventsCount := INFO_EVENTS;
      assert marked + Keys(reports[..0]) == marked;
      for i := 0 to |reports|
        invariant countMemo.Valid() && countMemo.Marks(marked + Keys(reports[..i]))
        invariant eventsCount == CountFrom(platform, marked, reports[..i]) >= INFO_EVENTS
      {
        ghost var seen := marked + Keys(reports[..i]);
        KeysOneMore(platform, marked, reports, i);
        eventsCount := CountReport(reports[i], eventsCount, seen);
      }
      assert reports[..|reports|] == reports;
    }

    /** The first slots of the array hold `t`, and the hash table finds them by name. */
    ghost predicate Filled(t: seq<NtvEvent>)
      reads `events, `htable, htable, htable.buckets, htable.layout.succ.Keys
    {
      && |t| <= |events| <= MAX_ENTRIES
      && (forall step {:trigger Spelled(step)} :: Spelled(step) ==> Holds(t))
    }

    ghost predicate Holds(t: seq<NtvEvent>)
      reads `events, `htable, htable, htable.buckets, htable.layout.succ.Keys
    {
      && |t| <= |events| && (forall i :: 0 <= i < |t| ==> events[i] == t[i])
      && Ready(htable) && Indexes(htable.contents, t)
    }

    /** Always true. It is there for the proofs only: a predicate that is guarded by
        `forall step :: Spelled(step) ==> ...` says the same as what it guards, but the verifier
        unfolds it only where a proof says `assert Spelled(0)`, and passes it on unopened, and so
        cheaply, everywhere else. */
    static ghost predicate Spelled(step: int) {
      true
    }

    /** Writes the next slot and indexes it by name; an event without a name is not indexed. */
    method AddEvent(e: NtvEvent, ghost t: seq<NtvEvent>)
      requires Filled(t) && e.id == |t| < |events|
      modifies this`events, htable, htable.buckets, htable.layout.succ.Keys
      ensures Filled(t + [e]) && |events| == old(|events|)
      ensures htable.buckets == old(htable.buckets) || fresh(htable.buckets)
      ensures fresh(htable.layout.succ.Keys - old(htable.layout.succ.Keys))
    {
      assert Spelled(0);
      events := events[e.id := e];
      IndexOneMore(htable.contents, t, e);
      IndexEvent(e);
      assert Holds(t + [e]);
    }

    method IndexEvent(e: NtvEvent)
      requires Ready(htable) && |htable.contents| < MAX_ENTRIES
      modifies htable, htable.buckets, htable.layout.succ.Keys
      ensures Ready(htable) && htable.contents == Indexed(old(htable.contents), e)
      ensures htable.buckets == old(htable.buckets) || fresh(htable.buckets)
      ensures fresh(htable.layout.succ.Keys - old(htable.layout.succ.Keys))
    {
      var errno := HtableInsert(htable, e.name, e.id);
    }

    /** A loop that adds some consecutive events. */
    method AddAll(chunk: seq<NtvEvent>, ghost t: seq<NtvEvent>)
      requires Filled(t) && |t| + |chunk| <= |events|
      requires forall i :: 0 <= i < |chunk| ==> chunk[i].id == |t| + i
      modifies this`events, htable, htable.buckets, htable.layout.succ.Keys
      ensures |events| == old(|events|) && Filled(t + chunk)
      ensures htable.buckets == old(htable.buckets) || fresh(htable.buckets)
      ensures fresh(htable.layout.succ.Keys - old(htable.layout.succ.Keys))
    {
      assert t + chunk[..0] == t;
      for i := 0 to |chunk|
        invariant |events| == old(|events|) && Filled(t + chunk[..i])
        invariant htable.buckets == old(htable.buckets) || fresh(htable.buckets)
        invariant fresh(htable.layout.succ.Keys - old(htable.layout.succ.Keys))
      {
        AppendNext(t, chunk, i);
        AddEvent(chunk[i], t + chunk[..i]);
      }
      assert chunk[..|chunk|] == chunk;
    }

    lemma SameTable(t: seq<NtvEvent>, u: seq<NtvEvent>)
      requires Filled(t) && t == u
      ensures Filled(u)
    {
    }

    /** `n` consecutive events of a report. */
    method AddChunk(r: Report, n: nat, part: nat -> (int, int), ghost t: seq<NtvEvent>, id: nat)
      returns (ghost t': seq<NtvEvent>)
      requires Filled(t) && id == |t| && |t| + n <= |events|
      modifies this`events, htable, htable.buckets, htable.layout.succ.Keys
      ensures |events| == old(|events|) && t' == t + Chunk(platform, r, id, n, part) && Filled(t')
      ensures htable.buckets == old(htable.buckets) || fresh(htable.buckets)
      ensures fresh(htable.layout.succ.Keys - old(htable.layout.succ.Keys))
    {
      AddAll(Chunk(platform, r, id, n, part), t);
      t' := t + Chunk(platform, r, id, n, part);
    }

    /** Reports that are split into a fixed number of events. */
    method SplitFixed(r: Report, eventsCount: nat, ghost t: seq<NtvEvent>) returns (eventsCount': nat)
      requires IsUsable(platform, r)
      requires r.func in {PciThroughputGet, PowerProfilePresetsGet, PowerCapRangeGet, EccCountGet}
      requires eventsCount == |t| && |t| + |Parts(platform, r)| <= |events| && Filled(t)
      modifies this`events, htable, htable.buckets, htable.layout.succ.Keys
      ensures |events| == old(|events|) && Filled(t + NewEvents(platform, r, |t|))
      ensures eventsCount' == eventsCount + |Parts(platform, r)|
      ensures htable.buckets == old(htable.buckets) || fresh(htable.buckets)
      ensures fresh(htable.layout.succ.Keys - old(htable.layout.succ.Keys))
    {
      var chunk :=
        match r.func
        case PciThroughputGet => Chunk(platform, r, eventsCount, PCI_THROUGHPUT_VARIANTS, i => (i, -1))
        case PowerProfilePresetsGet => Chunk(platform, r, eventsCount, POWER_PRESETS_VARIANTS, i => (i, -1))
        case PowerCapRangeGet => Chunk(platform, r, eventsCount, POWER_CAP_RANGE_VARIANTS, i => (i, r.subvariant))
        case _ => Chunk(platform, r, eventsCount, ECC_COUNT_SUBVARIANTS, i => (r.variant, i));
      assert chunk == NewEvents(platform, r, |t|);
      AddAll(chunk, t);
      eventsCount' := eventsCount + |chunk|;
    }

    /** Reading the PCIe bandwidth: two events, then one for each rate, then one for each lane. */
    method SplitBandwidthGet(r: Report, eventsCount: nat, ghost t: seq<NtvEvent>) returns (eventsCount': nat)
      requires IsUsable(platform, r) && (r.func.PciBandwidthGet?)
      requires eventsCount == |t| && |t| + |Parts(platform, r)| <= |events| && Filled(t)
      modifies this`events, htable, htable.buckets, htable.layout.succ.Keys
      ensures |events| == old(|events|) && Filled(t + NewEvents(platform, r, |t|))
      ensures eventsCount' == eventsCount + |Parts(platform, r)|
      ensures htable.buckets == old(htable.buckets) || fresh(htable.buckets)
      ensures fresh(htable.layout.succ.Keys - old(htable.layout.succ.Keys))
    {
      var rates := platform.rates[r.dev];
      if rates == 0 {
        assert t + NewEvents(platform, r, |t|) == t;
        return eventsCount;
      }
      var n, links := eventsCount, PCI_BW_CURRENT + 1;
      ghost var t1 := AddChunk(r, links, LinkPart, t, n);
      ghost var t2 := AddChunk(r, rates, RatePart, t1, n + links);
      ghost var t3 := AddChunk(r, rates, LanePart, t2, n + links + rates);
      assert t3 == t + NewEvents(platform, r, |t|) by {
        BandwidthEvents(platform, r, t);
      }
      SameTable(t3, t + NewEvents(platform, r, |t|));
      eventsCount' := n + links + rates + rates;
    }

    /** Reading a clock: two events, then one for each level. */
    method SplitClockGet(r: Report, eventsCount: nat, ghost t: seq<NtvEvent>) returns (eventsCount': nat)
      requires IsUsable(platform, r) && (r.func.GpuClkFreqGet?)
      requires eventsCount == |t| && |t| + |Parts(platform, r)| <= |events| && Filled(t)
      modifies this`events, htable, htable.buckets, htable.layout.succ.Keys
      ensures |events| == old(|events|) && Filled(t + NewEvents(platform, r, |t|))
      ensures eventsCount' == eventsCount + |Parts(platform, r)|
      ensures htable.buckets == old(htable.buckets) || fresh(htable.buckets)
      ensures fresh(htable.layout.succ.Keys - old(htable.layout.succ.Keys))
    {
      var levels := platform.clocks[ClockIndex(r)];
      if levels == 0 {
        assert t + NewEvents(platform, r, |t|) == t;
        return eventsCount;
      }
      var n := eventsCount;
      var a := Chunk(platform, r, n, CLK_FREQ_SUBVARIANTS, i => (r.variant, i));
      var b := Chunk(platform, r, n + |a|, levels, i => (r.variant, CLK_FREQ_SUBVARIANTS + i));
      assert t + NewEvents(platform, r, |t|) == t + a + b;
      AddAll(a, t);
      AddAll(b, t + a);
      eventsCount' := n + |a| + |b|;
    }

    /** Setting the PCIe bandwidth or a clock: one event, if there is anything to set. */
    method SplitSetter(r: Report, eventsCount: nat, ghost t: seq<NtvEvent>) returns (eventsCount': nat)
      requires IsUsable(platform, r) && (r.func.PciBandwidthSet? || r.func.GpuClkFreqSet?)
      requires eventsCount == |t| && |t| + |Parts(platform, r)| <= |events| && Filled(t)
      modifies this`events, htable, htable.buckets, htable.layout.succ.Keys
      ensures |events| == old(|events|) && Filled(t + NewEvents(platform, r, |t|))
      ensures eventsCount' == eventsCount + |Parts(platform, r)|
      ensures htable.buckets == old(htable.buckets) || fresh(htable.buckets)
      ensures fresh(htable.layout.succ.Keys - old(htable.layout.succ.Keys))
    {
      var choices := if r.func.PciBandwidthSet? then platform.rates[r.dev] else platform.clocks[ClockIndex(r)];
      if choices == 0 {
        assert t + NewEvents(platform, r, |t|) == t;
        return eventsCount;
      }
      var subvariant := if r.func.PciBandwidthSet? then r.subvariant else -1;
      var e := EventOf(platform, r, eventsCount, (r.variant, subvariant));
      assert NewEvents(platform, r, |t|) == [e];
      AddEvent(e, t);
      eventsCount' := eventsCount + 1;
    }

    /** A setter whose getter, say, has been seen: the slot of that key becomes readable and writable.
        The array may not have that slot; such a write is not made, only reported. */
    method MergeSetter(slot: nat, func: Func, ghost t: seq<NtvEvent>) returns (ghost behind: bool)
      requires Filled(t)
      modifies this`events
      ensures |events| == old(|events|) && Filled(MergedInto(t, slot, func))
      ensures behind <==> slot >= |events|
    {
      behind := slot >= |events|;
      if slot < |events| {
        assert Spelled(0);
        IndexIgnoresModes(htable.contents, t, MergedInto(t, slot, func));
        events := events[slot := events[slot].(described := func, mode := ReadWrite)];
        assert Holds(MergedInto(t, slot, func));
      }
    }

    /** These reports, from these marks, have filled `n` slots. */
    ghost predicate Done(m: Marks, rs: seq<Report>, n: nat)
      requires AreUsable(platform, rs)
      reads this`events, this`htable, htable, htable.buckets, htable.layout.succ.Keys, fillMemo
    {
      && n == SizeFrom(platform, m.Keys, rs) && fillMemo.Valid() && fillMemo.Holds(MarksFrom(platform, m, rs))
      && Filled(TableFrom(platform, m, rs))
    }

    /** Reports that are split into several events. */
    method HandleSplit(r: Report, eventsCount: nat, ghost t: seq<NtvEvent>) returns (eventsCount': nat)
      requires IsUsable(platform, r) && KeyOf(r).None? && !r.func.Other?
      requires eventsCount == |t| && |t| + |Parts(platform, r)| <= |events| && Filled(t)
      modifies this`events, htable, htable.buckets, htable.layout.succ.Keys
      ensures |events| == old(|events|) && Filled(t + NewEvents(platform, r, |t|))
      ensures eventsCount' == eventsCount + |Parts(platform, r)|
      ensures htable.buckets == old(htable.buckets) || fresh(htable.buckets)
      ensures fresh(htable.layout.succ.Keys - old(htable.layout.succ.Keys))
    {
      match r.func {
        case PciThroughputGet | PowerProfilePresetsGet | PowerCapRangeGet | EccCountGet =>
          eventsCount' := SplitFixed(r, eventsCount, t);
        case PciBandwidthGet =>
          eventsCount' := SplitBandwidthGet(r, eventsCount, t);
        case GpuClkFreqGet =>
          eventsCount' := SplitClockGet(r, eventsCount, t);
        case PciBandwidthSet | GpuClkFreqSet =>
          eventsCount' := SplitSetter(r, eventsCount, t);
      }
    }

    /** The filling pass's view of the special cases. */
    method HandleSpecialEvents(eventsCount: nat, r: Report, ghost m: Marks, ghost rs: seq<Report>)
      returns (special: bool, eventsCount': nat, ghost behind: bool)
      requires AreUsable(platform, rs) && rs != [] && rs[|rs| - 1] == r && AreSlots(m)
      requires Done(m, rs[..|rs| - 1], eventsCount) && SizeFrom(platform, m.Keys, rs) <= |events|
      modifies this`events, htable, htable.buckets, htable.layout.succ.Keys, fillMemo
      ensures |events| == old(|events|)
      ensures behind <==> WritesBehind(m, rs, |events|, |rs| - 1)
      ensures fillMemo.Valid() && fillMemo.Holds(MarksFrom(platform, m, rs))
      ensures special ==> Filled(TableFrom(platform, m, rs)) && eventsCount' == SizeFrom(platform, m.Keys, rs)
      ensures !special ==>
        && Filled(TableFrom(platform, m, rs[..|rs| - 1])) && eventsCount' == eventsCount
        && !IsMerged(m.Keys + Keys(rs[..|rs| - 1]), r) && (KeyOf(r).Some? || r.func.Other?)
      ensures htable.buckets == old(htable.buckets) || fresh(htable.buckets)
      ensures fresh(htable.layout.succ.Keys - old(htable.layout.succ.Keys))
    {
      if KeyOf(r).Some? {
        special, behind := HandleMerge(eventsCount, r, m, rs);
        return special, eventsCount, behind;
      }
      if r.func.Other? {
        return false, eventsCount, false;
      }
      eventsCount' := HandleSplit(r, eventsCount, TableFrom(platform, m, rs[..|rs| - 1]));
      return true, eventsCount', false;
    }

    /** The special cases of getting and setting. */
    method HandleMerge(eventsCount: nat, r: Report, ghost m: Marks, ghost rs: seq<Report>)
      returns (special: bool, ghost behind: bool)
      requires AreUsable(platform, rs) && rs != [] && rs[|rs| - 1] == r && AreSlots(m) && KeyOf(r).Some?
      requires Done(m, rs[..|rs| - 1], eventsCount) && SizeFrom(platform, m.Keys, rs) <= |events|
      modifies this`events, fillMemo
      ensures |events| == old(|events|)
      ensures behind <==> WritesBehind(m, rs, |events|, |rs| - 1)
      ensures fillMemo.Valid() && fillMemo.Holds(MarksFrom(platform, m, rs))
      ensures special == IsMerged(m.Keys + Keys(rs[..|rs| - 1]), r)
      ensures special ==> Filled(TableFrom(platform, m, rs))
      ensures !special ==> Filled(TableFrom(platform, m, rs[..|rs| - 1]))
    {
      ghost var front := rs[..|rs| - 1];
      ghost var marks, t := MarksFrom(platform, m, front), TableFrom(platform, m, front);
      var k := KeyOf(r).value;
      MergeableOneMore(platform, m, rs);
      var first := fillMemo.Mark(k, eventsCount, marks);
      if first {
        return false, false;
      }
      behind := false;
      if IsSetter(r.func) {
        behind := MergeSetter(fillMemo.At(k), r.func, t);
      }
      return true, behind;
    }

    /** One step of the filling pass. */
    method FillReport(eventsCount: nat, r: Report, ghost m: Marks, ghost rs: seq<Report>)
      returns (eventsCount': nat, ghost behind: bool)
      requires AreUsable(platform, rs) && rs != [] && rs[|rs| - 1] == r && AreSlots(m)
      requires Done(m, rs[..|rs| - 1], eventsCount) && SizeFrom(platform, m.Keys, rs) <= |events|
      modifies this`events, htable, htable.buckets, htable.layout.succ.Keys, fillMemo
      ensures |events| == old(|events|) && Done(m, rs, eventsCount')
      ensures behind <==> WritesBehind(m, rs, |events|, |rs| - 1)
      ensures htable.buckets == old(htable.buckets) || fresh(htable.buckets)
      ensures fresh(htable.layout.succ.Keys - old(htable.layout.succ.Keys))
    {
      ghost var t := TableFrom(platform, m, rs[..|rs| - 1]);
      var special;
      special, eventsCount', behind := HandleSpecialEvents(eventsCount, r, m, rs);
      if !special {
        PartsOfMergeable(platform, r);
        var name := platform.name(r.func, r.dev, r.variant, r.subvariant);
        if name.Some? {
          var e := EventOf(platform, r, eventsCount, (r.variant, r.subvariant));
          assert NewEvents(platform, r, |t|) == [e];
          AddEvent(e, t);
          eventsCount' := eventsCount + 1;
        } else {
          assert t + NewEvents(platform, r, |t|) == t;
        }
      }
    }

    /** The loop's state after reports, in an array with room for all of them. */
    ghost predicate Filling(m: Marks, reports: seq<Report>, i: nat, n: nat, behind: bool)
      requires AreUsable(platform, reports) && i <= |reports|
      reads this`events, this`htable, htable, htable.buckets, htable.layout.succ.Keys, fillMemo
    {
      && AreSlots(m)
      && (forall step {:trigger Spelled(step)} :: Spelled(step) ==>
            && Done(m, reports[..i], n) && SizeFrom(platform, m.Keys, reports) <= |events|
            && (behind <==> SomeWriteBehind(m, reports[..i], |events|)))
    }

    method FillNext(eventsCount: nat, reports: seq<Report>, i: nat, ghost m: Marks, ghost before: bool)
      returns (eventsCount': nat, ghost behind: bool)
      requires AreUsable(platform, reports) && i < |reports| && Filling(m, reports, i, eventsCount, before)
      modifies this`events, htable, htable.buckets, htable.layout.succ.Keys, fillMemo
      ensures |events| == old(|events|) && Filling(m, reports, i + 1, eventsCount', behind)
      ensures htable.buckets == old(htable.buckets) || fresh(htable.buckets)
      ensures fresh(htable.layout.succ.Keys - old(htable.layout.succ.Keys))
    {
      ghost var rs := reports[..i + 1];
      assert Spelled(0) && rs[..i] == reports[..i] && rs[i] == reports[i];
      SizesGrow(platform, m.Keys, reports, i + 1);
      ghost var now;
      eventsCount', now := FillReport(eventsCount, reports[i], m, rs);
      OneMoreReportWrites(m, reports, |events|, i);
      behind := before || now;
      assert behind <==> SomeWriteBehind(m, rs, |events|);
    }

    lemma NothingFilled(m: Marks, reports: seq<Report>)
      requires AreUsable(platform, reports) && SizeFrom(platform, m.Keys, reports) <= |events| <= MAX_ENTRIES
      requires fillMemo.Valid() && fillMemo.Holds(m) && AreSlots(m) && Filled(InfoEvents(platform))
      ensures Filling(m, reports, 0, INFO_EVENTS, false)
    {
      assert reports[..0] == [] && MarksFrom(platform, m, []) == m;
      assert TableFrom(platform, m, []) == InfoEvents(platform);
    }

    lemma AllFilled(m: Marks, reports: seq<Report>, n: nat, behind: bool)
      requires AreUsable(platform, reports) && Filling(m, reports, |reports|, n, behind)
      ensures Filled(TableFrom(platform, m, reports)) && n == SizeFrom(platform, m.Keys, reports)
      ensures fillMemo.Valid() && fillMemo.Holds(MarksFrom(platform, m, reports))
      ensures behind <==> SomeWriteBehind(m, reports, |events|)
    {
      assert Spelled(0) && reports[..|reports|] == reports;
    }

    /** The filling pass over a zeroed array, from whatever marks earlier passes have left. It succeeds
        when it fills the array exactly. It writes behind the array if and only if it meets a setter
        with a mark beyond it. */
    method GetNtvEvents(reports: seq<Report>, ghost m: Marks) returns (errno: Errno, ghost behind: bool)
      requires AreUsable(platform, reports) && SizeFrom(platform, m.Keys, reports) <= |events| <= MAX_ENTRIES
      requires fillMemo.Valid() && fillMemo.Holds(m) && AreSlots(m)
      requires Ready(htable) && htable.contents == map[]
      modifies this`events, htable, htable.buckets, htable.layout.succ.Keys, fillMemo
      ensures |events| == old(|events|) && Filled(TableFrom(platform, m, reports))
      ensures fillMemo.Valid() && fillMemo.Holds(MarksFrom(platform, m, reports))
      ensures errno == if SizeFrom(platform, m.Keys, reports) == |events| then Ok else ComponentBug
      ensures behind <==> SomeWriteBehind(m, reports, |events|)
    {
      AddInfoEvents();
      NothingFilled(m, reports);
      var eventsCount;
      eventsCount, behind := FillAll(INFO_EVENTS, reports, m);
      AllFilled(m, reports, eventsCount, behind);
      errno := if eventsCount - |events| != 0 then ComponentBug else Ok;
    }

    /** The loop over the reports. */
    method FillAll(infoEvents: nat, reports: seq<Report>, ghost m: Marks)
      returns (eventsCount: nat, ghost behind: bool)
      requires AreUsable(platform, reports) && Filling(m, reports, 0, infoEvents, false)
      modifies this`events, htable, htable.buckets, htable.layout.succ.Keys, fillMemo
      ensures |events| == old(|events|) && Filling(m, reports, |reports|, eventsCount, behind)
      ensures htable.buckets == old(htable.buckets) || fresh(htable.buckets)
      ensures fresh(htable.layout.succ.Keys - old(htable.layout.succ.Keys))
    {
      eventsCount, behind := infoEvents, false;
      for i := 0 to |reports|
        invariant |events| == old(|events|) && Filling(m, reports, i, eventsCount, behind)
        invariant htable.buckets == old(htable.buckets) || fresh(htable.buckets)
        invariant fresh(htable.layout.succ.Keys - old(htable.layout.succ.Keys))
      {
        eventsCount, behind := FillNext(eventsCount, reports, i, m, behind);
      }
    }

    /** The events that every table starts with. */
    method AddInfoEvents()
      requires INFO_EVENTS <= |events| <= MAX_ENTRIES
      requires Ready(htable) && htable.contents == map[]
      modifies this`events, htable, htable.buckets, htable.layout.succ.Keys
      ensures |events| == old(|events|) && Filled(InfoEvents(platform))
      ensures htable.buckets == old(htable.buckets) || fresh(htable.buckets)
      ensures fresh(htable.layout.succ.Keys - old(htable.layout.succ.Keys))
    {
      assert Indexes(htable.contents, []);
      assert Holds([]);
      AddAll(InfoEvents(platform), []);
      assert [] + InfoEvents(platform) == InfoEvents(platform);
    }

    /** Builds the table in two passes, from whatever marks earlier builds have left. It comes out right
        exactly when no reported PCIe link has transfer rates. */
    method InitEventTable(reports: seq<Report>, ghost m: Marks) returns (errno: Errno, ghost behind: bool)
      requires AreUsable(platform, reports) && CountFrom(platform, m.Keys, reports) <= MAX_ENTRIES
      requires countMemo.Valid() && countMemo.Marks(m.Keys) && fillMemo.Valid() && fillMemo.Holds(m) && AreSlots(m)
      requires countMemo != fillMemo && count == 0
      requires Ready(htable) && htable.contents == map[]
      modifies this`count, this`events, htable, htable.buckets, htable.layout.succ.Keys, countMemo, fillMemo
      ensures errno == if NoRates(platform, reports) then Ok else ComponentBug
      ensures errno == Ok ==> IsBuilt() && events == TableFrom(platform, m, reports)
      ensures errno != Ok ==> count == 0 && events == []
      ensures behind <==> SomeWriteBehind(m, reports, CountFrom(platform, m.Keys, reports))
      ensures countMemo.Valid() && countMemo.Marks(m.Keys + Keys(reports))
      ensures fillMemo.Valid() && fillMemo.Holds(MarksFrom(platform, m, reports))
    {
      var ntvEventsCount := GetNtvEventsCount(reports, m.Keys);
      errno, behind := AllocateAndFill(ntvEventsCount, reports, m);
    }

    /** The rest of `InitEventTable`, once the events are counted. */
    method AllocateAndFill(ntvEventsCount: nat, reports: seq<Report>, ghost m: Marks)
      returns (errno: Errno, ghost behind: bool)
      requires AreUsable(platform, reports) && ntvEventsCount == CountFrom(platform, m.Keys, reports) <= MAX_ENTRIES
      requires fillMemo.Valid() && fillMemo.Holds(m) && AreSlots(m) && count == 0
      requires Ready(htable) && htable.contents == map[]
      modifies this`count, this`events, htable, htable.buckets, htable.layout.succ.Keys, fillMemo
      ensures errno == if NoRates(platform, reports) then Ok else ComponentBug
      ensures errno == Ok ==> IsBuilt() && events == TableFrom(platform, m, reports)
      ensures errno != Ok ==> count == 0 && events == []
      ensures behind <==> SomeWriteBehind(m, reports, ntvEventsCount)
      ensures fillMemo.Valid() && fillMemo.Holds(MarksFrom(platform, m, reports))
    {
      CountSuffices(platform, m.Keys, reports);
      events := Zeroed(ntvEventsCount);
      errno, behind := Fill(ntvEventsCount, reports, m);
    }

    /** Fills the array that has been allocated. */
    method Fill(ntvEventsCount: nat, reports: seq<Report>, ghost m: Marks) returns (errno: Errno, ghost behind: bool)
      requires AreUsable(platform, reports) && count == 0
      requires SizeFrom(platform, m.Keys, reports) <= ntvEventsCount == |events| <= MAX_ENTRIES
      requires fillMemo.Valid() && fillMemo.Holds(m) && AreSlots(m)
      requires Ready(htable) && htable.contents == map[]
      modifies this`count, this`events, htable, htable.buckets, htable.layout.succ.Keys, fillMemo
      ensures errno == if SizeFrom(platform, m.Keys, reports) == ntvEventsCount then Ok else ComponentBug
      ensures errno == Ok ==> IsBuilt() && events == TableFrom(platform, m, reports)
      ensures errno != Ok ==> count == 0 && events == []
      ensures behind <==> SomeWriteBehind(m, reports, ntvEventsCount)
      ensures fillMemo.Valid() && fillMemo.Holds(MarksFrom(platform, m, reports))
    {
      errno, behind := GetNtvEvents(reports, m);
      Conclude(errno, ntvEventsCount, m, reports);
    }

    /** What shutting down and initialising again leave: no array, and a new hash table. The memo arrays
        are as they were. The end of the old hash table is `HtableShutdown`. */
    method Reopen()
      modifies this`count, this`events, this`htable
      ensures count == 0 && events == [] && Ready(htable) && htable.contents == map[]
      ensures fresh(htable) && fresh(htable.buckets) && fresh(htable.layout.succ.Keys)
    {
      var errno, handle := HtableInit<nat>();
      count, events, htable := 0, [], handle;
    }

    /** Makes the filled array the table, or gives it up. */
    method Conclude(errno: Errno, ntvEventsCount: nat, ghost m: Marks, ghost reports: seq<Report>)
      requires AreUsable(platform, reports) && Filled(TableFrom(platform, m, reports)) && count == 0
      requires errno == Ok ==> ntvEventsCount == |events| == SizeFrom(platform, m.Keys, reports)
      modifies this`count, this`events
      ensures errno == Ok ==> IsBuilt() && events == TableFrom(platform, m, reports)
      ensures errno != Ok ==> count == 0 && events == []
    {
      if errno != Ok {
        events := [];
        return;
      }
      ghost var t := TableFrom(platform, m, reports);
      assert forall i :: 0 <= i < |t| ==> t[i].id == i by {
        IdsAreIndices(platform, m, reports);
      }
      assert Spelled(0) && Holds(t);
      assert events == t;
      count := ntvEventsCount;
    }

    /** A finished table: slots carry their own number and are found by name. */
    ghost predicate IsBuilt()
      reads this, htable, htable.buckets, htable.layout.succ.Keys
    {
      && count == |events| && INFO_EVENTS <= count <= MAX_ENTRIES
      && (forall i :: 0 <= i < count ==> events[i].id == i)
      && Ready(htable) && Indexes(htable.contents, events)
    }

    /** The event number of a name; of several events with one name, the last. */
    method EvtNameToCode(name: string) returns (errno: Errno, code: nat)
      requires IsBuilt()
      ensures errno == NoEvent <==> forall i :: 0 <= i < count ==> events[i].name != Some(name)
      ensures errno == Ok ==>
        && code < count && events[code].name == Some(name)
        && forall j :: code < j < count ==> events[j].name != Some(name)
      ensures errno in {Ok, NoEvent}
    {
      assert FindsLast(htable.contents, events, name);
      var out := new Cell<nat>();
      var htableErrno := HtableFind(htable, Some(name), out);
      if htableErrno != H.Success {
        return if htableErrno == H.NoValue then NoEvent else ComponentBug, 0;
      }
      return Ok, events[out.val.value].id;
    }

    /** As much of an event's name as the caller has room for. */
    method EvtCodeToName(code: nat, len: nat) returns (errno: Errno, name: Option<string>)
      requires IsBuilt()
      ensures errno == if code < count then Ok else Invalid
      ensures errno == Ok ==>
        match events[code].name
        case None => name == None
        case Some(full) => name.Some? && name.value <= full && |name.value| == if |full| < len then |full| else len
    {
      if code >= count {
        return Invalid, None;
      }
      name := events[code].name;
      if name.Some? && |name.value| > len {
        name := Some(name.value[..len]);
      }
      errno := Ok;
    }

    /** From a code to a name and back: if the name is not cut, the same code, unless a later event
        has the same name. */
    method EvtRoundTrip(code: nat, len: nat) returns (errno: Errno, code': nat)
      requires IsBuilt() && code < count && events[code].name.Some?
      ensures |events[code].name.value| <= len ==>
        && errno == Ok && code <= code' < count && events[code'].name == events[code].name
        && (code' == code <==> forall j :: code < j < count ==> events[j].name != events[code].name)
    {
      var name;
      errno, name := EvtCodeToName(code, len);
      ghost var full := events[code].name.value;
      assert name.value == full[..|name.value|] && full == full[..|full|];
      errno, code' := EvtNameToCode(name.value);
    }

    /** Moves a code to the first or to the next event. */
    method EvtEnum(code: nat, modifier: Modifier) returns (errno: Errno, code': nat)
      requires code < UINT32 && count < UINT32
      ensures modifier == EnumFirst ==> code' == 0 && errno == if count == 0 then NoEvent else Ok
      ensures modifier == EnumEvents ==>
        && errno == (if (code + 1) % UINT32 < count then Ok else End)
        && code' == if errno == Ok then (code + 1) % UINT32 else code
      ensures modifier == EnumOther ==> errno == Invalid && code' == code
    {
      code' := code;
      match modifier
      case EnumFirst =>
        return if count == 0 then NoEvent else Ok, 0;
      case EnumEvents =>
        if (code + 1) % UINT32 < count {
          return Ok, (code + 1) % UINT32;
        }
        return End, code;
      case EnumOther =>
        return Invalid, code;
    }

    /** Counts events by enumerating them; `visited` are the codes in the order they come. */
    method EvtGetCount(counted: nat) returns (total: nat, ghost visited: seq<nat>)
      requires count < UINT32
      ensures total == counted + count
      ensures visited == seq(count, i => i)
    {
      total := counted;
      visited := [];
      var errno, code := EvtEnum(0, EnumFirst);
      if errno == Ok {
        total := total + 1;
        visited := [0];
      }
      errno, code := EvtEnum(code, EnumEvents);
      while errno == Ok
        invariant if errno == Ok then code == |visited| < count else |visited| == count
        invariant visited == seq(|visited|, i => i) && total == counted + |visited|
        decreases count - |visited|, if errno == Ok then 1 else 0
      {
        total := total + 1;
        visited := visited + [code];
        errno, code := EvtEnum(code, EnumEvents);
      }
    }
  }

  /** One device whose fan speed can be read and set, and nothing else: its table is built, the
      component shut down and initialised again. */
  method FanSpeedTableReopened(p: Platform) returns (table: NtvTable, built: Errno)
    requires AreUsable(p, [FAN_GET, FAN_SET])
    ensures built == Ok && table.platform == p && table.count == 0 && fresh(table)
    ensures fresh(table.countMemo) && fresh(table.fillMemo) && table.countMemo != table.fillMemo
    ensures fresh(table.htable) && fresh(table.htable.buckets) && fresh(table.htable.layout.succ.Keys)
    ensures table.countMemo.Valid() && table.countMemo.Marks(Keys([FAN_GET, FAN_SET]))
    ensures table.fillMemo.Valid() && table.fillMemo.Holds(MarksFrom(p, NOTHING, [FAN_GET, FAN_SET]))
    ensures Ready(table.htable) && table.htable.contents == map[]
  {
    var reports := [FAN_GET, FAN_SET];
    FanSpeedTable(p);
    CountSuffices(p, NOTHING.Keys, reports);
    assert NOTHING.Keys == {} && {} + Keys(reports) == Keys(reports);
    table := new NtvTable(p);
    ghost var behind;
    built, behind := table.InitEventTable(reports, NOTHING);
    table.Reopen();
  }

  /** The second build writes behind its array. */
  method FanSpeedTableTwice(p: Platform) returns (first: Errno, second: Errno, ghost behind: bool)
    requires AreUsable(p, [FAN_GET, FAN_SET])
    ensures first == Ok && second == Ok && behind
  {
    FanSpeedTable(p);
    FanSpeedWritesBehind(p);
    var table;
    table, first := FanSpeedTableReopened(p);
    ghost var m := MarksFrom(p, NOTHING, [FAN_GET, FAN_SET]);
    assert m.Keys == Keys([FAN_GET, FAN_SET]);
    second, behind := table.InitEventTable([FAN_GET, FAN_SET], m);
  }
}
