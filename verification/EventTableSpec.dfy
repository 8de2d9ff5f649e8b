/** What the native event table should hold, as a function of what the devices report. */
module EventTableSpec {

  import opened Options

  /** The names of reported functions, as far as they are told apart. `PerfLevel` stands for every
      name that starts with the performance-level prefix. */
  datatype Func =
    | PciThroughputGet | PowerProfilePresetsGet | PowerCapRangeGet | EccCountGet
    | PciBandwidthGet | PciBandwidthSet | GpuClkFreqGet | GpuClkFreqSet
    | FanSpeedGet | FanSpeedSet | PowerCapGet | PowerCapSet | PerfLevel(suffix: string)
    | Other(name: string)

  /** One supported function of a device; -1 where it has no variant or subvariant. */
  datatype Report = Report(dev: nat, func: Func, variant: int, subvariant: int)

  datatype Mode = ReadOnly | WriteOnly | ReadWrite

  datatype NtvEvent = NtvEvent(id: nat, name: Option<string>, func: Func, device: int, variant: int, subvariant: int,
                               described: Func, mode: Mode)

  const PCI_THROUGHPUT_VARIANTS: nat := 3
  const POWER_PRESETS_VARIANTS: nat := 3
  const POWER_CAP_RANGE_VARIANTS: nat := 2
  const ECC_COUNT_SUBVARIANTS: nat := 2
  const CLK_FREQ_VARIANTS: nat := 5
  const CLK_FREQ_SUBVARIANTS: nat := 2
  const PCI_BW_CURRENT: nat := 1
  const PCI_BW_LANE_IDX: nat := 3
  const INFO_EVENTS: nat := 3
  const MAX_DEVICES: nat := 32
  const MAX_SUBVARIANTS: nat := 32

  /** What is known of the devices: how events are named, how many levels each clock has, and how
      many transfer rates each PCIe link has. */
  datatype Platform = Platform(
    name: (Func, int, int, int) -> Option<string>,
    mode: Func -> Mode,
    clocks: seq<nat>,
    rates: seq<nat>)

  /** Reports with the same key describe one event: getting and setting the same thing. */
  datatype MergeKey = Fan(dev: nat) | Cap(dev: nat, sub: int) | Perf(dev: nat)

  function KeyOf(r: Report): Option<MergeKey> {
    match r.func
    case FanSpeedGet | FanSpeedSet => Some(Fan(r.dev))
    case PowerCapGet | PowerCapSet => Some(Cap(r.dev, r.subvariant))
    case PerfLevel(_) => Some(Perf(r.dev))
    case _ => None
  }

  /** Fan speeds, power caps and performance levels have keys; two reports have the same one if and only if
      they are about the same of these, of the same device, and of the same subvariant for power caps. */
  lemma KeysTellApart(a: Report, b: Report)
    ensures KeyOf(a).Some? <==>
      a.func in {FanSpeedGet, FanSpeedSet, PowerCapGet, PowerCapSet} || a.func.PerfLevel?
    ensures KeyOf(a).Some? && KeyOf(a) == KeyOf(b) <==>
      && a.dev == b.dev
      && ((a.func in {FanSpeedGet, FanSpeedSet} && b.func in {FanSpeedGet, FanSpeedSet})
          || (a.func in {PowerCapGet, PowerCapSet} && b.func in {PowerCapGet, PowerCapSet}
              && a.subvariant == b.subvariant)
          || (a.func.PerfLevel? && b.func.PerfLevel?))
  {
  }

  predicate IsSetter(f: Func) {
    f.FanSpeedSet? || f.PowerCapSet? || f == PerfLevel("_set")
  }

  function ClockIndex(r: Report): int {
    r.dev * CLK_FREQ_VARIANTS + r.variant
  }

  /** Reports that stay within the tables they index. The functions that are merged all have names. */
  predicate IsUsable(p: Platform, r: Report) {
    && r.dev < MAX_DEVICES && r.dev < |p.rates|
    && (r.func.GpuClkFreqGet? || r.func.GpuClkFreqSet? ==> 0 <= ClockIndex(r) < |p.clocks|)
    && (r.func.PowerCapGet? || r.func.PowerCapSet? ==> 0 <= r.subvariant < MAX_SUBVARIANTS)
    && (KeyOf(r).Some? ==> p.name(r.func, r.dev, r.variant, r.subvariant).Some?)
  }

  predicate AreUsable(p: Platform, rs: seq<Report>) {
    forall i :: 0 <= i < |rs| ==> IsUsable(p, rs[i])
  }

  /** The (variant, subvariant) pairs a report that is not merged away expands to. */
  function Parts(p: Platform, r: Report): (s: seq<(int, int)>)
    requires IsUsable(p, r)
  {
    match r.func
    case PciThroughputGet => seq(PCI_THROUGHPUT_VARIANTS, i => (i, -1))
    case PowerProfilePresetsGet => seq(POWER_PRESETS_VARIANTS, i => (i, -1))
    case PowerCapRangeGet => seq(POWER_CAP_RANGE_VARIANTS, i => (i, r.subvariant))
    case EccCountGet => seq(ECC_COUNT_SUBVARIANTS, i => (r.variant, i))
    case PciBandwidthGet =>
      var n := p.rates[r.dev];
      if n == 0 then []
      else
        seq(PCI_BW_CURRENT + 1, i => (i, -1)) + seq(n, j => (PCI_BW_CURRENT + 1, j))
        + seq(n, j => (PCI_BW_LANE_IDX, j))
    case PciBandwidthSet => if p.rates[r.dev] == 0 then [] else [(r.variant, r.subvariant)]
    case GpuClkFreqGet =>
      var n := p.clocks[ClockIndex(r)];
      if n == 0 then [] else seq(CLK_FREQ_SUBVARIANTS + n, i => (r.variant, i))
    case GpuClkFreqSet => if p.clocks[ClockIndex(r)] == 0 then [] else [(r.variant, -1)]
    case _ => if p.name(r.func, r.dev, r.variant, r.subvariant).None? then [] else [(r.variant, r.subvariant)]
  }

  function ModeOf(p: Platform, f: Func): Mode {
    match f
    case PciBandwidthSet | GpuClkFreqSet => WriteOnly
    case PciThroughputGet | PowerProfilePresetsGet | PowerCapRangeGet => ReadOnly
    case EccCountGet | PciBandwidthGet | GpuClkFreqGet => ReadOnly
    case _ => p.mode(f)
  }

  function EventOf(p: Platform, r: Report, id: nat, part: (int, int)): NtvEvent {
    NtvEvent(id, p.name(r.func, r.dev, part.0, part.1), r.func, r.dev, part.0, part.1, r.func, ModeOf(p, r.func))
  }

  /** The events of a report that is not merged away, numbered from `id` on. */
  function NewEvents(p: Platform, r: Report, id: nat): (s: seq<NtvEvent>)
    requires IsUsable(p, r)
    ensures |s| == |Parts(p, r)|
    ensures forall i :: 0 <= i < |s| ==> s[i] == EventOf(p, r, id + i, Parts(p, r)[i])
  {
    seq(|Parts(p, r)|, i requires 0 <= i < |Parts(p, r)| => EventOf(p, r, id + i, Parts(p, r)[i]))
  }

  /** `n` consecutive events of a report, numbered from `id` on. */
  function Chunk(p: Platform, r: Report, id: nat, n: nat, part: nat -> (int, int)): (s: seq<NtvEvent>)
    ensures |s| == n
    ensures forall i :: 0 <= i < n ==> s[i] == EventOf(p, r, id + i, part(i))
  {
    seq(n, i requires 0 <= i < n => EventOf(p, r, id + i, part(i)))
  }

  const INFO_FUNCS: seq<Func> :=
    [Other("rsmi_dev_count"), Other("rsmi_lib_version"), Other("rsmi_dev_driver_version_str_get")]

  /** The events that every table starts with. */
  function InfoEvents(p: Platform): (s: seq<NtvEvent>)
    ensures |s| == INFO_EVENTS
  {
    seq(INFO_EVENTS, i requires 0 <= i < INFO_EVENTS =>
      NtvEvent(i, p.name(INFO_FUNCS[i], -1, -1, -1), INFO_FUNCS[i], -1, -1, -1, INFO_FUNCS[i], ReadOnly))
  }

  function Keys(rs: seq<Report>): set<MergeKey> {
    if rs == [] then {}
    else Keys(rs[..|rs| - 1]) + (if KeyOf(rs[|rs| - 1]).Some? then {KeyOf(rs[|rs| - 1]).value} else {})
  }

  /** A report whose key has been reported before. */
  predicate IsMerged(seen: set<MergeKey>, r: Report) {
    KeyOf(r).Some? && KeyOf(r).value in seen
  }

  /** What the memo arrays hold: the slot of each key seen so far. They outlive the table. */
  type Marks = map<MergeKey, nat>

  /** A key that has been seen has a slot that is not the first. */
  predicate AreSlots(m: Marks) {
    forall k :: k in m ==> m[k] != 0
  }

  /** The number of table slots that reports take up, when the keys in `seen` were already marked. */
  function SizeFrom(p: Platform, seen: set<MergeKey>, rs: seq<Report>): (n: nat)
    requires AreUsable(p, rs)
    ensures n >= INFO_EVENTS
  {
    if rs == [] then INFO_EVENTS
    else
      var front, r := rs[..|rs| - 1], rs[|rs| - 1];
      SizeFrom(p, seen, front) + if IsMerged(seen + Keys(front), r) then 0 else |Parts(p, r)|
  }

  /** The marks after reports: a key that had none gets the slot of its first report. */
  function MarksFrom(p: Platform, m: Marks, rs: seq<Report>): (marks: Marks)
    requires AreUsable(p, rs)
    ensures marks.Keys == m.Keys + Keys(rs)
    ensures forall k :: k in m ==> marks[k] == m[k]
    ensures forall k :: k in marks && k !in m ==> INFO_EVENTS <= marks[k] < SizeFrom(p, m.Keys, rs)
  {
    if rs == [] then m
    else
      var front, r := rs[..|rs| - 1], rs[|rs| - 1];
      var marks := MarksFrom(p, m, front);
      if KeyOf(r).None? || KeyOf(r).value in marks then marks
      else PartsOfMergeable(p, r); marks[KeyOf(r).value := SizeFrom(p, m.Keys, front)]
  }

  /** The native event table that reports make, from given marks. Merged reports add no slot; a
      merged setter turns the marked slot into a readable and writable event with the setter's
      description. A slot that is not filled yet loses that change when it is. */
  function TableFrom(p: Platform, m: Marks, rs: seq<Report>): (t: seq<NtvEvent>)
    requires AreUsable(p, rs)
    ensures |t| == SizeFrom(p, m.Keys, rs)
  {
    if rs == [] then InfoEvents(p)
    else
      var front, r := rs[..|rs| - 1], rs[|rs| - 1];
      var t := TableFrom(p, m, front);
      if !IsMerged(m.Keys + Keys(front), r) then t + NewEvents(p, r, |t|)
      else if !IsSetter(r.func) then t
      else MergedInto(t, MarksFrom(p, m, front)[KeyOf(r).value], r.func)
  }

  /** What one more report of a key does. */
  lemma MergeableOneMore(p: Platform, m: Marks, rs: seq<Report>)
    requires AreUsable(p, rs) && rs != [] && KeyOf(rs[|rs| - 1]).Some?
    ensures var front, r := rs[..|rs| - 1], rs[|rs| - 1];
      var k, marks, t := KeyOf(r).value, MarksFrom(p, m, front), TableFrom(p, m, front);
      if k in marks
      then
        && MarksFrom(p, m, rs) == marks
        && TableFrom(p, m, rs) == if IsSetter(r.func) then MergedInto(t, marks[k], r.func) else t
      else MarksFrom(p, m, rs) == marks[k := |t|]
  {
  }

  function MergedInto(t: seq<NtvEvent>, slot: nat, func: Func): (u: seq<NtvEvent>)
    ensures |u| == |t|
  {
    if slot < |t| then t[slot := t[slot].(described := func, mode := ReadWrite)] else t
  }

  const NOTHING: Marks := map[]

  /** The first time the table is built nothing is marked. */
  function Size(p: Platform, rs: seq<Report>): nat
    requires AreUsable(p, rs)
  {
    SizeFrom(p, {}, rs)
  }

  function Table(p: Platform, rs: seq<Report>): (t: seq<NtvEvent>)
    requires AreUsable(p, rs)
    ensures |t| == Size(p, rs)
  {
    assert NOTHING.Keys == {};
    TableFrom(p, NOTHING, rs)
  }

  /** The slot of a key: the one its first report took. */
  function SlotOf(p: Platform, rs: seq<Report>, k: MergeKey): (slot: nat)
    requires AreUsable(p, rs) && k in Keys(rs)
    ensures INFO_EVENTS <= slot < Size(p, rs)
  {
    assert NOTHING.Keys == {};
    MarksFrom(p, NOTHING, rs)[k]
  }

  lemma TableOneMore(p: Platform, rs: seq<Report>)
    requires AreUsable(p, rs) && rs != []
    ensures var front, r := rs[..|rs| - 1], rs[|rs| - 1];
      && Table(p, rs) == (if !IsMerged(Keys(front), r) then Table(p, front) + NewEvents(p, r, Size(p, front))
                          else if !IsSetter(r.func) then Table(p, front)
                          else MergedInto(Table(p, front), SlotOf(p, front, KeyOf(r).value), r.func))
      && (forall k :: k in Keys(rs) ==>
            SlotOf(p, rs, k) == if k in Keys(front) then SlotOf(p, front, k) else Size(p, front))
  {
    assert NOTHING.Keys + Keys(rs[..|rs| - 1]) == Keys(rs[..|rs| - 1]);
  }

  // ----- the counting pass -----

  /** What the counting pass adds for a report that is not merged: one slot for each event, and
      for a PCIe bandwidth report one more for each transfer rate. */
  function Counted(p: Platform, r: Report): nat
    requires IsUsable(p, r)
  {
    |Parts(p, r)| + Excess(p, r)
  }

  function Excess(p: Platform, r: Report): nat
    requires IsUsable(p, r)
  {
    if r.func.PciBandwidthGet? then p.rates[r.dev] else 0
  }

  /** The count after reports, when the keys in `seen` were already marked. */
  function CountFrom(p: Platform, seen: set<MergeKey>, rs: seq<Report>): nat
    requires AreUsable(p, rs)
  {
    if rs == [] then INFO_EVENTS
    else
      var front, r := rs[..|rs| - 1], rs[|rs| - 1];
      CountFrom(p, seen, front) + if IsMerged(seen + Keys(front), r) then 0 else Counted(p, r)
  }

  lemma KeysOneMore(p: Platform, seen: set<MergeKey>, rs: seq<Report>, i: nat)
    requires AreUsable(p, rs) && i < |rs|
    ensures seen + Keys(rs[..i + 1]) == seen + Keys(rs[..i]) + (if KeyOf(rs[i]).Some? then {KeyOf(rs[i]).value} else {})
    ensures CountFrom(p, seen, rs[..i + 1])
         == CountFrom(p, seen, rs[..i]) + if IsMerged(seen + Keys(rs[..i]), rs[i]) then 0 else Counted(p, rs[i])
  {
    assert rs[..i + 1][..i] == rs[..i];
  }

  function TotalExcess(p: Platform, rs: seq<Report>): nat
    requires AreUsable(p, rs)
  {
    if rs == [] then 0 else TotalExcess(p, rs[..|rs| - 1]) + Excess(p, rs[|rs| - 1])
  }

  /** The count exceeds the table by the number of PCIe transfer rates reported. */
  lemma {:induction false} CountExceedsSize(p: Platform, seen: set<MergeKey>, rs: seq<Report>)
    requires AreUsable(p, rs)
    ensures CountFrom(p, seen, rs) == SizeFrom(p, seen, rs) + TotalExcess(p, rs)
  {
    if rs != [] {
      CountExceedsSize(p, seen, rs[..|rs| - 1]);
    }
  }

  /** No PCIe link whose bandwidth is reported has transfer rates. */
  predicate NoRates(p: Platform, rs: seq<Report>)
    requires AreUsable(p, rs)
  {
    forall i :: 0 <= i < |rs| && rs[i].func.PciBandwidthGet? ==> p.rates[rs[i].dev] == 0
  }

  lemma CountSuffices(p: Platform, seen: set<MergeKey>, rs: seq<Report>)
    requires AreUsable(p, rs)
    ensures SizeFrom(p, seen, rs) <= CountFrom(p, seen, rs)
    ensures CountFrom(p, seen, rs) == SizeFrom(p, seen, rs) <==> NoRates(p, rs)
  {
    CountExceedsSize(p, seen, rs);
    NoExcess(p, rs);
  }

  /** Whatever is marked, the two passes agree exactly when every reported PCIe link has no transfer
      rates, which is how the tables are compiled. */
  lemma {:induction false} PassesAgree(p: Platform, m: Marks, rs: seq<Report>)
    requires AreUsable(p, rs)
    ensures CountFrom(p, m.Keys, rs) == |TableFrom(p, m, rs)| <==> NoRates(p, rs)
  {
    CountSuffices(p, m.Keys, rs);
  }

  /** One link with one rate makes the first pass count a slot that the second does not fill. */
  lemma OneRateDisagrees(p: Platform)
    requires p.rates == [1]
    ensures var rs := [Report(0, PciBandwidthGet, -1, -1)];
      AreUsable(p, rs) && CountFrom(p, {}, rs) == |Table(p, rs)| + 1
  {
    var r := Report(0, PciBandwidthGet, -1, -1);
    assert [r][..0] == [] && IsUsable(p, r);
    CountExceedsSize(p, {}, [r]);
    assert TotalExcess(p, []) == 0 && Excess(p, r) == 1;
  }

  lemma {:induction false} NoExcess(p: Platform, rs: seq<Report>)
    requires AreUsable(p, rs)
    ensures TotalExcess(p, rs) == 0 <==> forall i :: 0 <= i < |rs| ==> Excess(p, rs[i]) == 0
  {
    if rs != [] {
      NoExcess(p, rs[..|rs| - 1]);
    }
  }

  // ----- what the table looks like -----

  lemma {:induction false} IdsAreIndices(p: Platform, m: Marks, rs: seq<Report>)
    requires AreUsable(p, rs)
    ensures forall i :: 0 <= i < |TableFrom(p, m, rs)| ==> TableFrom(p, m, rs)[i].id == i
  {
    if rs != [] {
      IdsAreIndices(p, m, rs[..|rs| - 1]);
    }
  }

  lemma {:induction false} SizesGrow(p: Platform, seen: set<MergeKey>, rs: seq<Report>, i: nat)
    requires AreUsable(p, rs) && i <= |rs|
    ensures INFO_EVENTS <= SizeFrom(p, seen, rs[..i]) <= SizeFrom(p, seen, rs)
    decreases |rs|
  {
    if i < |rs| {
      SizesGrow(p, seen, rs[..|rs| - 1], i);
      assert rs[..|rs| - 1][..i] == rs[..i];
    } else {
      assert rs[..i] == rs;
    }
  }

  /** The key an event was made for. */
  function EventKey(e: NtvEvent): Option<MergeKey> {
    if e.device < 0 then None else KeyOf(Report(e.device, e.func, e.variant, e.subvariant))
  }

  /** Getting and setting are merged once: a reported key has exactly one slot. */
  lemma {:induction false} OneSlotPerKey(p: Platform, rs: seq<Report>, k: MergeKey)
    requires AreUsable(p, rs)
    ensures forall i :: 0 <= i < |Table(p, rs)| ==>
      (EventKey(Table(p, rs)[i]) == Some(k) <==> k in Keys(rs) && i == SlotOf(p, rs, k))
  {
    if rs != [] {
      var front, r := rs[..|rs| - 1], rs[|rs| - 1];
      OneSlotPerKey(p, front, k);
      TableOneMore(p, rs);
      var t := Table(p, front);
      if !IsMerged(Keys(front), r) {
        PartsOfMergeable(p, r);
        forall i | 0 <= i < |Parts(p, r)|
          ensures EventKey(NewEvents(p, r, |t|)[i]) == KeyOf(r)
        {
        }
      }
    }
  }

  lemma PartsOfMergeable(p: Platform, r: Report)
    requires IsUsable(p, r)
    ensures KeyOf(r).Some? ==> Parts(p, r) == [(r.variant, r.subvariant)]
  {
  }

  /** Report `j` sets what report `i`, an earlier one, is also about. */
  predicate SetAfter(rs: seq<Report>, k: MergeKey, i: int, j: int) {
    0 <= i < j < |rs| && KeyOf(rs[i]) == Some(k) && KeyOf(rs[j]) == Some(k) && IsSetter(rs[j].func)
  }

  ghost predicate SetLater(rs: seq<Report>, k: MergeKey) {
    exists i, j :: SetAfter(rs, k, i, j)
  }

  /** A merged event is readable and writable if and only if some setter was reported after another
      report for the same thing. A setter that is reported first, and alone or before its getter,
      does not make it so. */
  lemma {:induction false} ReadWriteIffSetAfter(p: Platform, rs: seq<Report>, k: MergeKey)
    requires AreUsable(p, rs) && k in Keys(rs)
    requires forall f :: p.mode(f) != ReadWrite
    ensures Table(p, rs)[SlotOf(p, rs, k)].mode == ReadWrite <==> SetLater(rs, k)
  {
    var n := |rs| - 1;
    var front, r := rs[..n], rs[n];
    KeyHasReport(front, k);
    TableOneMore(p, rs);
    if k in Keys(front) {
      ReadWriteIffSetAfter(p, front, k);
      var first :| 0 <= first < n && KeyOf(front[first]) == Some(k);
      if KeyOf(r) == Some(k) && IsSetter(r.func) {
        assert SetAfter(rs, k, first, n);
      } else {
        OtherReportsKeepMode(p, rs, k);
        NoNewSetAfter(rs, k);
      }
    } else {
      PartsOfMergeable(p, r);
      assert forall i :: 0 <= i < n ==> rs[i] == front[i] && KeyOf(rs[i]) != Some(k);
    }
  }

  lemma NoNewSetAfter(rs: seq<Report>, k: MergeKey)
    requires rs != [] && !(KeyOf(rs[|rs| - 1]) == Some(k) && IsSetter(rs[|rs| - 1].func))
    ensures SetLater(rs, k) <==> SetLater(rs[..|rs| - 1], k)
  {
    var front := rs[..|rs| - 1];
    forall i, j | SetAfter(rs, k, i, j)
      ensures SetAfter(front, k, i, j)
    {
      assert j != |rs| - 1;
    }
    forall i, j | SetAfter(front, k, i, j)
      ensures SetAfter(rs, k, i, j)
    {
    }
  }

  lemma OtherReportsKeepMode(p: Platform, rs: seq<Report>, k: MergeKey)
    requires AreUsable(p, rs) && rs != [] && k in Keys(rs[..|rs| - 1])
    requires !(KeyOf(rs[|rs| - 1]) == Some(k) && IsSetter(rs[|rs| - 1].func))
    ensures SlotOf(p, rs, k) == SlotOf(p, rs[..|rs| - 1], k)
    ensures Table(p, rs)[SlotOf(p, rs, k)].mode == Table(p, rs[..|rs| - 1])[SlotOf(p, rs, k)].mode
  {
    var front, r := rs[..|rs| - 1], rs[|rs| - 1];
    OneSlotPerKey(p, front, k);
    TableOneMore(p, rs);
    if IsMerged(Keys(front), r) && KeyOf(r).value != k {
      OneSlotPerKey(p, front, KeyOf(r).value);
    }
  }

  lemma {:induction false} KeyHasReport(rs: seq<Report>, k: MergeKey)
    ensures k in Keys(rs) <==> exists i :: 0 <= i < |rs| && KeyOf(rs[i]) == Some(k)
  {
    if rs != [] {
      KeyHasReport(rs[..|rs| - 1], k);
    }
  }

  /** A setter reported before its getter: the event stays as the setter made it. */
  lemma SetterFirstIsNotReadWrite(p: Platform, dev: nat, sub: int)
    requires forall f :: p.mode(f) != ReadWrite
    requires var rs := [Report(dev, PowerCapSet, -1, sub), Report(dev, PowerCapGet, -1, sub)]; AreUsable(p, rs)
    ensures var rs := [Report(dev, PowerCapSet, -1, sub), Report(dev, PowerCapGet, -1, sub)];
      Cap(dev, sub) in Keys(rs) && Table(p, rs)[SlotOf(p, rs, Cap(dev, sub))].mode != ReadWrite
  {
    var rs := [Report(dev, PowerCapSet, -1, sub), Report(dev, PowerCapGet, -1, sub)];
    KeyHasReport(rs, Cap(dev, sub));
    assert KeyOf(rs[0]) == Some(Cap(dev, sub));
    ReadWriteIffSetAfter(p, rs, Cap(dev, sub));
  }

  /** A later pass that finds every key still marked counts one event fewer for each key: merged
      events are lost when the table is built again. */
  lemma {:induction false} MarkedKeysAreNotCounted(p: Platform, seen: set<MergeKey>, rs: seq<Report>)
    requires AreUsable(p, rs) && Keys(rs) <= seen
    ensures CountFrom(p, seen, rs) + |Keys(rs)| == CountFrom(p, {}, rs)
  {
    if rs != [] {
      var front, r := rs[..|rs| - 1], rs[|rs| - 1];
      MarkedKeysAreNotCounted(p, seen, front);
      PartsOfMergeable(p, r);
      assert seen + Keys(front) == seen && {} + Keys(front) == Keys(front);
    }
  }

  // ----- building the table again -----

  /** Report `i` sets something that an earlier build has marked with a slot that an array of `slots`
      slots does not have. */
  ghost predicate WritesBehind(m: Marks, rs: seq<Report>, slots: nat, i: nat) {
    i < |rs| && IsSetter(rs[i].func) && KeyOf(rs[i]).value in m && m[KeyOf(rs[i]).value] >= slots
  }

  ghost predicate SomeWriteBehind(m: Marks, rs: seq<Report>, slots: nat) {
    exists i: nat :: WritesBehind(m, rs, slots, i)
  }

  lemma OneMoreReportWrites(m: Marks, rs: seq<Report>, slots: nat, n: nat)
    requires n < |rs|
    ensures SomeWriteBehind(m, rs[..n + 1], slots)
       <==> SomeWriteBehind(m, rs[..n], slots) || WritesBehind(m, rs, slots, n)
  {
    if i: nat :| WritesBehind(m, rs[..n], slots, i) {
      assert WritesBehind(m, rs[..n + 1], slots, i);
    }
    var more := rs[..n + 1];
    if i: nat :| WritesBehind(m, more, slots, i) {
      assert i < n ==> WritesBehind(m, rs[..n], slots, i);
    }
    assert WritesBehind(m, rs, slots, n) ==> WritesBehind(m, more, slots, n);
  }

  /** Report `i` sets something whose slot is among the last ones of the first table, as many as there
      are keys. */
  ghost predicate SetsNearTheEnd(p: Platform, rs: seq<Report>, i: nat)
    requires AreUsable(p, rs)
  {
    && i < |rs| && IsSetter(rs[i].func) && KeyOf(rs[i]).value in Keys(rs)
    && SlotOf(p, rs, KeyOf(rs[i]).value) + |Keys(rs)| >= |Table(p, rs)|
  }

  /** Without transfer rates, a second build from the same reports writes behind its array if and only
      if some report sets something near the end of the first table. */
  lemma RefillWritesBehind(p: Platform, rs: seq<Report>)
    requires AreUsable(p, rs) && NoRates(p, rs)
    ensures SomeWriteBehind(MarksFrom(p, NOTHING, rs), rs, CountFrom(p, Keys(rs), rs))
       <==> exists i: nat :: SetsNearTheEnd(p, rs, i)
  {
    MarkedKeysAreNotCounted(p, Keys(rs), rs);
    PassesAgree(p, NOTHING, rs);
    var m, slots := MarksFrom(p, NOTHING, rs), CountFrom(p, Keys(rs), rs);
    assert m.Keys == Keys(rs);
    if i: nat :| WritesBehind(m, rs, slots, i) {
      assert SetsNearTheEnd(p, rs, i);
    }
    if i: nat :| SetsNearTheEnd(p, rs, i) {
      assert WritesBehind(m, rs, slots, i);
    }
  }

  const FAN_GET := Report(0, FanSpeedGet, -1, -1)
  const FAN_SET := Report(0, FanSpeedSet, -1, -1)

  lemma FanSpeedTable(p: Platform)
    requires AreUsable(p, [FAN_GET, FAN_SET])
    ensures var rs := [FAN_GET, FAN_SET];
      Keys(rs) == {Fan(0)} && Size(p, rs) == INFO_EVENTS + 1 && SlotOf(p, rs, Fan(0)) == INFO_EVENTS && NoRates(p, rs)
  {
    var rs, one := [FAN_GET, FAN_SET], [FAN_GET];
    assert rs[..|rs| - 1] == one && one[..|one| - 1] == [];
    assert IsUsable(p, rs[0]) && IsUsable(p, rs[1]);
    TableOneMore(p, one);
    TableOneMore(p, rs);
    PartsOfMergeable(p, FAN_GET);
    assert Keys(one) == {Fan(0)};
  }

  /** Getting and setting the fan speed of one device, and nothing else: the second array has three
      slots, and the setter writes to the fourth. */
  lemma FanSpeedWritesBehind(p: Platform)
    requires AreUsable(p, [FAN_GET, FAN_SET])
    ensures var rs := [FAN_GET, FAN_SET];
      CountFrom(p, Keys(rs), rs) == INFO_EVENTS && SomeWriteBehind(MarksFrom(p, NOTHING, rs), rs, INFO_EVENTS)
  {
    var rs := [FAN_GET, FAN_SET];
    FanSpeedTable(p);
    MarkedKeysAreNotCounted(p, Keys(rs), rs);
    PassesAgree(p, NOTHING, rs);
    assert NOTHING.Keys == {};
    assert WritesBehind(MarksFrom(p, NOTHING, rs), rs, INFO_EVENTS, 1);
  }

  // ----- finding events by name -----

  /** The map gives for this name the last slot that carries it. */
  ghost predicate FindsLast(m: map<string, nat>, t: seq<NtvEvent>, name: string) {
    if name in m
    then m[name] < |t| && t[m[name]].name == Some(name) && forall j :: m[name] < j < |t| ==> t[j].name != Some(name)
    else forall j :: 0 <= j < |t| ==> t[j].name != Some(name)
  }

  /** The map finds every event by name, the last one where several share a name. */
  ghost predicate Indexes(m: map<string, nat>, t: seq<NtvEvent>) {
    && |m| <= |t|
    && forall name {:trigger FindsLast(m, t, name)} :: FindsLast(m, t, name)
  }

  /** The index with one more event; an event without a name is not indexed. */
  function Indexed(m: map<string, nat>, e: NtvEvent): map<string, nat> {
    if e.name.Some? then m[e.name.value := e.id] else m
  }

  lemma IndexOneMore(m: map<string, nat>, t: seq<NtvEvent>, e: NtvEvent)
    requires Indexes(m, t) && e.id == |t|
    ensures Indexes(Indexed(m, e), t + [e])
  {
    var m', u := Indexed(m, e), t + [e];
    assert e.name.Some? ==> m'.Keys == m.Keys + {e.name.value};
    forall name
      ensures FindsLast(m', u, name)
    {
      assert FindsLast(m, t, name);
      if e.name == Some(name) {
        assert m'[name] == |t| && u[|t|] == e;
      } else {
        assert name in m' <==> name in m;
      }
    }
  }

  /** Descriptions and modes do not matter for finding events. */
  lemma IndexIgnoresModes(m: map<string, nat>, t: seq<NtvEvent>, u: seq<NtvEvent>)
    requires Indexes(m, t) && |t| == |u| && forall i :: 0 <= i < |t| ==> t[i].name == u[i].name
    ensures Indexes(m, u)
  {
    forall name
      ensures FindsLast(m, u, name)
    {
      assert FindsLast(m, t, name);
    }
  }

  predicate AllNamed(t: seq<NtvEvent>) {
    forall i :: 0 <= i < |t| ==> t[i].name.Some?
  }

  predicate DistinctNames(t: seq<NtvEvent>) {
    forall i, j :: 0 <= i < j < |t| ==> t[i].name != t[j].name
  }

  /** Every event is found again under its own name if and only if no two share a name. */
  lemma NamesLeadBack(m: map<string, nat>, t: seq<NtvEvent>)
    requires Indexes(m, t) && AllNamed(t)
    ensures (forall c :: 0 <= c < |t| ==> t[c].name.value in m && m[t[c].name.value] == c) <==> DistinctNames(t)
  {
    forall c | 0 <= c < |t|
      ensures t[c].name.value in m && c <= m[t[c].name.value] < |t|
      ensures t[m[t[c].name.value]].name == t[c].name
    {
      assert FindsLast(m, t, t[c].name.value);
    }
  }
}
