/** The sampling buffer: one thread appends records to a flat array, and each counter's values
    are taken out of it again. */
module Sampler {

  import opened Numbers

  const INT64: int := 0x8000_0000_0000_0000

  /** Storing an unsigned 64-bit number in a signed one, and reading it back. */
  function ToSigned(u: nat): (i: int)
    requires u < UINT64
    ensures -INT64 <= i < INT64 && ToUnsigned(i) == u
  {
    if u < INT64 then u else u - UINT64
  }

  function ToUnsigned(i: int): (u: nat)
    requires -INT64 <= i < INT64
    ensures u < UINT64
  {
    if i >= 0 then i else i + UINT64
  }

  /** A signed number read as an unsigned one is the number below 2^64 that differs from it by nothing
      or by 2^64. */
  lemma UnsignedIsCongruent(i: int)
    requires -INT64 <= i < INT64
    ensures ToUnsigned(i) == i % 0x1_0000_0000_0000_0000
    ensures 0 <= i ==> ToUnsigned(i) == i
    ensures i < 0 ==> ToUnsigned(i) == i + 0x1_0000_0000_0000_0000
  {
  }

  type Int64 = i: int | -INT64 <= i < INT64
  type Uint64 = u: nat | u < UINT64

  /** What reading the counters gives: all their values, or a failure that may have written some. */
  datatype Reading = Complete(values: seq<Int64>) | Failed(written: seq<Int64>)

  /** One turn of the sampling loop. */
  datatype Tick = Tick(enabled: bool, timestamp: Uint64, reading: Reading)

  datatype Sample = Sample(timestamp: Uint64, values: seq<Int64>)

  datatype Exit = Disabled | BufferFull | ReadError | NoClock

  /** Every reading is of `n` counters. */
  predicate ReadsCounters(ticks: seq<Tick>, n: nat) {
    forall i :: 0 <= i < |ticks| ==>
      match ticks[i].reading case Complete(v) => |v| == n case Failed(w) => |w| <= n
  }

  /** The samples that ticks leave in a buffer with this much room. */
  function Samples(ticks: seq<Tick>, n: nat, room: nat): seq<Sample> {
    if ticks == [] then []
    else if !ticks[0].enabled then Samples(ticks[1..], n, room)
    else if n + 1 > room || ticks[0].reading.Failed? then []
    else [Sample(ticks[0].timestamp, ticks[0].reading.values)] + Samples(ticks[1..], n, room - (n + 1))
  }

  /** How the sampling loop ends. */
  function ExitOf(ticks: seq<Tick>, n: nat, room: nat): Exit {
    if ticks == [] then Disabled
    else if !ticks[0].enabled then ExitOf(ticks[1..], n, room)
    else if n + 1 > room then BufferFull
    else if ticks[0].reading.Failed? then ReadError
    else ExitOf(ticks[1..], n, room - (n + 1))
  }

  /** What one tick does to the samples so far and to the rest of the run. */
  lemma OneMoreTick(ticks: seq<Tick>, i: nat, n: nat, room: nat, samples: seq<Sample>)
    requires i < |ticks|
    ensures !ticks[i].enabled ==>
      && samples + Samples(ticks[i..], n, room) == samples + Samples(ticks[i + 1..], n, room)
      && ExitOf(ticks[i..], n, room) == ExitOf(ticks[i + 1..], n, room)
    ensures ticks[i].enabled && (n + 1 > room || ticks[i].reading.Failed?) ==>
      && samples + Samples(ticks[i..], n, room) == samples
      && ExitOf(ticks[i..], n, room) == if n + 1 > room then BufferFull else ReadError
    ensures ticks[i].enabled && n + 1 <= room && ticks[i].reading.Complete? ==>
      && samples + Samples(ticks[i..], n, room)
      == samples + [Sample(ticks[i].timestamp, ticks[i].reading.values)] + Samples(ticks[i + 1..], n, room - (n + 1))
      && ExitOf(ticks[i..], n, room) == ExitOf(ticks[i + 1..], n, room - (n + 1))
  {
    assert ticks[i..][0] == ticks[i] && ticks[i..][1..] == ticks[i + 1..];
    assert samples + [] == samples;
  }

  // ----- an independent description of the samples -----

  function Enabled(ticks: seq<Tick>): seq<Tick> {
    if ticks == [] then []
    else (if ticks[0].enabled then [ticks[0]] else []) + Enabled(ticks[1..])
  }

  /** The enabled ticks are those that are enabled, in order. */
  lemma {:induction false} EnabledOneMore(ticks: seq<Tick>, tick: Tick)
    ensures Enabled(ticks + [tick]) == Enabled(ticks) + if tick.enabled then [tick] else []
  {
    var more, last := ticks + [tick], if tick.enabled then [tick] else [];
    if ticks == [] {
      assert more[0] == tick && more[1..] == [];
    } else {
      EnabledOneMore(ticks[1..], tick);
      var first := if ticks[0].enabled then [ticks[0]] else [];
      assert more[0] == ticks[0] && more[1..] == ticks[1..] + [tick];
      assert Enabled(more) == first + (Enabled(ticks[1..]) + last);
    }
  }

  /** The number of complete readings before the first failed one. */
  function Successes(ticks: seq<Tick>): (k: nat)
    ensures k <= |ticks|
    ensures forall i :: 0 <= i < k ==> ticks[i].reading.Complete?
    ensures k < |ticks| ==> ticks[k].reading.Failed?
  {
    if ticks == [] || ticks[0].reading.Failed? then 0 else 1 + Successes(ticks[1..])
  }

  lemma QuotientStep(room: nat, m: nat)
    requires m > 0
    ensures room < m ==> room / m == 0
    ensures room >= m ==> room / m == (room - m) / m + 1
  {
    if room >= m {
      var q := (room - m) / m;
      assert room - m == q * m + (room - m) % m;
      assert room == (q + 1) * m + (room - m) % m;
      QuotientIs(room, m, q + 1, (room - m) % m);
    }
  }

  lemma QuotientIs(a: nat, m: nat, q: nat, r: nat)
    requires a == q * m + r && r < m
    ensures a / m == q
  {
    assert a == (a / m) * m + a % m;
    SmallMultiple(a / m - q, m);
  }

  lemma SmallMultiple(x: int, m: int)
    requires m > 0 && -m < x * m < m
    ensures x == 0
  {
  }

  /** How many records of `m` numbers fit, one after the other. */
  function Records(room: nat, m: nat): nat
    requires m > 0
  {
    if room < m then 0 else 1 + Records(room - m, m)
  }

  lemma {:induction false} RecordsAreQuotient(room: nat, m: nat)
    requires m > 0
    ensures Records(room, m) == room / m
  {
    QuotientStep(room, m);
    if room >= m {
      RecordsAreQuotient(room - m, m);
    }
  }

  lemma {:induction false} SampleCount(ticks: seq<Tick>, n: nat, room: nat)
    ensures |Samples(ticks, n, room)| == Min(Successes(Enabled(ticks)), Records(room, n + 1))
  {
    if ticks != [] {
      EnabledSplit(ticks);
      if !ticks[0].enabled {
        SampleCount(ticks[1..], n, room);
      } else if n + 1 <= room && ticks[0].reading.Complete? {
        SampleCount(ticks[1..], n, room - (n + 1));
      }
    }
  }

  lemma {:induction false} ExitTellsTheCount(ticks: seq<Tick>, n: nat, room: nat)
    ensures ExitOf(ticks, n, room) == BufferFull <==>
      |Samples(ticks, n, room)| == Records(room, n + 1) < |Enabled(ticks)|
    ensures ExitOf(ticks, n, room) == Disabled <==> |Samples(ticks, n, room)| == |Enabled(ticks)|
    ensures ExitOf(ticks, n, room) in {BufferFull, Disabled, ReadError}
  {
    if ticks != [] {
      EnabledSplit(ticks);
      if !ticks[0].enabled {
        ExitTellsTheCount(ticks[1..], n, room);
      } else if n + 1 <= room && ticks[0].reading.Complete? {
        ExitTellsTheCount(ticks[1..], n, room - (n + 1));
      }
    }
  }

  lemma EnabledSplit(ticks: seq<Tick>)
    requires ticks != []
    ensures !ticks[0].enabled ==> Enabled(ticks) == Enabled(ticks[1..])
    ensures ticks[0].enabled ==> |Enabled(ticks)| > 0 && Enabled(ticks)[0] == ticks[0]
    ensures ticks[0].enabled ==> Enabled(ticks)[1..] == Enabled(ticks[1..])
  {
  }

  lemma {:induction false} SampleIsReading(ticks: seq<Tick>, n: nat, room: nat, k: nat)
    requires k < |Samples(ticks, n, room)|
    ensures k < |Enabled(ticks)| && Enabled(ticks)[k].reading.Complete?
    ensures Samples(ticks, n, room)[k] == Sample(Enabled(ticks)[k].timestamp, Enabled(ticks)[k].reading.values)
  {
    EnabledSplit(ticks);
    if !ticks[0].enabled {
      SampleIsReading(ticks[1..], n, room, k);
    } else if k > 0 {
      SampleIsReading(ticks[1..], n, room - (n + 1), k - 1);
      assert Enabled(ticks)[k] == Enabled(ticks[1..])[k - 1];
    }
  }

  /** Sample `k` is the `k`-th enabled reading; there are as many as come before the first failure
      and fit the buffer. When the loop ends because the buffer is full, it is as full as records
      of `n + 1` numbers can make it. */
  lemma SamplesAreEnabledReadings(ticks: seq<Tick>, n: nat, room: nat)
    ensures |Samples(ticks, n, room)| == Min(Successes(Enabled(ticks)), room / (n + 1))
    ensures forall k :: 0 <= k < |Samples(ticks, n, room)| ==>
      && Enabled(ticks)[k].reading.Complete?
      && Samples(ticks, n, room)[k] == Sample(Enabled(ticks)[k].timestamp, Enabled(ticks)[k].reading.values)
    ensures ExitOf(ticks, n, room) == BufferFull <==> |Samples(ticks, n, room)| == room / (n + 1) < |Enabled(ticks)|
    ensures ExitOf(ticks, n, room) == Disabled <==> |Samples(ticks, n, room)| == |Enabled(ticks)|
    ensures ExitOf(ticks, n, room) in {BufferFull, Disabled, ReadError}
  {
    RecordsAreQuotient(room, n + 1);
    SampleCount(ticks, n, room);
    ExitTellsTheCount(ticks, n, room);
    forall k | 0 <= k < |Samples(ticks, n, room)|
      ensures k < |Enabled(ticks)| && Enabled(ticks)[k].reading.Complete?
      ensures Samples(ticks, n, room)[k] == Sample(Enabled(ticks)[k].timestamp, Enabled(ticks)[k].reading.values)
    {
      SampleIsReading(ticks, n, room, k);
    }
  }

  // ----- the flat buffer -----

  /** Samples laid out one after the other, each as its timestamp and then its values. */
  function Flat(samples: seq<Sample>): seq<int> {
    if samples == [] then []
    else
      var last := samples[|samples| - 1];
      Flat(samples[..|samples| - 1]) + [ToSigned(last.timestamp)] + last.values
  }

  lemma {:induction false} FlatPrefix(samples: seq<Sample>, k: nat)
    requires k <= |samples|
    ensures |Flat(samples[..k])| <= |Flat(samples)| && Flat(samples)[..|Flat(samples[..k])|] == Flat(samples[..k])
    decreases |samples|
  {
    if k < |samples| {
      var front := samples[..|samples| - 1];
      FlatPrefix(front, k);
      assert front[..k] == samples[..k];
    } else {
      assert samples[..k] == samples;
    }
  }

  lemma FlatOneMore(samples: seq<Sample>, k: nat)
    requires k < |samples|
    ensures Flat(samples[..k + 1]) == Flat(samples[..k]) + [ToSigned(samples[k].timestamp)] + samples[k].values
  {
    assert samples[..k + 1][..k] == samples[..k];
  }

  class Event {
    const numCntrs: nat
    var timevalues: array<int>
    var sampleCount: nat

    constructor (numCntrs: nat)
      ensures this.numCntrs == numCntrs && sampleCount == 0 && fresh(timevalues)
    {
      this.numCntrs := numCntrs;
      timevalues := new int[0];
      sampleCount := 0;
    }

    /** The buffer starts with these samples. */
    ghost predicate Holds(samples: seq<Sample>)
      reads this, timevalues
    {
      && sampleCount == |samples|
      && (forall k :: 0 <= k < |samples| ==> |samples[k].values| == numCntrs)
      && |Flat(samples)| <= timevalues.Length && timevalues[..|Flat(samples)|] == Flat(samples)
    }

    /** The sampling thread. Each turn of its loop is a tick; the loop ends when sampling is
        disabled, here when the ticks run out. */
    method ThreadReport(ticks: seq<Tick>, numBufElems: nat, hasClock: bool) returns (exit: Exit)
      requires ReadsCounters(ticks, numCntrs)
      modifies this
      ensures fresh(timevalues) && timevalues.Length == numBufElems
      ensures hasClock ==> Holds(Samples(ticks, numCntrs, numBufElems)) && exit == ExitOf(ticks, numCntrs, numBufElems)
      ensures !hasClock ==> Holds([]) && exit == if ticks == [] then Disabled else NoClock
    {
      timevalues := new int[numBufElems](_ => 0);
      var tvPos := 0;
      sampleCount := 0;
      ghost var samples: seq<Sample> := [];
      ghost var all, end := Samples(ticks, numCntrs, numBufElems), ExitOf(ticks, numCntrs, numBufElems);
      var i := 0;
      assert ticks[0..] == ticks;
      while i < |ticks|
        invariant 0 <= i <= |ticks| && (!hasClock ==> i == 0)
        invariant fresh(timevalues) && timevalues.Length == numBufElems
        invariant Holds(samples) && tvPos == |Flat(samples)| && (i == 0 ==> samples == [])
        invariant all == samples + Samples(ticks[i..], numCntrs, numBufElems - tvPos)
        invariant end == ExitOf(ticks[i..], numCntrs, numBufElems - tvPos)
      {
        if !hasClock {
          return NoClock;
        }
        OneMoreTick(ticks, i, numCntrs, numBufElems - tvPos, samples);
        if ticks[i].enabled {
          if tvPos + numCntrs + 1 > numBufElems {
            return BufferFull;
          }
          var ok := AppendRecord(tvPos, ticks[i], samples);
          if !ok {
            return ReadError;
          }
          tvPos := tvPos + 1 + numCntrs;
          samples := samples + [Sample(ticks[i].timestamp, ticks[i].reading.values)];
        }
        i := i + 1;
      }
      assert samples + [] == samples;
      exit := Disabled;
    }

    /** One record of `ThreadReport`: the timestamp, and then the counters. A failed read leaves
        the record unfinished and uncounted. */
    method AppendRecord(pos: nat, tick: Tick, ghost samples: seq<Sample>) returns (ok: bool)
      requires Holds(samples) && pos == |Flat(samples)| && pos + 1 + numCntrs <= timevalues.Length
      requires match tick.reading case Complete(v) => |v| == numCntrs case Failed(w) => |w| <= numCntrs
      modifies timevalues, this`sampleCount
      ensures ok == tick.reading.Complete?
      ensures ok ==>
        && Holds(samples + [Sample(tick.timestamp, tick.reading.values)])
        && |Flat(samples + [Sample(tick.timestamp, tick.reading.values)])| == pos + 1 + numCntrs
      ensures !ok ==> Holds(samples)
    {
      timevalues[pos] := ToSigned(tick.timestamp);
      ok := ReadCounters(pos + 1, tick.reading);
      assert timevalues[..pos] == timevalues[..pos + 1][..pos];
      if ok {
        sampleCount := sampleCount + 1;
        ghost var extended := samples + [Sample(tick.timestamp, tick.reading.values)];
        assert extended[..|samples|] == samples;
        assert timevalues[..pos + 1 + numCntrs]
            == timevalues[..pos] + [timevalues[pos]] + timevalues[pos + 1..pos + 1 + numCntrs];
      }
    }

    /** Reads the counters into the buffer. A failed read may leave some values behind. */
    method ReadCounters(pos: nat, reading: Reading) returns (ok: bool)
      requires pos + numCntrs <= timevalues.Length
      requires match reading case Complete(v) => |v| == numCntrs case Failed(w) => |w| <= numCntrs
      modifies timevalues
      ensures ok == reading.Complete?
      ensures timevalues[..pos] == old(timevalues[..pos])
      ensures ok ==> timevalues[pos..pos + numCntrs] == reading.values
    {
      var values := match reading case Complete(v) => v case Failed(w) => w;
      for c := 0 to |values|
        invariant timevalues[..pos] == old(timevalues[..pos])
        invariant timevalues[pos..pos + c] == values[..c]
      {
        timevalues[pos + c] := values[c];
      }
      ok := reading.Complete?;
    }

    /** Where record `i` lies in the buffer. */
    lemma RecordAt(samples: seq<Sample>, i: nat, cntrId: nat)
      requires Holds(samples) && i < |samples| && cntrId < numCntrs
      ensures var pos := |Flat(samples[..i])|;
        && |Flat(samples[..i + 1])| == pos + 1 + numCntrs <= timevalues.Length
        && timevalues[pos] == ToSigned(samples[i].timestamp)
        && |samples[i].values| == numCntrs && timevalues[pos + 1 + cntrId] == samples[i].values[cntrId]
    {
      var pos, upTo := |Flat(samples[..i])|, Flat(samples[..i + 1]);
      FlatPrefix(samples, i + 1);
      FlatOneMore(samples, i);
      assert timevalues[..|upTo|] == timevalues[..|Flat(samples)|][..|upTo|] == upTo;
      assert upTo[pos] == ToSigned(samples[i].timestamp) && upTo[pos + 1..] == samples[i].values;
      assert timevalues[pos + 1 + cntrId] == upTo[pos + 1 + cntrId] == upTo[pos + 1..][cntrId];
    }

    /** Takes one counter's time series out of the buffer. */
    method GetAllValues(cntrId: nat, ghost samples: seq<Sample>) returns (result: seq<(Uint64, Uint64)>)
      requires cntrId < numCntrs && Holds(samples)
      ensures |result| == sampleCount
      ensures forall k :: 0 <= k < |samples| ==>
        var value := samples[k].values[cntrId];
        result[k] == (samples[k].timestamp, if value >= 0 then value else value + UINT64)
    {
      result := [];
      var tvPos := 0;
      for i := 0 to sampleCount
        invariant |result| == i && tvPos == |Flat(samples[..i])|
        invariant forall k :: 0 <= k < i ==> result[k] == (samples[k].timestamp, ToUnsigned(samples[k].values[cntrId]))
      {
        RecordAt(samples, i, cntrId);
        var timestamp := ToUnsigned(timevalues[tvPos]);
        tvPos := tvPos + 1;
        var value := ToUnsigned(timevalues[tvPos + cntrId]);
        tvPos := tvPos + numCntrs;
        result := result + [(timestamp, value)];
      }
    }

    /** A whole run: sampling, and then asking for one counter. */
    method SampleAndCollect(ticks: seq<Tick>, numBufElems: nat, cntrId: nat)
      returns (exit: Exit, result: seq<(Uint64, Uint64)>)
      requires ReadsCounters(ticks, numCntrs) && cntrId < numCntrs
      modifies this
      ensures |result| == Min(Successes(Enabled(ticks)), numBufElems / (numCntrs + 1))
      ensures exit == BufferFull <==> |result| == numBufElems / (numCntrs + 1) < |Enabled(ticks)|
      ensures exit == Disabled <==> |result| == |Enabled(ticks)|
      ensures exit in {BufferFull, Disabled, ReadError}
      ensures forall k :: 0 <= k < |result| ==>
        && Enabled(ticks)[k].reading.Complete? && |Enabled(ticks)[k].reading.values| == numCntrs
        && var value := Enabled(ticks)[k].reading.values[cntrId];
           result[k] == (Enabled(ticks)[k].timestamp, if value >= 0 then value else value + UINT64)
    {
      exit := ThreadReport(ticks, numBufElems, true);
      SamplesAreEnabledReadings(ticks, numCntrs, numBufElems);
      result := GetAllValues(cntrId, Samples(ticks, numCntrs, numBufElems));
    }
  }
}
