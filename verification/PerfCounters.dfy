/** Reading perf counters: whole records out of partial reads, differences between successive raw
    values, and what the differences that callers see add up to. */
module PerfCounters {

  import opened Numbers
  import opened Options

  type byte = b: nat | b < 256

  type positive = n: nat | n > 0 witness 1

  /** The largest difference that does not count as an overflow. */
  const LIMIT: nat := 0xFFFF_FFFF_FFFF

  const RECORD: nat := 24

  const EIO: nat := 5

  // ----- reading a record -----

  /** What one call of `read` does: deliver at most so many bytes, be interrupted, or fail. */
  datatype Outcome = Chunk(atMost: positive) | Interrupted | Fails(errno: positive)

  /** The bytes a descriptor has to give, and what its next reads do; later ones give all they can. */
  datatype Supply = Supply(stream: seq<byte>, script: seq<Outcome>)

  function FirstFailure(script: seq<Outcome>): Option<nat> {
    if script == [] then None
    else if script[0].Fails? then Some(script[0].errno)
    else FirstFailure(script[1..])
  }

  /** The failure that reading `left` of `there` bytes meets, if it meets one. */
  function Met(there: nat, script: seq<Outcome>, left: nat): (errno: Option<nat>)
    ensures errno.Some? ==> errno == FirstFailure(script)
  {
    if left == 0 || script == [] then None
    else
      match script[0]
      case Fails(e) => Some(e)
      case Interrupted => Met(there, script[1..], left)
      case Chunk(atMost) =>
        var bytes := Min(atMost, Min(there, left));
        if bytes == 0 then None else Met(there - bytes, script[1..], left - bytes)
  }

  /** The bytes that chunks offer in all. */
  function Offered(script: seq<Outcome>): nat {
    if script == [] then 0
    else (if script[0].Chunk? then script[0].atMost else 0) + Offered(script[1..])
  }

  /** The stream has not ended before the read `e`: no read before it asked an empty stream. */
  ghost predicate NotEnded(there: nat, script: seq<Outcome>, e: nat)
    requires e <= |script|
  {
    forall j :: 0 <= j < e && script[j].Chunk? ==> Offered(script[..j]) < there
  }

  /** Read `e` is the first to fail. */
  ghost predicate FailsFirst(script: seq<Outcome>, e: nat) {
    e < |script| && script[e].Fails? && forall j :: 0 <= j < e ==> !script[j].Fails?
  }

  /** When a failure ends reading: at the first read that fails, if the bytes delivered before fall
      short of what is wanted, and the stream has not ended. */
  ghost predicate Interferes(there: nat, script: seq<Outcome>, left: nat, e: nat) {
    FailsFirst(script, e) && Min(Offered(script[..e]), there) < left && NotEnded(there, script, e)
  }

  lemma {:induction false} WhenFailuresAreMet(there: nat, script: seq<Outcome>, left: nat)
    ensures Met(there, script, left).Some? <==> exists e: nat :: Interferes(there, script, left, e)
    decreases |script|
  {
    if left > 0 && script != [] {
      match script[0]
      case Fails(_) =>
        assert Interferes(there, script, left, 0);
      case Interrupted =>
        WhenFailuresAreMet(there, script[1..], left);
        ReadFurther(there, script, left, there, left);
      case Chunk(atMost) =>
        var bytes := Min(atMost, Min(there, left));
        if bytes > 0 {
          WhenFailuresAreMet(there - bytes, script[1..], left - bytes);
          ReadFurther(there, script, left, there - bytes, left - bytes);
        }
    }
  }

  /** One read that does not fail shifts what is left and what is there. */
  lemma ReadFurther(there: nat, script: seq<Outcome>, left: nat, there': nat, left': nat)
    requires script != [] && left > 0
    requires match script[0]
             case Fails(_) => false
             case Interrupted => there' == there && left' == left
             case Chunk(atMost) => var bytes := Min(atMost, Min(there, left));
                                   bytes > 0 && there' == there - bytes && left' == left - bytes
    ensures (exists e: nat :: Interferes(there, script, left, e))
       <==> (exists e: nat :: Interferes(there', script[1..], left', e))
  {
    if e: nat :| Interferes(there, script, left, e) {
      ShiftFailure(there, script, left, there', left', e);
    }
    if e: nat :| Interferes(there', script[1..], left', e) {
      ShiftFailure(there, script, left, there', left', e + 1);
    }
  }

  lemma ShiftFailure(there: nat, script: seq<Outcome>, left: nat, there': nat, left': nat, e: nat)
    requires script != [] && left > 0 && e > 0
    requires match script[0]
             case Fails(_) => false
             case Interrupted => there' == there && left' == left
             case Chunk(atMost) => var bytes := Min(atMost, Min(there, left));
                                   bytes > 0 && there' == there - bytes && left' == left - bytes
    ensures Interferes(there, script, left, e) <==> Interferes(there', script[1..], left', e - 1)
  {
    var rest, first := script[1..], if script[0].Chunk? then script[0].atMost else 0;
    if e < |script| {
      forall j | 1 <= j <= e
        ensures Offered(script[..j]) == first + Offered(rest[..j - 1]) && (j < |script| ==> script[j] == rest[j - 1])
      {
        assert script[..j][1..] == rest[..j - 1];
      }
      if NotEnded(there, script, e) && Min(Offered(script[..e]), there) < left {
        forall j | 0 <= j < e - 1 && rest[j].Chunk?
          ensures Offered(rest[..j]) < there'
        {
          assert script[j + 1].Chunk? && Offered(script[..j + 1]) < there;
        }
      }
      if NotEnded(there', rest, e - 1) && Min(Offered(rest[..e - 1]), there') < left' {
        forall j | 0 <= j < e && script[j].Chunk?
          ensures Offered(script[..j]) < there
        {
          assert j > 0 ==> rest[j - 1].Chunk? && Offered(rest[..j - 1]) < there';
        }
      }
      assert FailsFirst(script, e) ==> FailsFirst(rest, e - 1);
      assert FailsFirst(rest, e - 1) ==> FailsFirst(script, e) by {
        assert forall j :: 0 < j < e ==> script[j] == rest[j - 1];
      }
    }
  }

  /** Reads until `n` bytes are there, the stream ends or a read fails. However the bytes come in
      chunks and however often reads are interrupted, the bytes are the same. */
  method Readn(supply: Supply, buf: array<byte>, n: nat) returns (ret: int)
    requires n <= buf.Length
    modifies buf
    ensures ret < 0 <==> Met(|supply.stream|, supply.script, n).Some?
    ensures ret < 0 ==> FirstFailure(supply.script) == Some(-ret)
    ensures ret >= 0 ==> ret == Min(n, |supply.stream|) && buf[..ret] == supply.stream[..ret]
    ensures ret >= 0 ==> forall i :: ret <= i < buf.Length ==> buf[i] == old(buf[i])
  {
    var left, taken, script := n, 0, supply.script;
    while left > 0
      invariant 0 <= left <= n && taken == n - left <= |supply.stream|
      invariant buf[..taken] == supply.stream[..taken]
      invariant forall i :: taken <= i < buf.Length ==> buf[i] == old(buf[i])
      invariant Met(|supply.stream|, supply.script, n) == Met(|supply.stream| - taken, script, left)
      decreases left + |script|
    {
      var outcome := if script == [] then Chunk(left) else script[0];
      ghost var before := script;
      script := if script == [] then [] else script[1..];
      if outcome.Interrupted? {
        continue;
      }
      if outcome.Fails? {
        return -(outcome.errno as int);
      }
      var bytes := Min(outcome.atMost, Min(|supply.stream| - taken, left));
      if bytes == 0 {
        return n - left;
      }
      Deliver(buf, taken, supply.stream[taken..taken + bytes]);
      assert supply.stream[..taken + bytes] == supply.stream[..taken] + supply.stream[taken..taken + bytes];
      left, taken := left - bytes, taken + bytes;
    }
    ret := n;
  }

  /** The bytes that one read puts into the buffer. */
  method Deliver(buf: array<byte>, at: nat, bytes: seq<byte>)
    requires at + |bytes| <= buf.Length
    modifies buf
    ensures buf[..at + |bytes|] == old(buf[..at]) + bytes
    ensures forall i :: at + |bytes| <= i < buf.Length ==> buf[i] == old(buf[i])
  {
    forall i | 0 <= i < |bytes| {
      buf[at + i] := bytes[i];
    }
  }

  // ----- the difference to the last value -----

  /** A word of bytes, lowest byte first. */
  function Word(bytes: seq<byte>): nat {
    if bytes == [] then 0 else bytes[0] + 256 * Word(bytes[1..])
  }

  /** How many words of `n` bytes there are. */
  function Words(n: nat): nat {
    if n == 0 then 1 else 256 * Words(n - 1)
  }

  /** The byte at place `k` has the weight 256^k. */
  lemma {:induction false} BytesHaveWeights(bytes: seq<byte>, k: nat)
    requires k < |bytes|
    ensures Word(bytes) == Word(bytes[k := 0]) + bytes[k] * Words(k)
    ensures (forall i :: 0 <= i < |bytes| ==> bytes[i] == 0) ==> Word(bytes) == 0
  {
    if k == 0 {
      assert bytes[0 := 0][1..] == bytes[1..];
    } else {
      assert bytes[k := 0][1..] == bytes[1..][k - 1 := 0];
      BytesHaveWeights(bytes[1..], k - 1);
    }
    ZerosAreZero(bytes);
  }

  lemma {:induction false} ZerosAreZero(bytes: seq<byte>)
    ensures (forall i :: 0 <= i < |bytes| ==> bytes[i] == 0) ==> Word(bytes) == 0
  {
    if bytes != [] {
      ZerosAreZero(bytes[1..]);
    }
  }

  /** The word of eight bytes, written out. */
  lemma EightBytes(b: seq<byte>)
    requires |b| == 8
    ensures var c: seq<nat> := b;
            Word(b) == c[0] + 0x100 * c[1] + 0x1_0000 * c[2] + 0x100_0000 * c[3]
                       + 0x1_0000_0000 * (c[4] + 0x100 * c[5] + 0x1_0000 * c[6] + 0x100_0000 * c[7])
  {
    FourBytes(b);
    FourBytes(b[4..]);
    assert b[4..][4..] == [];
  }

  lemma FourBytes(b: seq<byte>)
    requires |b| >= 4
    ensures var c: seq<nat> := b;
            Word(b) == c[0] + 0x100 * c[1] + 0x1_0000 * c[2] + 0x100_0000 * c[3] + 0x1_0000_0000 * Word(b[4..])
  {
    assert b[1..][1..] == b[2..] && b[2..][1..] == b[3..] && b[3..][1..] == b[4..];
    assert Word(b) == b[0] + 256 * Word(b[1..]) && Word(b[1..]) == b[1] + 256 * Word(b[2..]);
    assert Word(b[2..]) == b[2] + 256 * Word(b[3..]) && Word(b[3..]) == b[3] + 256 * Word(b[4..]);
  }

  lemma {:induction false} WordFits(bytes: seq<byte>)
    ensures Word(bytes) < Words(|bytes|)
  {
    if bytes != [] {
      WordFits(bytes[1..]);
    }
  }

  /** The raw value that a read gets: none if it fails or ends early. */
  function RawValue(supply: Supply): Option<nat> {
    if Met(|supply.stream|, supply.script, RECORD).None? && |supply.stream| >= RECORD
    then Some(Field(supply.stream, 0))
    else None
  }

  /** The fields depend on the record only. */
  lemma SameFields(record: seq<byte>, stream: seq<byte>)
    requires |record| == RECORD <= |stream| && record == stream[..RECORD]
    ensures forall i {:trigger Field(record, i)} :: 0 <= i < 3 ==> Field(record, i) == Field(stream, i)
  {
    assert record[0..8] == stream[0..8] && record[8..16] == stream[8..16] && record[16..24] == stream[16..24];
  }

  /** Subtraction on words of 64 bits */
  function Minus(a: nat, b: nat): (d: nat)
    requires a < UINT64 && b < UINT64
    ensures d < UINT64 && (b + d == a || b + d == a + UINT64)
  {
    if a >= b then a - b else a - b + UINT64
  }

  /** The three words of a record: the value, the time enabled and the time running. */
  function Field(stream: seq<byte>, i: nat): nat
    requires 8 * i + 8 <= |stream|
  {
    Word(stream[8 * i..8 * i + 8])
  }

  /** The stream starts with a record of these three words. */
  predicate IsRecord(stream: seq<byte>, value: nat, timeEnabled: nat, timeRunning: nat) {
    && |stream| >= 24 && value == Word(stream[..8])
    && timeEnabled == Word(stream[8..16]) && timeRunning == Word(stream[16..24])
  }

  lemma RawValueFits(supply: Supply)
    ensures RawValue(supply).Some? ==> RawValue(supply).value < UINT64
  {
    if RawValue(supply).Some? {
      WordFits(supply.stream[0..8]);
      assert Words(4) == 0x1_0000_0000;
      assert Words(8) == UINT64;
    }
  }

  // ----- what the differences add up to -----

  /** A counter's last raw value, what reads have returned in all, and what they have discarded. */
  datatype Ledger = Ledger(prev: nat, returned: nat, lost: nat)

  /** One read by a caller: a difference beyond the limit is discarded and the counter read again,
      whatever the second difference is. */
  function AfterRead(l: Ledger, first: Option<nat>, second: Option<nat>): (after: Ledger)
    requires IsWord(Some(l.prev)) && IsWord(first) && IsWord(second)
    ensures IsWord(Some(after.prev))
  {
    if first.None? then l
    else
      var delta := Minus(first.value, l.prev);
      if delta <= LIMIT then Ledger(first.value, l.returned + delta, l.lost)
      else if second.None? then Ledger(first.value, l.returned, l.lost + delta)
      else Ledger(second.value, l.returned + Minus(second.value, first.value), l.lost + delta)
  }

  predicate IsWord(raw: Option<nat>) {
    raw.Some? ==> raw.value < UINT64
  }

  /** What the device gives to the two reads that one call may make. */
  type Offer = o: (Option<nat>, Option<nat>) | IsWord(o.0) && IsWord(o.1) witness (None, None)

  function Books(offers: seq<Offer>): (l: Ledger)
    ensures IsWord(Some(l.prev))
  {
    if offers == [] then Ledger(0, 0, 0)
    else
      var (first, second) := offers[|offers| - 1];
      AfterRead(Books(offers[..|offers| - 1]), first, second)
  }

  /** By how much the differences exceed the last raw value. */
  function Gap(l: Ledger): int {
    l.returned + l.lost - l.prev
  }

  /** One read leaves the gap, or widens it by whole turns of the counter. */
  lemma ReadWidensGap(l: Ledger, offer: Offer)
    requires IsWord(Some(l.prev))
    ensures var gap := Gap(AfterRead(l, offer.0, offer.1)) - Gap(l); gap == 0 || gap == UINT64 || gap == 2 * UINT64
  {
  }

  /** The differences, returned and discarded, add up to the last raw value modulo 2^64. */
  lemma {:induction false} BooksBalance(offers: seq<Offer>)
    ensures Gap(Books(offers)) >= 0 && Gap(Books(offers)) % UINT64 == 0
  {
    if offers != [] {
      BooksBalance(offers[..|offers| - 1]);
      ReadWidensGap(Books(offers[..|offers| - 1]), offers[|offers| - 1]);
    }
  }

  lemma SumModulo(a: nat, b: nat, sum: nat)
    requires sum < UINT64 && a + b >= sum && (a + b - sum) % UINT64 == 0
    ensures a % UINT64 == sum <==> b % UINT64 == 0
  {
    var i, j, turns := a / UINT64, b / UINT64, (a + b - sum) / UINT64;
    var k := turns - i - j;
    assert a % UINT64 + b % UINT64 == sum + UINT64 * k;
    assert k == 0 || k == 1;
  }

  /** What callers see adds up to the last raw value, modulo 2^64, just when what was discarded
      adds up to whole turns of the counter. */
  lemma ReturnedTellsTheCount(offers: seq<Offer>)
    ensures var l := Books(offers); l.returned % UINT64 == l.prev <==> l.lost % UINT64 == 0
  {
    BooksBalance(offers);
    SumModulo(Books(offers).returned, Books(offers).lost, Books(offers).prev);
  }

  /** No read finds the counter lower than the last one did, or higher by more than the limit. */
  predicate Steady(offers: seq<Offer>) {
    offers == [] ||
    (Steady(offers[..|offers| - 1]) &&
     var prev, first := Books(offers[..|offers| - 1]).prev, offers[|offers| - 1].0;
     first.Some? ==> prev <= first.value <= prev + LIMIT)
  }

  /** Callers see every count, once, and none is discarded, just when the counter is steady. */
  lemma {:induction false} ExactWhenSteady(offers: seq<Offer>)
    ensures Steady(offers) <==> Books(offers).lost == 0 && Books(offers).returned == Books(offers).prev
  {
    if offers != [] {
      var front := offers[..|offers| - 1];
      ExactWhenSteady(front);
      BooksBalance(front);
      ReadWidensGap(Books(front), offers[|offers| - 1]);
    }
  }

  // ----- an event -----

  /** What the two reads get. */
  function OfferOf(supplies: (Supply, Supply)): Offer {
    RawValueFits(supplies.0);
    RawValueFits(supplies.1);
    (RawValue(supplies.0), RawValue(supplies.1))
  }

  function OffersOf(supplies: seq<(Supply, Supply)>): seq<Offer> {
    if supplies == [] then []
    else OffersOf(supplies[..|supplies| - 1]) + [OfferOf(supplies[|supplies| - 1])]
  }

  function Sum(values: seq<nat>): nat {
    if values == [] then 0 else Sum(values[..|values| - 1]) + values[|values| - 1]
  }

  /** A read succeeds if the first raw value can be had, and the second one too if it is needed. */
  predicate CanRead(prev: nat, supplies: (Supply, Supply))
    requires prev < UINT64
  {
    && RawValue(supplies.0).Some?
    && (RawValueFits(supplies.0); Minus(RawValue(supplies.0).value, prev) <= LIMIT || RawValue(supplies.1).Some?)
  }

  lemma SumOneMore(values: seq<nat>, value: nat)
    ensures Sum(values + [value]) == Sum(values) + value
  {
    assert (values + [value])[..|values|] == values;
  }

  /** A read returns and discards the same, whatever was returned and discarded before. */
  lemma ReadAdds(l: Ledger, offer: Offer)
    requires l.prev < UINT64
    ensures var read := AfterRead(Ledger(l.prev, 0, 0), offer.0, offer.1);
      AfterRead(l, offer.0, offer.1) == Ledger(read.prev, l.returned + read.returned, l.lost + read.lost)
  {
  }

  lemma BooksOneMore(offers: seq<Offer>, offer: Offer)
    ensures Books(offers + [offer]) == AfterRead(Books(offers), offer.0, offer.1)
  {
    var more := offers + [offer];
    assert more[..|more| - 1] == offers && more[|more| - 1] == offer;
  }

  lemma OffersOneMore(supplies: seq<(Supply, Supply)>, i: nat)
    requires i < |supplies|
    ensures OffersOf(supplies[..i + 1]) == OffersOf(supplies[..i]) + [OfferOf(supplies[i])]
  {
    assert supplies[..i + 1][..i] == supplies[..i];
  }

  /** What a successful read returns: the first difference with the first times if it is at most the
      limit, and else how far the second raw value is from the first, with the second times. */
  predicate Returns(before: nat, first: nat, supplies: (Supply, Supply), raw: nat, value: nat,
                    timeEnabled: nat, timeRunning: nat)
    requires before < UINT64 && first < UINT64 && raw < UINT64
  {
    if Minus(first, before) <= 0xFFFF_FFFF_FFFF then
      raw == first && value == Minus(first, before) && IsRecord(supplies.0.stream, raw, timeEnabled, timeRunning)
    else
      value == Minus(raw, first) && IsRecord(supplies.1.stream, raw, timeEnabled, timeRunning)
  }

  class Event {
    var prevCntrVal: nat

    constructor ()
      ensures prevCntrVal == 0
    {
      prevCntrVal := 0;
    }

    /** The difference to the last value; a failed read leaves the last value as it was. */
    method GetValue(supply: Supply) returns (err: nat, value: nat, timeEnabled: nat, timeRunning: nat)
      requires prevCntrVal < UINT64
      modifies this
      ensures prevCntrVal < UINT64
      ensures err == 0 <==> RawValue(supply).Some?
      ensures err == 0 ==> prevCntrVal == RawValue(supply).value && value == Minus(prevCntrVal, old(prevCntrVal))
      ensures err == 0 ==> IsRecord(supply.stream, prevCntrVal, timeEnabled, timeRunning)
      ensures err != 0 ==> prevCntrVal == old(prevCntrVal)
      ensures err != 0 ==> err == match Met(|supply.stream|, supply.script, RECORD)
                                  case Some(errno) => errno
                                  case None => EIO
    {
      var buf := new byte[RECORD](_ => 0);
      var ret := Readn(supply, buf, RECORD);
      if ret < 0 {
        return -ret, 0, 0, 0;
      }
      if ret != RECORD {
        return EIO, 0, 0, 0;
      }
      RawValueFits(supply);
      SameFields(buf[..RECORD], supply.stream);
      var raw := Field(buf[..RECORD], 0);
      value := Minus(raw, prevCntrVal);
      prevCntrVal := raw;
      err, timeEnabled, timeRunning := 0, Field(buf[..RECORD], 1), Field(buf[..RECORD], 2);
    }

    /** A caller's read. */
    method CounterRead(supplies: (Supply, Supply))
      returns (ok: bool, value: nat, timeEnabled: nat, timeRunning: nat, ghost lost: nat)
      requires prevCntrVal < UINT64
      modifies this
      ensures prevCntrVal < UINT64
      ensures AfterRead(Ledger(old(prevCntrVal), 0, 0), OfferOf(supplies).0, OfferOf(supplies).1)
           == Ledger(prevCntrVal, if ok then value else 0, lost)
      ensures ok <==> CanRead(old(prevCntrVal), supplies)
      ensures ok ==>
        Returns(old(prevCntrVal), RawValue(supplies.0).value, supplies, prevCntrVal, value, timeEnabled, timeRunning)
    {
      lost := 0;
      RawValueFits(supplies.0);
      RawValueFits(supplies.1);
      var ret;
      ret, value, timeEnabled, timeRunning := GetValue(supplies.0);
      if ret == 0 && value > LIMIT {
        lost := value;
        ret, value, timeEnabled, timeRunning := GetValue(supplies.1);
      }
      ok := ret == 0;
    }

    /** One read of many. */
    method PollOnce(supplies: (Supply, Supply), values: seq<nat>, ghost offers: seq<Offer>, ghost lost: nat)
      returns (more: seq<nat>, ghost gone: nat)
      requires Books(offers) == Ledger(prevCntrVal, Sum(values), lost)
      modifies this
      ensures Books(offers + [OfferOf(supplies)]) == Ledger(prevCntrVal, Sum(more), gone)
    {
      var ok, value, timeEnabled, timeRunning, discarded := CounterRead(supplies);
      ReadAdds(Books(offers), OfferOf(supplies));
      BooksOneMore(offers, OfferOf(supplies));
      SumOneMore(values, value);
      more, gone := if ok then values + [value] else values, lost + discarded;
    }

    /** Any number of reads of a new event. */
    method Poll(supplies: seq<(Supply, Supply)>) returns (values: seq<nat>)
      requires prevCntrVal == 0
      modifies this
      ensures prevCntrVal == Books(OffersOf(supplies)).prev
      ensures Sum(values) == Books(OffersOf(supplies)).returned
    {
      values := [];
      ghost var lost := 0;
      for i := 0 to |supplies|
        invariant Books(OffersOf(supplies[..i])) == Ledger(prevCntrVal, Sum(values), lost)
      {
        values, lost := PollOnce(supplies[i], values, OffersOf(supplies[..i]), lost);
        OffersOneMore(supplies, i);
      }
      assert supplies[..|supplies|] == supplies;
    }
  }
}
