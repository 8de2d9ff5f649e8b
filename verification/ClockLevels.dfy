/** Choosing clock levels: from the list a user gives, through a bit mask, to the list of level
    numbers that is written to the device. */
module ClockLevels {

  import opened Bits
  import opened Options

  const MAX_FREQUENCIES: nat := 33

  /** The mask of a list of levels. */
  function MaskOf(levels: seq<nat>): nat {
    if levels == [] then 0 else Or(MaskOf(levels[..|levels| - 1]), Pow2(levels[|levels| - 1]))
  }

  lemma {:induction false} MaskHasLevels(levels: seq<nat>, i: nat)
    ensures Bit(MaskOf(levels), i) <==> i in levels
  {
    if levels == [] {
      NoBits(i);
    } else {
      var front, last := levels[..|levels| - 1], levels[|levels| - 1];
      MaskHasLevels(front, i);
      OrBits(MaskOf(front), Pow2(last), i);
      Pow2Bits(last, i);
      assert levels == front + [last];
    }
  }

  predicate AllBelow(levels: seq<nat>, n: nat) {
    forall i :: 0 <= i < |levels| ==> levels[i] < n
  }

  /** Comparing the mask with `2^n` tells whether every level is below `n`. */
  lemma MaskComparesLikeLevels(levels: seq<nat>, n: nat)
    ensures MaskOf(levels) < Pow2(n) <==> AllBelow(levels, n)
  {
    var mask := MaskOf(levels);
    if mask < Pow2(n) {
      forall i | 0 <= i < |levels|
        ensures levels[i] < n
      {
        MaskHasLevels(levels, levels[i]);
        if levels[i] >= n {
          BitsBelow(mask, n, levels[i]);
        }
      }
    } else {
      var i := HighBit(mask, n);
      MaskHasLevels(levels, i);
    }
  }

  // ----- the list of level numbers -----

  /** The bits of a mask below `n`, in increasing order. */
  function Indices(mask: nat, n: nat): seq<nat> {
    if n == 0 then [] else Indices(mask, n - 1) + (if Bit(mask, n - 1) then [n - 1] else [])
  }

  predicate StrictlyIncreasing(s: seq<nat>) {
    forall i, j :: 0 <= i < j < |s| ==> s[i] < s[j]
  }

  lemma {:induction false} IndicesAreTheBits(mask: nat, n: nat)
    ensures StrictlyIncreasing(Indices(mask, n))
    ensures forall i: nat :: i in Indices(mask, n) <==> i < n && Bit(mask, i)
  {
    if n > 0 {
      IndicesAreTheBits(mask, n - 1);
      var front, all := Indices(mask, n - 1), Indices(mask, n);
      assert forall k :: 0 <= k < |front| ==> front[k] in front;
      assert forall k :: 0 <= k < |front| ==> front[k] < n - 1;
      if Bit(mask, n - 1) {
        assert all == front + [n - 1];
      } else {
        assert all == front;
      }
    }
  }

  function Digit(d: nat): char
    requires d < 10
  {
    '0' + d as char
  }

  function Decimal(n: nat): (s: string)
    ensures s != "" && forall i :: 0 <= i < |s| ==> '0' <= s[i] <= '9'
  {
    if n < 10 then [Digit(n)] else Decimal(n / 10) + [Digit(n % 10)]
  }

  /** Each level number followed by a blank. */
  function Listing(levels: seq<nat>): string {
    if levels == [] then "" else Listing(levels[..|levels| - 1]) + Decimal(levels[|levels| - 1]) + " "
  }

  /** At place `i` there is a blank behind a digit, or a digit with something behind it, which is a blank if
      the digit is a leading zero. */
  predicate IsPlace(text: string, i: nat)
    requires i < |text|
  {
    if text[i] == ' ' then i > 0 && text[i - 1] != ' '
    else
      && '0' <= text[i] <= '9' && i + 1 < |text|
      && (text[i] == '0' && (i == 0 || text[i - 1] == ' ') ==> text[i + 1] == ' ')
  }

  /** Digits, with one blank after each number and no leading zeros, and nothing else. */
  predicate IsListing(text: string) {
    forall i :: 0 <= i < |text| ==> IsPlace(text, i)
  }

  lemma {:induction false} NoLeadingZero(n: nat)
    ensures n > 0 ==> Decimal(n)[0] != '0'
    ensures n == 0 ==> Decimal(n) == "0"
  {
    if n >= 10 {
      NoLeadingZero(n / 10);
      assert Decimal(n)[0] == Decimal(n / 10)[0];
    }
  }

  lemma {:induction false} ListingIsListing(levels: seq<nat>)
    ensures IsListing(Listing(levels))
  {
    if levels != [] {
      var last := levels[|levels| - 1];
      ListingIsListing(levels[..|levels| - 1]);
      NoLeadingZero(last);
      OneMoreListed(Listing(levels[..|levels| - 1]), Decimal(last));
    }
  }

  lemma OneMoreListed(text: string, digits: string)
    requires IsListing(text) && digits != "" && (digits[0] == '0' ==> |digits| == 1)
    requires forall i :: 0 <= i < |digits| ==> '0' <= digits[i] <= '9'
    ensures IsListing(text + digits + " ")
  {
    var all, n := text + digits + " ", |text|;
    assert forall i :: 0 <= i < n ==> all[i] == text[i];
    assert forall i :: 0 <= i < |digits| ==> all[n + i] == digits[i];
    forall i | 0 <= i < |all|
      ensures IsPlace(all, i)
    {
      if i < n {
        assert IsPlace(text, i);
      } else if i < n + |digits| {
        assert all[i] == digits[i - n] && (i > n ==> all[i - 1] == digits[i - n - 1]);
      } else {
        assert all[i - 1] == digits[|digits| - 1];
      }
    }
  }

  /** Reading a listing: `number` is the number whose digits are being read. */
  function Parse(s: string, number: nat, found: seq<nat>): seq<nat> {
    if s == "" then found
    else if s[0] == ' ' then Parse(s[1..], 0, found + [number])
    else if '0' <= s[0] <= '9' then Parse(s[1..], 10 * number + (s[0] - '0') as nat, found)
    else Parse(s[1..], number, found)
  }

  /** The number that digits stand for, after digits that stand for `number`. */
  function Value(digits: string, number: nat): nat
    requires forall i :: 0 <= i < |digits| ==> '0' <= digits[i] <= '9'
  {
    if digits == "" then number else Value(digits[1..], 10 * number + (digits[0] - '0') as nat)
  }

  lemma {:induction false} ValueOfMore(digits: string, d: char, number: nat)
    requires forall i :: 0 <= i < |digits| ==> '0' <= digits[i] <= '9'
    requires '0' <= d <= '9'
    ensures Value(digits + [d], number) == 10 * Value(digits, number) + (d - '0') as nat
  {
    if digits == "" {
      assert Value([d], number) == Value([d][1..], 10 * number + (d - '0') as nat);
    } else {
      assert (digits + [d])[1..] == digits[1..] + [d];
      ValueOfMore(digits[1..], d, 10 * number + (digits[0] - '0') as nat);
    }
  }

  lemma {:induction false} DecimalValue(n: nat)
    ensures Value(Decimal(n), 0) == n
  {
    if n < 10 {
      assert Value([Digit(n)], 0) == Value([Digit(n)][1..], n);
    } else {
      DecimalValue(n / 10);
      ValueOfMore(Decimal(n / 10), Digit(n % 10), 0);
    }
  }

  lemma {:induction false} ParseNumber(digits: string, rest: string, number: nat, found: seq<nat>)
    requires forall i :: 0 <= i < |digits| ==> '0' <= digits[i] <= '9'
    ensures Parse(digits + " " + rest, number, found) == Parse(rest, 0, found + [Value(digits, number)])
  {
    var s := digits + " " + rest;
    if digits == "" {
      assert s[1..] == rest;
    } else {
      assert s[1..] == digits[1..] + " " + rest;
      ParseNumber(digits[1..], rest, 10 * number + (digits[0] - '0') as nat, found);
    }
  }

  /** Reading back what was listed gives the levels. */
  lemma {:induction false} ListingReadsBack(levels: seq<nat>, rest: string, found: seq<nat>)
    ensures Parse(Listing(levels) + rest, 0, found) == Parse(rest, 0, found + levels)
    decreases |levels|
  {
    if levels == [] {
      assert Listing(levels) + rest == rest && found + levels == found;
    } else {
      var front, last := levels[..|levels| - 1], levels[|levels| - 1];
      assert Listing(levels) + rest == Listing(front) + (Decimal(last) + " " + rest);
      ListingReadsBack(front, Decimal(last) + " " + rest, found);
      ParseNumber(Decimal(last), rest, 0, found + front);
      DecimalValue(last);
      assert found + levels == found + front + [last];
    }
  }

  /** The text written for a mask, if the device does not claim too many levels. */
  method BitfieldToFreqString(bitf: nat, numSupported: nat) returns (text: Option<string>)
    ensures text == if numSupported > MAX_FREQUENCIES then None else Some(Listing(Indices(bitf, numSupported)))
  {
    if numSupported > MAX_FREQUENCIES {
      return None;
    }
    var bfStr := "";
    for i := 0 to numSupported
      invariant bfStr == Listing(Indices(bitf, i))
    {
      ghost var before, listed := bfStr, Indices(bitf, i + 1);
      if Bit(bitf, i) {
        assert listed[..|listed| - 1] == Indices(bitf, i) && listed[|listed| - 1] == i;
        bfStr := bfStr + Decimal(i);
        bfStr := bfStr + " ";
        assert bfStr == before + Decimal(i) + " ";
      } else {
        assert listed == Indices(bitf, i);
      }
    }
    text := Some(bfStr);
  }

  /** A device as its driver answers: whether it is in manual mode or can be set to it, how many
      levels it reports, if it does, and whether it accepts what is written. */
  datatype Driver = Driver(isManual: bool, setsManual: bool, numSupported: Option<nat>, accepts: bool)

  /** The levels may be tried on this device; if not, no further device is tried. */
  predicate MayTry(d: Driver, levels: seq<nat>) {
    (d.isManual || d.setsManual) && d.numSupported.Some? && AllBelow(levels, d.numSupported.value)
  }

  /** The device takes the levels. */
  predicate Takes(d: Driver, levels: seq<nat>) {
    MayTry(d, levels) && d.numSupported.value <= MAX_FREQUENCIES && d.accepts
  }

  predicate AllTake(devices: seq<Driver>, levels: seq<nat>) {
    forall i :: 0 <= i < |devices| ==> Takes(devices[i], levels)
  }

  predicate AllMayTry(devices: seq<Driver>, levels: seq<nat>) {
    forall i :: 0 <= i < |devices| ==> MayTry(devices[i], levels)
  }

  /** The text is a listing of each of these levels once, in increasing order, and reading it rebuilds
      their mask. */
  predicate Lists(text: string, levels: seq<nat>) {
    var read := Parse(text, 0, []);
    && IsListing(text)
    && StrictlyIncreasing(read)
    && (forall level :: level in read ==> level in levels)
    && (forall level :: level in levels ==> level in read)
    && MaskOf(read) == MaskOf(levels)
  }

  /** What is written for levels that the device has, read back, are these levels in increasing
      order, each once; and they rebuild the mask. */
  lemma ListedAndReadBack(levels: seq<nat>, n: nat)
    requires AllBelow(levels, n)
    ensures Lists(Listing(Indices(MaskOf(levels), n)), levels)
  {
    var listed := Indices(MaskOf(levels), n);
    ListingIsListing(listed);
    ListingReadsBack(listed, "", []);
    assert Listing(listed) + "" == Listing(listed) && [] + listed == listed;
    IndicesAreTheBits(MaskOf(levels), n);
    forall level: nat
      ensures level in listed <==> level in levels
      ensures Bit(MaskOf(listed), level) <==> Bit(MaskOf(levels), level)
    {
      MaskHasLevels(levels, level);
      MaskHasLevels(listed, level);
    }
    SameBits(MaskOf(listed), MaskOf(levels));
  }

  /** Setting clock levels of some type on several devices. A device that does not accept what is
      written gets nothing, and the next one is tried all the same. */
  method SetClocks(levels: seq<nat>, isValidType: bool, devices: seq<Driver>)
    returns (retcode: int, written: seq<Option<string>>)
    ensures retcode == 0 <==> levels != [] && isValidType && AllBelow(levels, 64) && AllTake(devices, levels)
    ensures retcode in {0, 1}
    ensures |written| <= |devices| && AllMayTry(devices[..|written|], levels)
    ensures levels == [] || !isValidType || !AllBelow(levels, 64) ==> written == []
    ensures levels != [] && isValidType && AllBelow(levels, 64) && |written| < |devices| ==>
      !MayTry(devices[|written|], levels)
    ensures forall i :: 0 <= i < |written| ==> Writes(written[i], devices[i], levels)
  {
    retcode, written := 0, [];
    if levels == [] || !isValidType {
      return 1, [];
    }
    var freqBitmask := 0;
    for i := 0 to |levels|
      invariant AllBelow(levels[..i], 64) && freqBitmask == MaskOf(levels[..i])
    {
      if levels[i] > 63 {
        return 1, [];
      }
      assert levels[..i + 1][..i] == levels[..i];
      freqBitmask := Or(freqBitmask, Pow2(levels[i]));
    }
    assert levels[..|levels|] == levels;
    retcode, written := SetDevices(levels, freqBitmask, devices);
  }

  /** What a device gets: a list of the levels if it takes them, and else nothing. */
  predicate Writes(text: Option<string>, d: Driver, levels: seq<nat>) {
    (text.Some? <==> Takes(d, levels)) && (text.Some? ==> Lists(text.value, levels))
  }

  /** One round of the loop of `SetClocks`: a device that may not be tried ends it. */
  method SetDevice(levels: seq<nat>, freqBitmask: nat, d: Driver) returns (goesOn: bool, text: Option<string>)
    requires freqBitmask == MaskOf(levels)
    ensures goesOn <==> MayTry(d, levels)
    ensures goesOn ==> Writes(text, d, levels)
  {
    if !d.isManual && !d.setsManual {
      return false, None;
    }
    if d.numSupported.None? {
      return false, None;
    }
    MaskComparesLikeLevels(levels, d.numSupported.value);
    if freqBitmask >= Pow2(d.numSupported.value) {
      return false, None;
    }
    goesOn := true;
    text := BitfieldToFreqString(freqBitmask, d.numSupported.value);
    ListedAndReadBack(levels, d.numSupported.value);
    if !d.accepts {
      text := None;
    }
  }

  /** The loop of `SetClocks` over the devices. */
  method SetDevices(levels: seq<nat>, freqBitmask: nat, devices: seq<Driver>)
    returns (retcode: int, written: seq<Option<string>>)
    requires freqBitmask == MaskOf(levels)
    ensures retcode in {0, 1} && (retcode == 0 <==> AllTake(devices, levels))
    ensures |written| <= |devices| && AllMayTry(devices[..|written|], levels)
    ensures |written| < |devices| ==> !MayTry(devices[|written|], levels)
    ensures forall i :: 0 <= i < |written| ==> Writes(written[i], devices[i], levels)
  {
    retcode, written := 0, [];
    for i := 0 to |devices|
      invariant |written| == i && AllMayTry(devices[..i], levels)
      invariant retcode in {0, 1} && (retcode == 0 <==> AllTake(devices[..i], levels))
      invariant forall j :: 0 <= j < i ==> Writes(written[j], devices[j], levels)
    {
      assert devices[..i + 1] == devices[..i] + [devices[i]];
      var goesOn, text := SetDevice(levels, freqBitmask, devices[i]);
      if !goesOn {
        return 1, written;
      }
      if text.None? {
        retcode := 1;
      }
      written := written + [text];
    }
    assert devices[..|devices|] == devices;
  }
}
