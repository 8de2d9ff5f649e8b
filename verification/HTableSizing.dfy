/** Grow and shrink thresholds of the hash table, and what resizing costs.

    A table is seen here only as a pair (size, capacity). The thresholds use C's
    truncating division on unsigned values, which on naturals is Dafny's `/`; the
    new capacity is computed in 32-bit arithmetic. */
module HTableSizing {

  import opened Bits

  const MIN_CAPACITY: nat := 8
  const UINT32: nat := 0x1_0000_0000

  /** The largest number of entries for which doubling never leaves 32 bits. */
  const MAX_ENTRIES: nat := 0x4000_0000

  /** The two thresholds, on truncating division. */
  predicate NeedsToGrow(size: nat, capacity: nat) {
    size > 0 && capacity / size < 2
  }

  predicate NeedsToShrink(size: nat, capacity: nat) {
    size > 0 && capacity / size > 8
  }

  /** The same thresholds without division; `Thresholds` proves that they are the same. */
  predicate TooFull(size: nat, capacity: nat) {
    size > 0 && capacity < 2 * size
  }

  predicate TooEmpty(size: nat, capacity: nat) {
    size > 0 && capacity >= 9 * size
  }

  /** Doubling an unsigned 32-bit number, which wraps around. */
  function Double32(capacity: nat): nat {
    if 2 * capacity < UINT32 then 2 * capacity else 2 * capacity - UINT32
  }

  /** The capacity after one threshold check; growing has priority over shrinking. */
  function NextCapacity(size: nat, capacity: nat): nat {
    if TooFull(size, capacity) then Double32(capacity)
    else if TooEmpty(size, capacity) then capacity / 2
    else capacity
  }

  /** The number of entries one threshold check relocates: all of them or none. */
  function Relocations(size: nat, capacity: nat): nat {
    if TooFull(size, capacity) || TooEmpty(size, capacity) then size else 0
  }

  ghost predicate IsCapacity(capacity: nat) {
    exists k: nat :: capacity == MIN_CAPACITY * Pow2(k)
  }

  /** The load bound: a non-empty table is between one ninth and one half full, and an
      empty one has shrunk all the way back. */
  ghost predicate WellSized(size: nat, capacity: nat) {
    IsCapacity(capacity) && InBounds(size, capacity)
  }

  predicate InBounds(size: nat, capacity: nat) {
    if size > 0 then 2 * size <= capacity < 9 * size else capacity == MIN_CAPACITY
  }

  lemma EmptyTableIsWellSized()
    ensures WellSized(0, MIN_CAPACITY)
  {
    assert MIN_CAPACITY == MIN_CAPACITY * Pow2(0);
  }

  lemma DoubledCapacity(capacity: nat)
    requires IsCapacity(capacity)
    ensures IsCapacity(2 * capacity)
  {
    var k: nat :| capacity == MIN_CAPACITY * Pow2(k);
    assert 2 * capacity == MIN_CAPACITY * Pow2(k + 1);
  }

  lemma HalvedCapacity(capacity: nat)
    requires IsCapacity(capacity) && capacity > MIN_CAPACITY
    ensures capacity % 2 == 0 && IsCapacity(capacity / 2)
  {
    var k: nat :| capacity == MIN_CAPACITY * Pow2(k);
    assert k != 0 && capacity == 2 * (MIN_CAPACITY * Pow2(k - 1));
  }

  lemma CapacityIsMultipleOfEight(capacity: nat) returns (q: nat)
    requires IsCapacity(capacity)
    ensures capacity == 8 * q && q > 0
  {
    var k: nat :| capacity == MIN_CAPACITY * Pow2(k);
    q := Pow2(k);
  }

  lemma Thresholds(size: nat, capacity: nat)
    ensures NeedsToGrow(size, capacity) <==> TooFull(size, capacity)
    ensures NeedsToShrink(size, capacity) <==> TooEmpty(size, capacity)
  {
    if size > 0 {
      QuotientBelow(capacity, size, 2);
      QuotientBelow(capacity, size, 9);
    }
  }

  lemma QuotientBelow(a: nat, b: nat, q: nat)
    requires b > 0
    ensures a / b < q <==> a < q * b
  {
    var d := a / b;
    assert a == d * b + a % b;
    if d < q {
      assert (d + 1) * b <= q * b;
    } else {
      assert q * b <= d * b;
    }
  }

  /** One check after an insertion restores the bound, unless the doubled capacity leaves
      32 bits. That happens at one size only, and then the new capacity is zero. */
  lemma InsertKeepsBound(size: nat, capacity: nat)
    requires WellSized(size, capacity) && capacity < UINT32
    ensures WellSized(size + 1, NextCapacity(size + 1, capacity)) <==> size < MAX_ENTRIES
    ensures size < MAX_ENTRIES ==> NextCapacity(size + 1, capacity) < UINT32
    ensures size >= MAX_ENTRIES ==> size == MAX_ENTRIES && NextCapacity(size + 1, capacity) == 0
  {
    var q := CapacityIsMultipleOfEight(capacity);
    CapacityBelow32Bits(capacity);
    if size < MAX_ENTRIES {
      CapacityAfterInsert(size, capacity, q);
      DoubledCapacity(capacity);
    } else {
      assert size == MAX_ENTRIES && capacity == 2 * MAX_ENTRIES;
      assert !InBounds(size + 1, 0);
    }
  }

  /** There is a table within its load bound that one more entry breaks. */
  lemma FullTableBreaks()
    ensures WellSized(MAX_ENTRIES, 2 * MAX_ENTRIES) && NextCapacity(MAX_ENTRIES + 1, 2 * MAX_ENTRIES) == 0
  {
    Pow2Of29();
    assert 2 * MAX_ENTRIES == MIN_CAPACITY * Pow2(28);
  }

  /** Growing happens at exactly half full, and no insertion calls for shrinking. */
  lemma CapacityAfterInsert(size: nat, capacity: nat, q: nat)
    requires InBounds(size, capacity) && capacity == 8 * q && size < MAX_ENTRIES && capacity < UINT32
    ensures var next := NextCapacity(size + 1, capacity);
      && InBounds(size + 1, next) && next < UINT32
      && (if TooFull(size + 1, capacity) then capacity == 2 * size && next == 2 * capacity else next == capacity)
      && !TooEmpty(size + 1, capacity)
  {
    if TooFull(size + 1, capacity) {
      assert capacity == 2 * size;
    }
  }

  lemma CapacityBelow32Bits(capacity: nat)
    requires IsCapacity(capacity) && capacity < UINT32
    ensures capacity <= UINT32 / 2
  {
    var k: nat :| capacity == MIN_CAPACITY * Pow2(k);
    if k >= 29 {
      Pow2Monotone(29, k);
      assert Pow2(29) == 0x2000_0000 by { Pow2Of29(); }
      assert false;
    } else {
      Pow2Monotone(k, 28);
      assert Pow2(28) == 0x1000_0000 by { Pow2Of29(); }
    }
  }

  lemma Pow2Of29()
    ensures Pow2(28) == 0x1000_0000 && Pow2(29) == 0x2000_0000
  {
    assert Pow2(8) == 256;
    assert Pow2(16) == 65536;
    assert Pow2(24) == 0x100_0000;
  }

  lemma {:induction false} Pow2Monotone(j: nat, k: nat)
    requires j <= k
    ensures Pow2(j) <= Pow2(k)
  {
    if j < k {
      Pow2Monotone(j, k - 1);
    }
  }

  /** One check after a deletion restores the bound, by halving at most once. */
  lemma DeleteKeepsBound(size: nat, capacity: nat)
    requires WellSized(size, capacity) && size > 0
    ensures WellSized(size - 1, NextCapacity(size - 1, capacity))
    ensures NextCapacity(size - 1, capacity) <= capacity
  {
    var q := CapacityIsMultipleOfEight(capacity);
    CapacityAfterDelete(size, capacity, q);
    if TooEmpty(size - 1, capacity) {
      HalvedCapacity(capacity);
    }
  }

  /** No deletion calls for growing, and a table that shrinks is not at its smallest. */
  lemma CapacityAfterDelete(size: nat, capacity: nat, q: nat)
    requires InBounds(size, capacity) && size > 0 && capacity == 8 * q
    ensures var next := NextCapacity(size - 1, capacity);
      && InBounds(size - 1, next)
      && (if TooEmpty(size - 1, capacity) then MIN_CAPACITY < capacity == 2 * next else next == capacity)
      && !TooFull(size - 1, capacity)
  {
  }

  /** Four times the work a table of this shape has saved up for its next resize. */
  function Potential(size: nat, capacity: nat): nat {
    if 4 * size >= capacity then 3 * (4 * size - capacity)
    else if capacity == MIN_CAPACITY then 0
    else capacity - 4 * size
  }

  /** Three relocations per added entry pay for every doubling. */
  lemma InsertPays(size: nat, capacity: nat)
    requires WellSized(size, capacity) && size < MAX_ENTRIES && capacity < UINT32
    ensures 4 * Relocations(size + 1, capacity) + Potential(size + 1, NextCapacity(size + 1, capacity))
         <= Potential(size, capacity) + 12
  {
    var q := CapacityIsMultipleOfEight(capacity);
    CapacityAfterInsert(size, capacity, q);
  }

  /** One relocation per removed entry pays for every halving. */
  lemma DeletePays(size: nat, capacity: nat)
    requires WellSized(size, capacity) && size > 0
    ensures 4 * Relocations(size - 1, capacity) + Potential(size - 1, NextCapacity(size - 1, capacity))
         <= Potential(size, capacity) + 4
  {
    var q := CapacityIsMultipleOfEight(capacity);
    CapacityAfterDelete(size, capacity, q);
  }
}
