/** The 32-bit mask of acquired devices, read as a set of device numbers. */
module DeviceMask {

  /** A device number, a legal shift distance for a 32-bit word. */
  type Device = d: bv32 | d < 32

  predicate IsSet(mask: bv32, d: Device) {
    (mask >> d) & 1 == 1
  }

  lemma OrBit(a: bv32, b: bv32, d: Device)
    ensures IsSet(a | b, d) <==> IsSet(a, d) || IsSet(b, d)
  {
  }

  lemma AndBit(a: bv32, b: bv32, d: Device)
    ensures IsSet(a & b, d) <==> IsSet(a, d) && IsSet(b, d)
  {
  }

  lemma XorBit(a: bv32, b: bv32, d: Device)
    ensures IsSet(a ^ b, d) <==> IsSet(a, d) != IsSet(b, d)
  {
  }

  lemma OneBit(d: Device, e: Device)
    ensures IsSet(1 << e, d) <==> d == e
  {
  }

  lemma NoBit(d: Device)
    ensures !IsSet(0, d)
  {
  }

  lemma NoBits(a: bv32)
    requires forall d: Device :: !IsSet(a, d)
    ensures a == 0
  {
    assert !IsSet(a, 0) && !IsSet(a, 1) && !IsSet(a, 2) && !IsSet(a, 3) && !IsSet(a, 4) && !IsSet(a, 5);
    assert !IsSet(a, 6) && !IsSet(a, 7) && !IsSet(a, 8) && !IsSet(a, 9) && !IsSet(a, 10) && !IsSet(a, 11);
    assert !IsSet(a, 12) && !IsSet(a, 13) && !IsSet(a, 14) && !IsSet(a, 15) && !IsSet(a, 16) && !IsSet(a, 17);
    assert !IsSet(a, 18) && !IsSet(a, 19) && !IsSet(a, 20) && !IsSet(a, 21) && !IsSet(a, 22) && !IsSet(a, 23);
    assert !IsSet(a, 24) && !IsSet(a, 25) && !IsSet(a, 26) && !IsSet(a, 27) && !IsSet(a, 28) && !IsSet(a, 29);
    assert !IsSet(a, 30) && !IsSet(a, 31);
  }

  /** The devices of a mask. */
  ghost function Devices(mask: bv32): iset<Device> {
    iset d: Device | IsSet(mask, d)
  }

  lemma DevicesOfZero()
    ensures Devices(0) == iset{}
  {
    forall d: Device
      ensures !IsSet(0, d)
    {
      NoBit(d);
    }
  }

  lemma DevicesOfOne(e: Device)
    ensures Devices(1 << e) == iset{e}
  {
    var x: bv32 := 1 << e;
    forall d: Device
      ensures IsSet(x, d) <==> d == e
    {
      OneBit(d, e);
    }
  }

  lemma DevicesOfOr(a: bv32, b: bv32)
    ensures Devices(a | b) == Devices(a) + Devices(b)
  {
    forall d: Device
      ensures IsSet(a | b, d) <==> IsSet(a, d) || IsSet(b, d)
    {
      OrBit(a, b, d);
    }
  }

  lemma DevicesOfAnd(a: bv32, b: bv32)
    ensures Devices(a & b) == Devices(a) * Devices(b)
  {
    forall d: Device
      ensures IsSet(a & b, d) <==> IsSet(a, d) && IsSet(b, d)
    {
      AndBit(a, b, d);
    }
  }

  /** Exclusive or is symmetric difference. */
  lemma DevicesOfXor(a: bv32, b: bv32)
    ensures Devices(a ^ b) == (Devices(a) - Devices(b)) + (Devices(b) - Devices(a))
  {
    forall d: Device
      ensures IsSet(a ^ b, d) <==> IsSet(a, d) != IsSet(b, d)
    {
      XorBit(a, b, d);
    }
  }

  /** A mask is determined by its devices. */
  lemma SameDevices(a: bv32, b: bv32)
    requires Devices(a) == Devices(b)
    ensures a == b
  {
    DevicesOfXor(a, b);
    var x := a ^ b;
    forall d: Device
      ensures !IsSet(x, d)
    {
      assert d !in Devices(x);
    }
    NoBits(x);
    XorZero(a, b);
  }

  lemma XorZero(a: bv32, b: bv32)
    requires a ^ b == 0
    ensures a == b
  {
  }

  /** `a | (1 << d)` */
  method Include(mask: bv32, d: Device) returns (r: bv32)
    ensures Devices(r) == Devices(mask) + iset{d}
  {
    DevicesOfOne(d);
    DevicesOfOr(mask, 1 << d);
    r := mask | (1 << d);
  }

  method Merge(a: bv32, b: bv32) returns (r: bv32)
    ensures Devices(r) == Devices(a) + Devices(b)
  {
    DevicesOfOr(a, b);
    r := a | b;
  }

  method Overlap(a: bv32, b: bv32) returns (r: bool)
    ensures r <==> !(Devices(a) !! Devices(b))
  {
    var x := a & b;
    DevicesOfAnd(a, b);
    DevicesOfZero();
    if x != 0 && Devices(x) == iset{} {
      SameDevices(x, 0);
    }
    r := x != 0;
  }

  method Covers(a: bv32, b: bv32) returns (r: bool)
    ensures r <==> Devices(a) <= Devices(b)
  {
    var x := a & b;
    DevicesOfAnd(a, b);
    if x != a && Devices(x) == Devices(a) {
      SameDevices(x, a);
    }
    r := x == a;
  }

  method Toggle(a: bv32, b: bv32) returns (r: bv32)
    ensures Devices(r) == (Devices(a) - Devices(b)) + (Devices(b) - Devices(a))
  {
    DevicesOfXor(a, b);
    r := a ^ b;
  }
}
