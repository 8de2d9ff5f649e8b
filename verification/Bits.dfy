/** Binary numbers: their bits, and the operators `|`, `&`, `<<` and `>>` on them. */
module Bits {

  function Pow2(n: nat): (p: nat)
    ensures p > 0
  {
    if n == 0 then 1 else 2 * Pow2(n - 1)
  }

  predicate Bit(mask: nat, i: nat) {
    if i == 0 then mask % 2 == 1 else Bit(mask / 2, i - 1)
  }

  /** `a | b` */
  function Or(a: nat, b: nat): nat
    decreases a + b
  {
    if a == 0 then b
    else if b == 0 then a
    else 2 * Or(a / 2, b / 2) + (if a % 2 == 1 || b % 2 == 1 then 1 else 0)
  }

  /** `a & b` */
  function And(a: nat, b: nat): nat {
    if a == 0 || b == 0 then 0
    else 2 * And(a / 2, b / 2) + (if a % 2 == 1 && b % 2 == 1 then 1 else 0)
  }

  /** `a << n`, on numbers without a width */
  function Shl(a: nat, n: nat): nat {
    if n == 0 then a else 2 * Shl(a, n - 1)
  }

  /** `a >> n` */
  function Shr(a: nat, n: nat): nat {
    if n == 0 then a else Shr(a / 2, n - 1)
  }

  /** The lowest `n` bits of `a` */
  function Low(a: nat, n: nat): nat {
    if n == 0 then 0 else 2 * Low(a / 2, n - 1) + a % 2
  }

  lemma {:induction false} NoBits(i: nat)
    ensures !Bit(0, i)
  {
    if i > 0 {
      NoBits(i - 1);
    }
  }

  lemma {:induction false} OrBits(a: nat, b: nat, i: nat)
    ensures Bit(Or(a, b), i) <==> Bit(a, i) || Bit(b, i)
    decreases a + b
  {
    if a == 0 || b == 0 {
      NoBits(i);
    } else {
      var or := Or(a, b);
      assert or / 2 == Or(a / 2, b / 2) && (or % 2 == 1 <==> a % 2 == 1 || b % 2 == 1);
      if i > 0 {
        OrBits(a / 2, b / 2, i - 1);
      }
    }
  }

  lemma {:induction false} AndBits(a: nat, b: nat, i: nat)
    ensures Bit(And(a, b), i) <==> Bit(a, i) && Bit(b, i)
    decreases a + b
  {
    if a == 0 || b == 0 {
      NoBits(i);
    } else {
      var both := And(a, b);
      assert both / 2 == And(a / 2, b / 2) && (both % 2 == 1 <==> a % 2 == 1 && b % 2 == 1);
      if i > 0 {
        AndBits(a / 2, b / 2, i - 1);
      }
    }
  }

  lemma {:induction false} ShlBits(a: nat, n: nat, i: nat)
    ensures Bit(Shl(a, n), i) <==> i >= n && Bit(a, i - n)
  {
    if n > 0 {
      assert Shl(a, n) / 2 == Shl(a, n - 1) && Shl(a, n) % 2 == 0;
      if i > 0 {
        ShlBits(a, n - 1, i - 1);
      }
    }
  }

  lemma {:induction false} ShrBits(a: nat, n: nat, i: nat)
    ensures Bit(Shr(a, n), i) <==> Bit(a, n + i)
  {
    if n > 0 {
      ShrBits(a / 2, n - 1, i);
    }
  }

  lemma {:induction false} LowBits(a: nat, n: nat, i: nat)
    ensures Bit(Low(a, n), i) <==> i < n && Bit(a, i)
  {
    if n == 0 {
      NoBits(i);
    } else {
      assert Low(a, n) / 2 == Low(a / 2, n - 1) && Low(a, n) % 2 == a % 2;
      if i > 0 {
        LowBits(a / 2, n - 1, i - 1);
      }
    }
  }

  lemma {:induction false} Pow2Bits(n: nat, i: nat)
    ensures Bit(Pow2(n), i) <==> i == n
  {
    if n > 0 {
      assert Pow2(n) / 2 == Pow2(n - 1) && Pow2(n) % 2 == 0;
      if i > 0 {
        Pow2Bits(n - 1, i - 1);
      }
    } else if i > 0 {
      NoBits(i - 1);
    }
  }

  /** A number is zero, or it has a bit. */
  lemma {:induction false} SomeBit(a: nat) returns (i: nat)
    requires a != 0
    ensures Bit(a, i)
  {
    if a % 2 == 1 {
      i := 0;
    } else {
      i := SomeBit(a / 2);
      i := i + 1;
    }
  }

  /** A number of at least `2^n` has a bit at `n` or above. */
  lemma {:induction false} HighBit(a: nat, n: nat) returns (i: nat)
    requires a >= Pow2(n)
    ensures i >= n && Bit(a, i)
  {
    if n > 0 {
      i := HighBit(a / 2, n - 1);
      i := i + 1;
    } else {
      i := SomeBit(a);
    }
  }

  lemma {:induction false} BitsBelow(a: nat, n: nat, i: nat)
    requires a < Pow2(n) && i >= n
    ensures !Bit(a, i)
  {
    if n == 0 {
      NoBits(i);
    } else {
      BitsBelow(a / 2, n - 1, i - 1);
    }
  }

  lemma {:induction false} SameBits(a: nat, b: nat)
    requires forall i: nat :: Bit(a, i) <==> Bit(b, i)
    ensures a == b
    decreases a + b
  {
    if a != 0 || b != 0 {
      assert Bit(a, 0) <==> Bit(b, 0);
      forall i: nat
        ensures Bit(a / 2, i) <==> Bit(b / 2, i)
      {
        assert Bit(a, i + 1) <==> Bit(b, i + 1);
      }
      SameBits(a / 2, b / 2);
    }
  }
}
