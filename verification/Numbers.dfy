module Numbers {

  /** How many words of 64 bits there are. */
  const UINT64: nat := 0x1_0000_0000_0000_0000

  function Min(a: nat, b: nat): nat {
    if a <= b then a else b
  }
}
