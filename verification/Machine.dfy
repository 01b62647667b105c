/** Machine words: their size, their largest value, and their low bits as a set. */
module Machine {
  const BITS: nat := 64
  const ULONG_MAX: nat := 0xFFFF_FFFF_FFFF_FFFF
  const U64: nat := 0x1_0000_0000_0000_0000

  /** The bits below o. */
  function LowBits(o: nat): (s: set<nat>)
    ensures forall b: nat :: b in s <==> b < o
  {
    if o == 0 then {} else LowBits(o - 1) + {o - 1}
  }
}
