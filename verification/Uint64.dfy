/** The arithmetic of `uint64_t`. */
module Uint64 {
  const TWO_64 := 0x1_0000_0000_0000_0000
  const MAX := 0xFFFF_FFFF_FFFF_FFFF

  /** The value a 64-bit counter holds after `n` increments from zero. */
  function Wrap(n: nat): (r: nat)
    ensures r < TWO_64
  {
    n % 0x1_0000_0000_0000_0000
  }

  lemma WrapSmall(n: nat)
    ensures n < TWO_64 ==> Wrap(n) == n
    ensures n == TWO_64 ==> Wrap(n) == 0
  {
  }
}
