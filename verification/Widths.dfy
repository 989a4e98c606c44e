/** The bounds of the machine integers, and a little arithmetic. */
module Widths {
  const U64: nat := 0x1_0000_0000_0000_0000
  const U32_MAX: nat := 0xFFFF_FFFF
  const I32_MAX: nat := 0x7FFF_FFFF

  function Max(a: int, b: int): int { if a <= b then b else a }

  lemma MulMonotone(a: int, b: int, k: nat)
    requires a <= b
    ensures a * k <= b * k
  {
  }
}
