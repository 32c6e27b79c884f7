/** The `BINARY_MASK_32BIT(start, end)` macro: a 32-bit word whose bits
    `start..end` (inclusive, bit 0 least significant) are set. */
module BinaryMask {

  /** Bit `i` of `x`, bit 0 being the least significant. */
  predicate BitSet(x: bv32, i: bv32)
    requires i < 32
  {
    (x >> i) & 1 == 1
  }

  /** The macro as written: all-ones shifted right by `32 - (end + 1)`,
      intersected with all-ones shifted left by `start`.  In C both shift
      counts are defined only when they lie in 0..31, which is exactly the
      precondition below. */
  function Mask32(start: bv32, end: bv32): (r: bv32)
    requires start <= 31 && end <= 31
    ensures forall i: bv32 :: i < 32 ==> (BitSet(r, i) <==> start <= i <= end)
  {
    (0xFFFF_FFFF >> (32 - (end + 1))) & (0xFFFF_FFFF << start)
  }

  /** With the bounds reversed the two operands of `&` share no bit. */
  lemma MaskEmptyWhenReversed(start: bv32, end: bv32)
    requires end < start <= 31
    ensures Mask32(start, end) == 0
  {
  }

  /** The closed form 2^(end+1) - 2^start, in 32-bit wrapping arithmetic
      (for `end == 31` the term 2^32 wraps to 0). */
  lemma MaskClosedForm(start: bv32, end: bv32)
    requires start <= end <= 31
    ensures Mask32(start, end) == (1 << (end + 1)) - (1 << start)
    ensures start == 0 && end == 31 ==> Mask32(start, end) == 0xFFFF_FFFF
  {
  }
}
