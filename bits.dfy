/** Number of bytes needed to carry packed bits. */
module Bits {
  import opened Num

  /** `(count as usize + 7) / 8`, computed without overflow since it is done in `usize`. */
  function NumBytesForBits(count: u16): (r: nat)
    ensures 8 * r >= count && 8 * r < count + 8
    ensures r <= 8192
  {
    (count + 7) / 8
  }

  lemma NumBytesForBitsExamples()
    ensures NumBytesForBits(7) == 1 && NumBytesForBits(8) == 1 && NumBytesForBits(9) == 2
    ensures NumBytesForBits(15) == 2 && NumBytesForBits(16) == 2 && NumBytesForBits(17) == 3
    ensures NumBytesForBits(0xFFFF) == 8192
  {
  }

  /** The result is the least byte count that holds `count` bits. */
  lemma NumBytesForBitsIsMinimal(count: u16, n: nat)
    requires 8 * n >= count
    ensures NumBytesForBits(count) <= n
  {
  }
}
