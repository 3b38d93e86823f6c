/** 16-bit sequence numbers. */
module Sequences {
  const SEQUENCES: nat := 0x1_0000

  /** The conversion of a difference of two sequence numbers to int16_t. */
  function Int16(x: int): int {
    if x % SEQUENCES < 0x8000 then x % SEQUENCES else x % SEQUENCES - SEQUENCES
  }
}
