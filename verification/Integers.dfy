/** Widths of the integers that the source uses. */
module Integers {
  /** The number of values of an unsigned 32-bit integer. */
  const U32_LIMIT: nat := 0x1_0000_0000
}
