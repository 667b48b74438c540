/** The unsigned integer widths of the firmware, as ranges of `int`. */
module Bytes {
  type byte = x: int | 0 <= x < 0x100
  type word = x: int | 0 <= x < 0x10000

  const EMPTY_BYTE: byte := 0xFF
}
