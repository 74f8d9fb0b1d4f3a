/** Byte-level types shared by the encoder and the container writer. */
module Bytes {
  /** An unsigned 8-bit value: Rust's `u8`. */
  newtype uint8 = x: int | 0 <= x < 0x100

  /** Whether `x` is representable as Rust's `i32`. */
  predicate InI32(x: int) {
    -0x8000_0000 <= x < 0x8000_0000
  }
}
