/** Bytes, as the `u8` of the source. */
module Bytes {

  newtype uint8 = x: int | 0 <= x < 256
}
