/** Bytes, for the programs that work on them. */
module Bytes {
  type byte = x: int | 0 <= x < 256
}
