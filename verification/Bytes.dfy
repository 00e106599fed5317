/** Octets, as keys, signatures, identifiers and text carry them. */
module Bytes {
  newtype Byte = x: int | 0 <= x < 256
}
