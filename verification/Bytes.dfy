/** Bytes and byte strings. */
module Bytes {
  type Byte = b: nat | b < 256
}
