/** Octets, as `Uint8Array` elements and `Buffer` contents are. */
module Bytes {
  type byte = x: int | 0 <= x < 256
  type Bytes = seq<byte>
}
