/** Bytes, as payloads and wire data are made of. */
module Bytes {
  type byte = b: int | 0 <= b < 256
}
