/** Bytes and the two line-ending characters. */
module Bytes {
  type byte = x: int | 0 <= x < 256

  const CR: byte := 0x0d
  const LF: byte := 0x0a
}
