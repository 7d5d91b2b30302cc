/** One byte of memory, of a wire format or of a file. */
module Bytes {
  type byte = x: int | 0 <= x < 256
}
