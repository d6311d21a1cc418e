/** Bytes, as files and encodings hold them. */
module Bytes {

  newtype Byte = x: int | 0 <= x < 256
}
