/** Bytes and byte strings. */
module Bytes {

  type Byte = b: int | 0 <= b < 256

  type ByteString = seq<Byte>
}
