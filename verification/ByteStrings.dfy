/** Byte strings, for the components that work on raw bytes. */
module ByteStrings {

  newtype byte = b: int | 0 <= b < 256

  type Bytes = seq<byte>
}
