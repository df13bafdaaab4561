module ByteType {
  newtype Byte = x: int | 0 <= x < 256
}
