module ByteType {
  type byte = b: int | 0 <= b < 256
}
