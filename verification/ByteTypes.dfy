/** Bytes, and those that the HTTP code names. */
module ByteTypes {
  type Byte = b: int | 0 <= b < 256

  const CR: Byte := 13
  const LF: Byte := 10
  const CRLF: seq<Byte> := [CR, LF]
  const ZERO: Byte := 48
}
