/** Go strings and byte slices, both as sequences of bytes. */
module Bytes {

  type Byte = b: int | 0 <= b < 256

  /** A Go `string` (or `[]byte`): an immutable sequence of bytes. */
  type Str = seq<Byte>

  const LF: Byte := 10
  const CR: Byte := 13
  const SPACE: Byte := 32
  const DOLLAR: Byte := 36
  const STAR: Byte := 42
  const PLUS: Byte := 43
  const MINUS: Byte := 45

  const CRLF: Str := [CR, LF]

  datatype Option<+T> = None | Some(value: T)
}
