/** Bytes, the ASCII characters the text formats use, array elements, and the result types. */
module Bytes {
  type byte = b: int | 0 <= b < 256

  const QUOTE: byte := 0x22
  const COMMA: byte := 0x2C
  const BACKSLASH: byte := 0x5C
  const OPEN: byte := 0x7B
  const CLOSE: byte := 0x7D
  const NULL_TEXT: seq<byte> := [0x4E, 0x55, 0x4C, 0x4C]

  /** An array element: Go's nil slice, or bytes. */
  datatype Elem = Null | Text(bytes: seq<byte>)

  /** What an unquoted word denotes. */
  function BareElem(text: seq<byte>): Elem {
    if text == NULL_TEXT then Null else Text(text)
  }

  datatype Option<+T> = None | Some(value: T)

  datatype Result<+T, +E> = Ok(value: T) | Err(error: E)
}
