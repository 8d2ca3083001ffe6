/** Machine integer ranges, Option, and the parse errors raised by the
    type-descriptor and shorty-descriptor parsers. */
module Base {

  type u8 = x: int | 0 <= x < 0x100
  type u16 = x: int | 0 <= x < 0x1_0000
  type u32 = x: int | 0 <= x < 0x1_0000_0000
  type i8 = x: int | -0x80 <= x < 0x80
  type i16 = x: int | -0x8000 <= x < 0x8000
  type i32 = x: int | -0x8000_0000 <= x < 0x8000_0000
  type i64 = x: int | -0x8000_0000_0000_0000 <= x < 0x8000_0000_0000_0000

  datatype Option<+T> = None | Some(value: T)

  /** The three variants of the crate's parse error that the types module raises. */
  datatype ParseError =
    | InvalidTypeDescriptor(descriptor: string)
    | InvalidShortyDescriptor(descriptor: string)
    | InvalidShortyType(tag: char)

  /** `Result<T, error::Parse>`. */
  datatype Result<+T> = Ok(value: T) | Err(error: ParseError)
}
