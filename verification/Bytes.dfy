/** Bytes, byte strings and the Option type shared by every other module. */
module Bytes {

  /** An unsigned 8-bit byte, as an integer. */
  type Byte = b: int | 0 <= b < 256

  type Text = seq<Byte>

  datatype Option<+T> = None | Some(value: T)

  /** 64-bit signed integers: the range of json_int_t. */
  const INT64_MIN := -0x8000_0000_0000_0000
  const INT64_MAX := 0x7FFF_FFFF_FFFF_FFFF
}
