/** The C scalar types the scanner's record and loop use, as bounded integers. */
module CTypes {

  /** `uint8_t`: an unsigned byte. */
  type byte = x: int | 0 <= x < 256

  /** `int8_t`: a signed byte (the record's RSSI). */
  type int8 = x: int | -128 <= x < 128

  /** `uint16_t`: the type of the access-point count `ap_num`. */
  type uint16 = x: int | 0 <= x < 0x1_0000

  /** A value that may be absent (the result of a parser). */
  datatype Option<+T> = None | Some(value: T)

  function Min(a: int, b: int): int { if a <= b then a else b }
}
