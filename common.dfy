/**
 * Fixed-width integer types of the C sources and an Option type.
 * Integers in Dafny are unbounded: every place where the C code truncates
 * to 8 or 16 bits writes the truncation out with `%`.
 */
module Common {

  /** `uint8_t` */
  type uint8 = x: int | 0 <= x < 0x100

  /** `uint16_t` */
  type uint16 = x: int | 0 <= x < 0x1_0000

  datatype Option<+T> = None | Some(value: T)
}
