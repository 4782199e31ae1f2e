/** Machine integer ranges used by the C++ sources. */
module Machine {
  const U16_MAX: int := 0xFFFF
  const U32_MAX: int := 0xFFFF_FFFF
  const U64_MAX: int := 0xFFFF_FFFF_FFFF_FFFF
  const I64_MAX: int := 0x7FFF_FFFF_FFFF_FFFF

  /** The null node index, null level and absent-key answer of the dense book. */
  const INVALID: int := U32_MAX

  type Byte = x: int | 0 <= x < 256
  type U16 = x: int | 0 <= x <= U16_MAX
  type U32 = x: int | 0 <= x <= U32_MAX
  type U64 = x: int | 0 <= x <= U64_MAX
  type I64 = x: int | -I64_MAX - 1 <= x <= I64_MAX

  datatype Option<+T> = None | Some(value: T)
}
