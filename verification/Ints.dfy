/** Machine integers of the X wire: ranges, clamps, truncating casts and wrapping arithmetic. */
module Ints {

  type Byte = v: int | 0 <= v <= 0xFF
  type Int16 = v: int | -0x8000 <= v <= 0x7FFF
  type Card16 = v: int | 0 <= v <= 0xFFFF
  type Card32 = v: int | 0 <= v <= 0xFFFF_FFFF
  type Card64 = v: int | 0 <= v <= 0xFFFF_FFFF_FFFF_FFFF

  const I16_MAX: int := 0x7FFF
  const U16_MAX: int := 0xFFFF

  function Min(a: int, b: int): int {
    if a < b then a else b
  }

  function Max(a: int, b: int): int {
    if a < b then b else a
  }

  /** `v.clamp(i16::MIN, i16::MAX) as i16` */
  function ClampI16(v: int): Int16 {
    if v < -0x8000 then -0x8000 else if v > 0x7FFF then 0x7FFF else v
  }

  /** `v.clamp(0, u16::MAX) as u16` */
  function ClampU16(v: int): Card16 {
    if v < 0 then 0 else if v > 0xFFFF then 0xFFFF else v
  }

  /** `v as i16`: keep the low sixteen bits and read them as two's complement. */
  function WrapI16(v: int): Int16 {
    (v + 0x8000) % 0x1_0000 - 0x8000
  }

  /** `v as u16`: keep the low sixteen bits. */
  function WrapU16(v: int): Card16 {
    v % 0x1_0000
  }

  function WrappingAdd(a: Int16, b: Int16): Int16 {
    WrapI16(a + b)
  }

  function WrappingSub(a: Int16, b: Int16): Int16 {
    WrapI16(a - b)
  }

  lemma WrapI16InRange(v: int)
    ensures -0x8000 <= v <= 0x7FFF ==> WrapI16(v) == v
    ensures 0x8000 <= v <= 0xFFFF ==> WrapI16(v) == v - 0x1_0000
  {
  }

  lemma WrapU16InRange(v: int)
    ensures 0 <= v <= 0xFFFF ==> WrapU16(v) == v
  {
  }
}
