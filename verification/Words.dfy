/** The fixed-width unsigned words of the target, as subset types of int, so
    that every store of an arithmetic result carries a proof that it fits. */
module Words {
  const U8_MAX := 0xFF
  const U16_MAX := 0xFFFF
  const U32_MAX := 0xFFFF_FFFF
  const U64_MAX := 0xFFFF_FFFF_FFFF_FFFF
  const I32_MAX := 0x7FFF_FFFF

  type u8 = x: int | 0 <= x <= 0xFF
  type u16 = x: int | 0 <= x <= 0xFFFF
  type u32 = x: int | 0 <= x <= 0xFFFF_FFFF
  type u64 = x: int | 0 <= x <= 0xFFFF_FFFF_FFFF_FFFF

  datatype Option<+T> = None | Some(value: T)

  /** The saturating counter step every component of the kernel uses. */
  function SatInc(value: u32): (r: u32)
    ensures r >= value && r > 0
  {
    if value != U32_MAX then value + 1 else value
  }

  /** The same step taken n times. */
  function SatAdd(value: u32, n: nat): u32 {
    if value + n <= U32_MAX then value + n else U32_MAX
  }

  /** The low word of a 64-bit value, as an unsigned narrowing cast keeps it. */
  function Low32(value: u64): u32 {
    value % 0x1_0000_0000
  }

  /** The high word of a 64-bit value. */
  function High32(value: u64): u32 {
    value / 0x1_0000_0000
  }
}
