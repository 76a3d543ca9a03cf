/** Machine integers. */
module Machine {
  newtype Byte = x: int | 0 <= x < 0x100
  newtype Int32 = x: int | -0x8000_0000 <= x < 0x8000_0000
  newtype UInt32 = x: int | 0 <= x < 0x1_0000_0000

  /** The largest uint32_t. */
  const U32_MAX: nat := 0xFFFF_FFFF

  /** The number of values of a uint64_t. */
  const U64: nat := 0x1_0000_0000_0000_0000
}
