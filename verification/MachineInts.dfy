/** Fixed-width integer ranges used by the wire format and the stored types. */
module MachineInts {
  type u8 = n: int | 0 <= n < 0x100
  type u16 = n: int | 0 <= n < 0x1_0000
  type u32 = n: int | 0 <= n < 0x1_0000_0000
  type u64 = n: int | 0 <= n < 0x1_0000_0000_0000_0000
  type i16 = n: int | -0x8000 <= n < 0x8000
  type i32 = n: int | -0x8000_0000 <= n < 0x8000_0000

  const U16_MAX: u16 := 0xFFFF

  /** Truncating cast of a length to 16 bits. */
  function AsU16(n: nat): u16 {
    n % 0x1_0000
  }

  /** Cast of a signed number to 32 bits. */
  function AsU32(n: int): u32 {
    n % 0x1_0000_0000
  }
}
