/** Fixed-width unsigned integers of the engine, as ranges of int.
    Where the engine's arithmetic can wrap, the wrap is written out with `%`. */
module Machine {
  const TWO_31: int := 0x8000_0000
  const TWO_32: int := 0x1_0000_0000
  const TWO_64: int := 0x1_0000_0000_0000_0000

  type u8 = x: int | 0 <= x < 0x100
  type u16 = x: int | 0 <= x < 0x1_0000
  type u32 = x: int | 0 <= x < 0x1_0000_0000
  type u64 = x: int | 0 <= x < 0x1_0000_0000_0000_0000

  /** `static_cast<int>` of a 32-bit unsigned value (two's complement). */
  function AsInt32(x: u32): int {
    if x < TWO_31 then x else x - TWO_32
  }

  /** Wrapping 64-bit and 32-bit addition and subtraction. */
  function Add64(a: u64, b: u64): (r: u64)
    ensures a + b < TWO_64 ==> r == a + b
  {
    (a + b) % TWO_64
  }

  function Sub64(a: u64, b: u64): (r: u64)
    ensures b <= a ==> r == a - b
  {
    (a - b) % TWO_64
  }

  function Add32(a: u32, b: u32): (r: u32)
    ensures a + b < TWO_32 ==> r == a + b
  {
    (a + b) % TWO_32
  }

  function Sub32(a: u32, b: u32): (r: u32)
    ensures b <= a ==> r == a - b
  {
    (a - b) % TWO_32
  }
}
