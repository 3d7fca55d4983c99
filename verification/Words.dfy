/** The fixed-width integers of the program, with its clamping and truncating conversions. */
module Words {
  type u8 = x: int | 0 <= x < 0x100
  type u32 = x: int | 0 <= x < 0x1_0000_0000
  type u64 = x: int | 0 <= x < 0x1_0000_0000_0000_0000
  type i64 = x: int | -0x8000_0000_0000_0000 <= x < 0x8000_0000_0000_0000

  const TWO_63: int := 0x8000_0000_0000_0000
  const TWO_64: int := 0x1_0000_0000_0000_0000
  const TWO_127: int := 0x8000_0000_0000_0000_0000_0000_0000_0000

  function Abs(x: int): nat {
    if x < 0 then -x else x
  }

  function Clamp(x: int, lo: int, hi: int): int
    requires lo <= hi
  {
    if x < lo then lo else if x > hi then hi else x
  }

  function ToI64(x: int): i64 {
    Clamp(x, -TWO_63, TWO_63 - 1)
  }

  function ToI128(x: int): int {
    Clamp(x, -TWO_127, TWO_127 - 1)
  }

  /** `as u64`: the low 64 bits. */
  function Truncated(n: nat): u64 {
    n % 0x1_0000_0000_0000_0000
  }

  /** `saturating_add` on bytes. */
  function AddU8(a: u8, b: u8): u8 {
    if a + b > 255 then 255 else a + b
  }
}
