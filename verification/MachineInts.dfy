/** The fixed-width integers of the firmware. The release profile switches
    overflow checks off, so arithmetic that leaves its type wraps. */
module MachineInts {

  type u8 = x: int | 0 <= x < 0x100
  type u16 = x: int | 0 <= x < 0x1_0000
  type u32 = x: int | 0 <= x < 0x1_0000_0000
  type u64 = x: int | 0 <= x < 0x1_0000_0000_0000_0000
  type i32 = x: int | -0x8000_0000 <= x < 0x8000_0000
  type i64 = x: int | -0x8000_0000_0000_0000 <= x < 0x8000_0000_0000_0000

  // A value of the type stays itself; any other one is reduced modulo the width.

  function WrapU32(x: int): u32 {
    if 0 <= x < 0x1_0000_0000 then x else x % 0x1_0000_0000
  }

  function WrapU64(x: int): u64 {
    if 0 <= x < 0x1_0000_0000_0000_0000 then x else x % 0x1_0000_0000_0000_0000
  }

  function WrapI32(x: int): i32 {
    if -0x8000_0000 <= x < 0x8000_0000 then x else (x + 0x8000_0000) % 0x1_0000_0000 - 0x8000_0000
  }

  function WrapI64(x: int): i64 {
    if -0x8000_0000_0000_0000 <= x < 0x8000_0000_0000_0000 then x
    else (x + 0x8000_0000_0000_0000) % 0x1_0000_0000_0000_0000 - 0x8000_0000_0000_0000
  }

  /** Division that truncates toward zero, as Rust's does. */
  function TruncDiv(a: int, b: int): int
    requires b > 0
  {
    if a >= 0 then a / b else -((-a) / b)
  }

  function SaturatingSub(a: nat, b: nat): nat {
    if a >= b then a - b else 0
  }

  function Min(a: int, b: int): int {
    if a <= b then a else b
  }

  function Abs(a: int): nat {
    if a < 0 then -a else a
  }
}
