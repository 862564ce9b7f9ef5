/** Fixed-width integers of the tracker and the saturating operations it uses on them.
    Arithmetic stays on unbounded integers; the subset types say where a width matters. */
module MachineInts {

  const U8_MAX := 0xFF
  const U16_MAX := 0xFFFF
  const U32_MAX := 0xFFFF_FFFF
  const U64_MAX := 0xFFFF_FFFF_FFFF_FFFF
  const I32_MAX := 0x7FFF_FFFF
  const I32_MIN := -0x8000_0000
  const I64_MAX := 0x7FFF_FFFF_FFFF_FFFF
  const I64_MIN := -0x8000_0000_0000_0000

  type u8 = x: int | 0 <= x <= U8_MAX
  type u16 = x: int | 0 <= x <= U16_MAX
  type u32 = x: int | 0 <= x <= U32_MAX
  type u64 = x: int | 0 <= x <= U64_MAX
  type i32 = x: int | I32_MIN <= x <= I32_MAX
  type i64 = x: int | I64_MIN <= x <= I64_MAX

  function Min(x: int, y: int): int {
    if x <= y then x else y
  }

  function Max(x: int, y: int): int {
    if x <= y then y else x
  }

  function Clamp(x: int, lo: int, hi: int): int {
    Max(lo, Min(x, hi))
  }

  /** What 32 bits keep of a number: plain arithmetic on `i32` wraps around in a release build */
  function WrapI32(x: int): i32
    decreases if x < 0 then -x - 1 else x
  {
    if x < I32_MIN then WrapI32(x + U32_MAX + 1)
    else if x > I32_MAX then WrapI32(x - U32_MAX - 1)
    else x
  }

  lemma {:induction false} WrapAdds(x: int, d: i32)
    ensures WrapI32(WrapI32(x) + d) == WrapI32(x + d)
    decreases if x < 0 then -x - 1 else x
  {
    if x < I32_MIN {
      WrapAdds(x + U32_MAX + 1, d);
    } else if x > I32_MAX {
      WrapAdds(x - U32_MAX - 1, d);
    }
  }

  /** `u32::saturating_add_signed` */
  function SaturatingAddSigned(x: u32, d: i32): u32 {
    Clamp(x + d, 0, U32_MAX)
  }

  /** `u32::saturating_add` */
  function SaturatingAddU32(x: u32, y: u32): u32 {
    Clamp(x + y, 0, U32_MAX)
  }

  /** `u32::saturating_sub` */
  function SaturatingSubU32(x: u32, y: u32): u32 {
    Clamp(x - y, 0, U32_MAX)
  }

  /** `u64::saturating_add` */
  function SaturatingAddU64(x: u64, y: u64): u64 {
    Clamp(x + y, 0, U64_MAX)
  }

  /** `u64::saturating_sub` */
  function SaturatingSubU64(x: u64, y: u64): u64 {
    Clamp(x - y, 0, U64_MAX)
  }

  /** `i32::saturating_add` */
  function SaturatingAddI32(x: i32, y: i32): i32 {
    Clamp(x + y, I32_MIN, I32_MAX)
  }

  /** `i64::saturating_add` */
  function SaturatingAddI64(x: i64, y: i64): i64 {
    Clamp(x + y, I64_MIN, I64_MAX)
  }

  /** The plain `+` of `u64`, which wraps around in a release build */
  function WrappingAddU64(x: u64, y: u64): u64 {
    if x + y <= U64_MAX then x + y else x + y - U64_MAX - 1
  }

  /** The plain `*` of `u64`, which wraps around in a release build */
  function WrappingMulU64(x: u64, y: u64): u64 {
    (x * y) % (U64_MAX + 1)
  }

  lemma TimesMonotone(a: int, b: int, n: nat)
    requires a <= b
    ensures a * n <= b * n
  {
  }

  /** Saturating operations give the exact result if it fits, and otherwise the bound it passes */
  lemma Saturates(x: u32, d: i32, y: u32, a: u64, b: u64, s: i32, t: i64, u: i64)
    ensures SaturatingAddSigned(x, d)
            == if x + d < 0 then 0 else if x + d > 0xFFFF_FFFF then 0xFFFF_FFFF else x + d
    ensures SaturatingAddU32(x, y) == if x + y > 0xFFFF_FFFF then 0xFFFF_FFFF else x + y
    ensures SaturatingSubU32(x, y) == if x < y then 0 else x - y
    ensures SaturatingAddU64(a, b) == if a + b > 0xFFFF_FFFF_FFFF_FFFF then 0xFFFF_FFFF_FFFF_FFFF else a + b
    ensures SaturatingSubU64(a, b) == if a < b then 0 else a - b
    ensures SaturatingAddI32(d, s)
            == if d + s < -0x8000_0000 then -0x8000_0000 else if d + s > 0x7FFF_FFFF then 0x7FFF_FFFF else d + s
    ensures SaturatingAddI64(t, u)
            == if t + u < -0x8000_0000_0000_0000 then -0x8000_0000_0000_0000
               else if t + u > 0x7FFF_FFFF_FFFF_FFFF then 0x7FFF_FFFF_FFFF_FFFF else t + u
  {
  }

  /** Wrapping operations keep the number modulo the range */
  lemma Wraps(a: u64, b: u64)
    ensures WrappingAddU64(a, b) == (a + b) % 0x1_0000_0000_0000_0000
    ensures WrappingMulU64(a, b) == (a * b) % 0x1_0000_0000_0000_0000
  {
  }
}
