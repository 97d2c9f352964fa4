/** The fixed-width integer operations the timers rely on. */
module Numeric {
  const U32_LIMIT: int := 0x1_0000_0000

  /** Rust's `u32`. */
  type u32 = x: int | 0 <= x < U32_LIMIT

  /** Rust's `u32::saturating_sub`: never goes below zero. */
  function SaturatingSub(a: u32, b: u32): (r: u32)
    ensures r <= a
    ensures b <= a ==> r + b == a
    ensures a < b ==> r == 0
  {
    if b <= a then a - b else 0
  }

  /** Rust's `u32::is_multiple_of`: a multiple of 0 is only 0 itself. */
  predicate IsMultipleOf(a: nat, b: nat)
  {
    if b == 0 then a == 0 else a % b == 0
  }
}
