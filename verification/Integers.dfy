/** Fixed-width unsigned integers and the conversions that can fail. */
module Integers {
  import opened Results

  type u16 = x: int | 0 <= x < 0x1_0000
  type u32 = x: int | 0 <= x < 0x1_0000_0000
  type u64 = x: int | 0 <= x < 0x1_0000_0000_0000_0000
  type u128 = x: int | 0 <= x < 0x1_0000_0000_0000_0000_0000_0000_0000_0000

  const U32_MAX: u32 := 0xFFFF_FFFF
  const U64_MAX: u64 := 0xFFFF_FFFF_FFFF_FFFF

  function ToU32(x: u64): Option<u32> {
    if x <= U32_MAX then Some(x) else None
  }

  function ToU64(x: u128): Option<u64> {
    if x <= U64_MAX then Some(x) else None
  }

  function UnwrapOr<T>(o: Option<T>, fallback: T): T {
    if o.Some? then o.value else fallback
  }

  function SaturatingAdd(x: u32, y: u32): u32 {
    if x + y <= U32_MAX then x + y else U32_MAX
  }

  function SaturatingSub(x: u32, y: u32): u32 {
    if x >= y then x - y else 0
  }

  function Min(x: nat, y: nat): nat {
    if x <= y then x else y
  }

  // --- Products and quotients -----------------------------------------------

  lemma MulMonotone(a: nat, b: nat, c: nat)
    requires a <= b
    ensures a * c <= b * c
  {
  }

  /** A quotient is the largest number whose product fits. */
  lemma DivExact(a: nat, d: nat, q: nat)
    requires d > 0
    ensures q <= a / d <==> q * d <= a
  {
    assert a == d * (a / d) + a % d;
    if q <= a / d {
      MulMonotone(q, a / d, d);
    } else {
      MulMonotone(a / d + 1, q, d);
    }
  }

  lemma DivMonotone(a: nat, b: nat, d: nat)
    requires a <= b && d > 0
    ensures a / d <= b / d
  {
    DivExact(a, d, a / d);
    DivExact(b, d, a / d);
  }

  lemma DivShrinks(a: nat, d: nat)
    requires d > 0
    ensures a / d <= a
  {
    DivExact(a, d, a / d);
    MulMonotone(1, d, a / d);
  }

  lemma Distribute(k: nat, a: nat, b: nat, c: nat, d: nat)
    ensures k * (a + b + c + d) == k * a + k * b + k * c + k * d
  {
  }
}
