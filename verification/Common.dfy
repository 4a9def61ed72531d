/** Vocabulary shared by the models: optional values and fixed-width integers. */
module Common {

  datatype Option<+T> = None | Some(value: T)
  {
    function GetOr(default: T): T {
      if Some? then value else default
    }
  }

  const U32_MAX: int := 0xFFFF_FFFF
  const U32_MODULUS: int := 0x1_0000_0000
  const U64_MAX: int := 0xFFFF_FFFF_FFFF_FFFF
  const I64_MAX: int := 0x7FFF_FFFF_FFFF_FFFF

  type u32 = x: int | 0 <= x <= 0xFFFF_FFFF

  /** Addition and multiplication that stick at the largest `u32`, and subtraction that sticks at 0. */
  function SaturatingAdd(a: u32, b: u32): u32 {
    if a + b > U32_MAX then U32_MAX else a + b
  }

  function SaturatingMul(a: u32, b: u32): u32 {
    if a * b > U32_MAX then U32_MAX else
      assert a * b >= 0;
      a * b
  }

  function SaturatingSub(a: u32, b: u32): u32 {
    if a < b then 0 else a - b
  }

  /** Addition that wraps around, as `+=` does in a release build. */
  function WrappingAdd(a: u32, b: u32): (r: u32)
    ensures r == a + b || r == a + b - U32_MODULUS
  {
    (a + b) % U32_MODULUS
  }

  function Max(a: int, b: int): int {
    if a < b then b else a
  }

  function Min(a: int, b: int): int {
    if a < b then a else b
  }

  /** Time elapsed between two instants; an instant in the future counts as no time at all. */
  function Since(now: int, t: int): nat {
    if now < t then 0 else now - t
  }

  lemma MultipleAtLeast(k: int, d: nat)
    ensures k >= 1 ==> k * d >= d
  {
    if k >= 1 {
      assert k * d == (k - 1) * d + d;
    }
  }

  /** What a product bounds, the quotient bounds. */
  lemma QuotientBound(q: int, d: nat, x: nat)
    requires d > 0 && q * d <= x
    ensures q <= x / d
  {
    var r, m := x / d, x % d;
    assert x == r * d + m;
    assert (q - r) * d == q * d - r * d;
    MultipleAtLeast(q - r, d);
  }
}
