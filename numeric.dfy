/** Scalar helpers shared by every stage: the fixed-width integer ranges the
    renderer casts to, and the f32 library operations it uses (clamp, min,
    max, floor, ceil, and the saturating or wrapping `as` casts), stated over
    Dafny's unbounded `int` and exact `real`. */
module Numeric {

  datatype Option<T> = None | Some(value: T)

  const I32_MIN: int := -0x8000_0000
  const I32_MAX: int := 0x7FFF_FFFF

  /** `std::f32::consts::PI`, the f32 nearest to pi. */
  const PI: real := 3.1415927

  type u8 = x: int | 0 <= x < 0x100
  type u32 = x: int | 0 <= x < 0x1_0000_0000

  /** `f32::clamp(lo, hi)` for lo <= hi. */
  function Clamp(v: real, lo: real, hi: real): (r: real)
    requires lo <= hi
    ensures lo <= r <= hi
    ensures lo <= v <= hi ==> r == v
    ensures v < lo ==> r == lo
    ensures hi < v ==> r == hi
  {
    if v < lo then lo else if v > hi then hi else v
  }

  /** `f32::min`. */
  function Min(a: real, b: real): (r: real)
    ensures r <= a && r <= b
    ensures r == a || r == b
  {
    if a <= b then a else b
  }

  /** `f32::max`. */
  function Max(a: real, b: real): (r: real)
    ensures a <= r && b <= r
    ensures r == a || r == b
  {
    if a <= b then b else a
  }

  /** `f32::abs`. */
  function Abs(v: real): (r: real)
    ensures 0.0 <= r
    ensures r == v || r == -v
  {
    if v < 0.0 then -v else v
  }

  lemma DivTimes(a: real, w: real)
    requires w != 0.0
    ensures (a / w) * w == a
  {
  }

  /** `f32::floor`, as the integer it denotes. */
  function Floor(v: real): (r: int)
    ensures r as real <= v < r as real + 1.0
  {
    v.Floor
  }

  /** `f32::ceil`, as the integer it denotes. */
  function Ceil(v: real): (r: int)
    ensures r as real - 1.0 < v <= r as real
  {
    -((-v).Floor)
  }

  /** The float-to-`i32` `as` cast of an integral value: it saturates at
      the ends of the i32 range. */
  function SaturateI32(n: int): (r: int)
    ensures I32_MIN <= r <= I32_MAX
    ensures I32_MIN <= n <= I32_MAX ==> r == n
    ensures n < I32_MIN ==> r == I32_MIN
    ensures I32_MAX < n ==> r == I32_MAX
  {
    if n < I32_MIN then I32_MIN else if n > I32_MAX then I32_MAX else n
  }

  /** The float-to-`usize` `as` cast of an integral value: negative values
      saturate to zero (the upper end of usize is beyond every i32 value). */
  function SaturateUsize(n: int): (r: nat)
    ensures 0 <= n ==> r == n
    ensures n < 0 ==> r == 0
  {
    if n < 0 then 0 else n
  }

  /** The integer-to-`i32` `as` cast of a `usize`: two's-complement
      truncation to 32 bits. */
  function WrapI32(n: nat): (r: int)
    ensures I32_MIN <= r <= I32_MAX
    ensures n <= I32_MAX ==> r == n
    ensures (r - n) % 0x1_0000_0000 == 0
  {
    var m := n % 0x1_0000_0000;
    if m <= I32_MAX then m else m - 0x1_0000_0000
  }
}
