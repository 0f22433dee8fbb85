/** Go's 64-bit signed integers: the range of `int64` and its wrapping addition. */
module GoInt {

  const MinInt64: int := -0x8000_0000_0000_0000
  const MaxInt64: int := 0x7fff_ffff_ffff_ffff

  /** The modulus of two's-complement 64-bit arithmetic. */
  const Modulus64: int := 0x1_0000_0000_0000_0000

  type Int64 = x: int | -0x8000_0000_0000_0000 <= x <= 0x7fff_ffff_ffff_ffff

  /** Go's `a + b` on two `int64` values: exact when the sum fits, and
      otherwise wrapped around modulo 2^64. */
  function Add64(a: Int64, b: Int64): (r: Int64)
    ensures MinInt64 <= a + b <= MaxInt64 ==> r == a + b
    ensures (r - (a + b)) % Modulus64 == 0
    ensures a + b > MaxInt64 ==> r < 0
    ensures a + b < MinInt64 ==> r >= 0
  {
    var s := a + b;
    if s > MaxInt64 then s - Modulus64
    else if s < MinInt64 then s + Modulus64
    else s
  }
}
