/** Java's 32-bit `int`, with the wrap-around of its `+` operator. */
module JavaInt {

  const MinInt: int := -0x8000_0000
  const MaxInt: int := 0x7fff_ffff
  const Modulus: int := 0x1_0000_0000

  type Int32 = x: int | MinInt <= x <= MaxInt

  /** `a + b` on Java ints: the 32-bit two's-complement value whose low-order
      32 bits are those of the exact sum. */
  function Add(a: Int32, b: Int32): (r: Int32)
    ensures (a + b - r) % Modulus == 0
    ensures MinInt <= a + b <= MaxInt ==> r == a + b
    ensures a + b < MinInt ==> r > b
    ensures a + b > MaxInt ==> r < b
  {
    (a + b - MinInt) % Modulus + MinInt
  }
}
