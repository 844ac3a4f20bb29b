/** The machine integers of the source. */
module Numbers {
  type U8 = n: int | 0 <= n < 0x100
  type U32 = n: int | 0 <= n < 0x1_0000_0000
  type U64 = n: int | 0 <= n < 0x1_0000_0000_0000_0000
  type I64 = n: int | -0x8000_0000_0000_0000 <= n < 0x8000_0000_0000_0000

  const I64_MIN: I64 := -0x8000_0000_0000_0000
  const I64_MAX: I64 := 0x7fff_ffff_ffff_ffff
  const U32_MAX: U32 := 0xffff_ffff
  const U64_MAX: U64 := 0xffff_ffff_ffff_ffff

  function SaturatingSub(a: I64, b: I64): (r: I64)
    ensures I64_MIN <= a - b <= I64_MAX ==> r == a - b
    ensures a - b > I64_MAX ==> r == I64_MAX
    ensures a - b < I64_MIN ==> r == I64_MIN
  {
    if a - b > I64_MAX then I64_MAX else if a - b < I64_MIN then I64_MIN else a - b
  }
}
