/** The machine integers of the C and C++ sources. */
module MachineInts {

  const INT32_MAX: int := 0x7fff_ffff
  const INT64_MIN: int := -0x8000_0000_0000_0000
  const INT64_MAX: int := 0x7fff_ffff_ffff_ffff

  newtype int32 = x: int | -0x8000_0000 <= x < 0x8000_0000
  newtype int64 = x: int | -0x8000_0000_0000_0000 <= x < 0x8000_0000_0000_0000

  /** Conversion of a wider value to a 32-bit integer: the low 32 bits, as a signed number. */
  function Narrow(x: int): (r: int32)
    ensures -0x8000_0000 <= x < 0x8000_0000 <==> r as int == x
  {
    var low := x % 0x1_0000_0000;
    (if low < 0x8000_0000 then low else low - 0x1_0000_0000) as int32
  }

  /** Two's complement wrap-around of a 64-bit result. */
  function Wrap64(x: int): (r: int)
    ensures INT64_MIN <= r <= INT64_MAX
    ensures INT64_MIN <= x <= INT64_MAX <==> r == x
  {
    var low := x % 0x1_0000_0000_0000_0000;
    if low <= INT64_MAX then low else low - 0x1_0000_0000_0000_0000
  }
}
