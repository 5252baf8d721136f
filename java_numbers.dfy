/** Java's fixed-width integer types and the narrowing conversion from `long` to `int`. */
module JavaNumbers {

  const Int32Min: int := -0x8000_0000
  const Int32Max: int := 0x7FFF_FFFF
  const Int64Min: int := -0x8000_0000_0000_0000
  const Int64Max: int := 0x7FFF_FFFF_FFFF_FFFF

  /** The values of a Java `int`. */
  type Int32 = x: int | -0x8000_0000 <= x <= 0x7FFF_FFFF

  /** The values of a Java `long`. */
  type Int64 = x: int | -0x8000_0000_0000_0000 <= x <= 0x7FFF_FFFF_FFFF_FFFF

  /**
   * The narrowing primitive conversion `(int) x` of a `long`: it keeps the
   * low-order 32 bits of the two's complement representation, so the result is
   * the unique `int` congruent to `x` modulo 2^32.
   */
  function NarrowToInt(x: Int64): (r: Int32)
    ensures (r - x) % 0x1_0000_0000 == 0
    ensures Int32Min <= x <= Int32Max ==> r == x
  {
    var low := x % 0x1_0000_0000;
    if low <= Int32Max then low else low - 0x1_0000_0000
  }

  /** Widening `(long) x` of an `int` keeps its value: narrowing it back gives `x`. */
  function WidenToLong(x: Int32): (r: Int64)
    ensures NarrowToInt(r) == x
  {
    x
  }
}
