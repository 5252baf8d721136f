/**
 * The `bignum_compare` primitive: `a <=> b` for a Bignum receiver `a`, by one
 * specialization per representation of `b`.
 */
module BignumCompare {
  import opened JavaNumbers
  import opened BigIntegers
  import opened Doubles
  import opened PrimitiveProtocol

  /** `b` is a `long`: it is widened to a `BigInteger` and compared exactly. */
  function CompareLong(a: int, b: Int64): (r: int)
    ensures r in {-1, 0, 1}
    ensures r < 0 <==> a < b
    ensures r == 0 <==> a == b
  {
    CompareTo(a, b)
  }

  /**
   * `b` is a double that is not infinite (it may be NaN): `a` is first rounded
   * to a double, then the two are ordered by `Double.compare`.
   */
  function CompareDouble(host: HostFloat, a: int, b: Double): (r: int)
    requires !IsInfinite(b)
    ensures r in {-1, 0, 1}
    ensures r == 0 <==> host.doubleValue(a) == b
    ensures IsNaN(b) ==> r == -1
  {
    Doubles.Compare(host.doubleValue(a), b)
  }

  /** `b` is an infinite double: the answer follows from its sign alone. */
  function CompareInfinity(a: int, b: Double): (r: int)
    requires IsInfinite(b)
    ensures b == NegativeInfinity ==> r == 1
    ensures b == PositiveInfinity ==> r == -1
  {
    if LessThanZero(b) then 1 else -1
  }

  /**
   * `b` is a Bignum: the two `BigInteger` values are compared exactly. The
   * source writes this specialization with the same body as `CompareLong`.
   */
  function CompareBignum(a: int, b: int): (r: int)
    ensures r in {-1, 0, 1}
    ensures r < 0 <==> a < b
    ensures r == 0 <==> a == b
  {
    CompareTo(a, b)
  }

  /**
   * The primitive: the specialization whose type and guard accept `b`. An
   * `int` argument is promoted to `long` and takes the `long` specialization;
   * a Ruby object that is not a Bignum gives primitive failure.
   */
  function Compare(host: HostFloat, a: int, b: Operand): (r: Outcome<int>)
    ensures !r.Raised?
    ensures r.Fallback? <==> b.OtherObject?
    ensures r.Value? ==> r.value in {-1, 0, 1}
    ensures b.DoubleArg? && b.d == NegativeInfinity ==> r == Value(1)
    ensures b.DoubleArg? && b.d == PositiveInfinity ==> r == Value(-1)
  {
    match b
    case IntArg(i) => Value(CompareLong(a, WidenToLong(i)))
    case LongArg(l) => Value(CompareLong(a, l))
    case DoubleArg(d) =>
      if !IsInfinite(d) then Value(CompareDouble(host, a, d)) else Value(CompareInfinity(a, d))
    case BignumArg(n) => Value(CompareBignum(a, n))
    case OtherObject => Fallback
  }

  /** The integer value of an integer-kind operand. */
  function IntegerValue(b: Operand): int
    requires b.IntArg? || b.LongArg? || b.BignumArg?
  {
    match b
    case IntArg(i) => i
    case LongArg(l) => l
    case BignumArg(n) => n
  }

  /**
   * Against a Fixnum or a Bignum the answer is the exact sign of `a - b`:
   * widening loses nothing, so the `int`, `long` and Bignum forms of one
   * number all give the same answer.
   */
  lemma CompareIntegerIsExact(host: HostFloat, a: int, b: Operand)
    requires b.IntArg? || b.LongArg? || b.BignumArg?
    ensures Compare(host, a, b) == Value(CompareTo(a, IntegerValue(b)))
    ensures Compare(host, a, b).value == 0 <==> a == IntegerValue(b)
    ensures Compare(host, a, b).value < 0 <==> a < IntegerValue(b)
  {
  }

  lemma CompareWideningAgrees(host: HostFloat, a: int, i: Int32, l: Int64)
    requires i == l
    ensures Compare(host, a, IntArg(i)) == Compare(host, a, LongArg(l))
    ensures Compare(host, a, LongArg(l)) == Compare(host, a, BignumArg(l))
  {
  }

  /** Comparing two Bignums is antisymmetric. */
  lemma CompareBignumAntisymmetric(host: HostFloat, a: int, b: int)
    ensures Compare(host, a, BignumArg(b)).value == -Compare(host, b, BignumArg(a)).value
  {
    CompareToAntisymmetric(a, b);
  }

  /** Comparing Bignums is transitive. */
  lemma CompareBignumTransitive(host: HostFloat, a: int, b: int, c: int)
    requires Compare(host, a, BignumArg(b)).value <= 0
    requires Compare(host, b, BignumArg(c)).value <= 0
    ensures Compare(host, a, BignumArg(c)).value <= 0
  {
    CompareToTransitive(a, b, c);
  }

  /**
   * Against an infinite double the receiver is never looked at, nor is the
   * floating-point library.
   */
  lemma CompareInfinityIgnoresReceiver(host1: HostFloat, host2: HostFloat, a1: int, a2: int, d: Double)
    requires IsInfinite(d)
    ensures Compare(host1, a1, DoubleArg(d)) == Compare(host2, a2, DoubleArg(d))
  {
    LessThanZeroOnInfinities(d);
  }

  /**
   * NaN is not infinite, so it takes the `Double.compare` specialization and
   * never primitive failure; as `BigInteger.doubleValue` is never NaN, the
   * receiver then compares as less than NaN.
   */
  lemma CompareNaN(host: HostFloat, a: int, d: Double)
    requires IsNaN(d)
    ensures Compare(host, a, DoubleArg(d)) == Value(-1)
  {
  }

  /**
   * Against a finite double the receiver counts only through its rounding:
   * two Bignums that round to the same double compare alike.
   */
  lemma CompareFiniteDoubleSeesOnlyRounding(host: HostFloat, a1: int, a2: int, d: Double)
    requires !IsInfinite(d)
    requires host.doubleValue(a1) == host.doubleValue(a2)
    ensures Compare(host, a1, DoubleArg(d)) == Compare(host, a2, DoubleArg(d))
  {
  }

  /** Examples: `2^100 <=> 5` is 1 and `2^100 <=> Float::INFINITY` is -1. */
  lemma CompareExamples(host: HostFloat)
    ensures Compare(host, 0x1_0000_0000_0000_0000_0000_0000, LongArg(5)) == Value(1)
    ensures Compare(host, 0x1_0000_0000_0000_0000_0000_0000, DoubleArg(PositiveInfinity)) == Value(-1)
  {
  }
}
