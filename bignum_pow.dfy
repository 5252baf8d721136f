/**
 * The `bignum_pow` primitive: `a ** b` for a Bignum receiver `a`, by one
 * specialization per representation of `b`.
 */
module BignumPow {
  import opened JavaNumbers
  import BigIntegers
  import opened Doubles
  import opened PrimitiveProtocol

  /**
   * `b` is a `long`. A negative exponent gives primitive failure. Otherwise
   * the exponent handed to `BigInteger.pow` is `(int) b`, the low 32 bits of
   * `b`: `BigInteger.pow` raises `ArithmeticException` when that is negative,
   * and computes the exact power of the truncated exponent when it is not.
   * The result is a Bignum object, whatever its magnitude.
   */
  function PowLong(a: int, b: Int64): (r: Outcome<PowValue>)
    ensures r.Fallback? <==> b < 0
    ensures 0 <= b <= Int32Max ==> r == Value(BignumResult(BigIntegers.Pow(a, b)))
    ensures r.Raised? <==> b >= 0 && b % 0x1_0000_0000 > Int32Max
    ensures r.Raised? ==> r.exception == ArithmeticNegativeExponent
    ensures r.Value? ==> r.value == BignumResult(BigIntegers.Pow(a, b % 0x1_0000_0000))
  {
    if b < 0 then Fallback
    else
      var e := NarrowToInt(b);
      if e < 0 then Raised(ArithmeticNegativeExponent)
      else Value(BignumResult(BigIntegers.Pow(a, e)))
  }

  /** `b` is an `int`: widened to `long`, then as `PowLong`. */
  function PowInt(a: int, b: Int32): (r: Outcome<PowValue>)
    ensures r.Fallback? <==> b < 0
    ensures b >= 0 ==> r == Value(BignumResult(BigIntegers.Pow(a, b)))
  {
    PowLong(a, WidenToLong(b))
  }

  /**
   * `b` is a double, any double: the result is a Float, `Math.pow` of the
   * rounding of `a` to a double.
   */
  function PowDouble(host: HostFloat, a: int, b: Double): (r: PowValue)
    ensures r.FloatResult?
    ensures r.d == host.mathPow(host.doubleValue(a), b)
  {
    FloatResult(host.mathPow(host.doubleValue(a), b))
  }

  /**
   * The primitive: the specialization whose type and guard accept `b`. A
   * Bignum exponent raises `UnsupportedOperationException`; no specialization
   * accepts a Ruby object that is not a Bignum.
   */
  function Pow(host: HostFloat, a: int, b: Operand): (r: Outcome<PowValue>)
    ensures r.Fallback? <==> (b.IntArg? && b.i < 0) || (b.LongArg? && b.l < 0)
    ensures b.BignumArg? <==> r == Raised(UnsupportedOperation)
    ensures b.OtherObject? <==> r == Raised(UnsupportedSpecialization)
    ensures b.DoubleArg? ==> r.Value? && r.value.FloatResult?
    ensures r.Value? && r.value.BignumResult? ==> b.IntArg? || b.LongArg?
  {
    match b
    case IntArg(i) => PowInt(a, i)
    case LongArg(l) => PowLong(a, l)
    case DoubleArg(d) => Value(PowDouble(host, a, d))
    case BignumArg(_) => Raised(UnsupportedOperation)
    case OtherObject => Raised(UnsupportedSpecialization)
  }

  /** For an exponent in the range of `int` the result is the exact power. */
  lemma PowIsExactInIntRange(host: HostFloat, a: int, b: Operand, e: int)
    requires (b.IntArg? && b.i == e) || (b.LongArg? && b.l == e)
    requires 0 <= e <= Int32Max
    ensures Pow(host, a, b) == Value(BignumResult(BigIntegers.Pow(a, e)))
  {
  }

  /** Any number to the power zero is the Bignum 1, 0 included. */
  lemma PowZeroExponent(host: HostFloat, a: int)
    ensures Pow(host, a, IntArg(0)) == Value(BignumResult(1))
    ensures Pow(host, a, LongArg(0)) == Value(BignumResult(1))
  {
  }

  /** An `int` exponent behaves exactly as the same value given as a `long`. */
  lemma PowIntAsLong(host: HostFloat, a: int, i: Int32)
    ensures Pow(host, a, IntArg(i)) == Pow(host, a, LongArg(i))
  {
  }

  /** A Bignum exponent never gives a value, nor primitive failure. */
  lemma PowBignumExponentIsUnsupported(host: HostFloat, a: int, n: int)
    ensures !Pow(host, a, BignumArg(n)).Value?
    ensures !Pow(host, a, BignumArg(n)).Fallback?
  {
  }

  /**
   * A double exponent is never guarded: NaN and the infinities also go to
   * `Math.pow`, and the receiver counts only through its rounding.
   */
  lemma PowDoubleSeesOnlyRounding(host: HostFloat, a1: int, a2: int, d: Double)
    requires host.doubleValue(a1) == host.doubleValue(a2)
    ensures Pow(host, a1, DoubleArg(d)) == Pow(host, a2, DoubleArg(d))
    ensures Pow(host, a1, DoubleArg(d)) == Value(FloatResult(host.mathPow(host.doubleValue(a1), d)))
  {
  }

  /**
   * Above the range of `int` the `long` specialization never gives the true
   * power of a base of magnitude at least 2: the truncated exponent is either
   * negative, and `BigInteger.pow` raises, or smaller than `b`.
   */
  lemma PowLongWrongAboveIntRange(a: int, b: Int64)
    requires BigIntegers.Abs(a) >= 2 && b > Int32Max
    ensures PowLong(a, b) != Value(BignumResult(BigIntegers.Pow(a, b)))
  {
    var e := NarrowToInt(b);
    if e >= 0 {
      BigIntegers.PowMagnitudeIncreasing(a, e, b);
    }
  }

  /** `2 ** 2^32` gives 1, because `(int) 2^32` is 0; `2 ** 2^31` raises. */
  lemma TruncatedExponentExample()
    ensures PowLong(2, 0x1_0000_0000) == Value(BignumResult(1))
    ensures BigIntegers.Pow(2, 0x1_0000_0000) != 1
    ensures PowLong(2, 0x8000_0000) == Raised(ArithmeticNegativeExponent)
  {
  }

  /**
   * The `long` specialization with the cast made safe: an exponent outside
   * the range of `int` gives primitive failure, like a negative one, so the
   * result, when there is one, is always the exact power.
   */
  function PowLongChecked(a: int, b: Int64): (r: Outcome<PowValue>)
    ensures r.Value? <==> 0 <= b <= Int32Max
    ensures r.Value? ==> r.value == BignumResult(BigIntegers.Pow(a, b))
    ensures !r.Value? ==> r == Fallback
  {
    if b < 0 || b > Int32Max then Fallback
    else Value(BignumResult(BigIntegers.Pow(a, NarrowToInt(b))))
  }

  /** The primitive with `PowLongChecked` in place of `PowLong`. */
  function PowChecked(host: HostFloat, a: int, b: Operand): (r: Outcome<PowValue>)
    ensures r.Value? && r.value.BignumResult? ==>
      exists e: nat :: ((b.IntArg? && b.i == e) || (b.LongArg? && b.l == e)) && r.value.n == BigIntegers.Pow(a, e)
    ensures r.Raised? ==> b.BignumArg? || b.OtherObject?
  {
    match b
    case IntArg(i) => PowLongChecked(a, WidenToLong(i))
    case LongArg(l) => PowLongChecked(a, l)
    case DoubleArg(d) => Value(PowDouble(host, a, d))
    case BignumArg(_) => Raised(UnsupportedOperation)
    case OtherObject => Raised(UnsupportedSpecialization)
  }

  /** Examples: `2 ** 10` is 1024, `2 ** -1` fails, `2 ** 1` is 2 however it is passed. */
  lemma PowExamples(host: HostFloat)
    ensures Pow(host, 2, LongArg(10)) == Value(BignumResult(1024))
    ensures Pow(host, 2, IntArg(-1)) == Fallback
    ensures Pow(host, 2, IntArg(1)) == Pow(host, 2, LongArg(1)) == Value(BignumResult(2))
  {
  }

  /** The corrected primitive differs from the original only where the cast lost bits. */
  lemma PowCheckedAgreesInIntRange(host: HostFloat, a: int, b: Operand)
    requires !(b.LongArg? && b.l > Int32Max)
    ensures PowChecked(host, a, b) == Pow(host, a, b)
  {
  }
}
