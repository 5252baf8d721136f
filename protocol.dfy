/**
 * The values that reach a Rubinius primitive of the Bignum class and the
 * three ways a primitive can end: with a value, with primitive failure (the
 * `null` return that sends the caller to the Ruby fallback code), or by
 * raising a Java exception.
 */
module PrimitiveProtocol {
  import opened JavaNumbers
  import opened Doubles

  /**
   * The argument `b` of a primitive call, by its Java representation: a boxed
   * `int` or `long` (a Fixnum), a `double` (a Float), a Ruby object that is a
   * Bignum (held as its `BigInteger` value) or any other Ruby object.
   */
  datatype Operand =
    | IntArg(i: Int32)
    | LongArg(l: Int64)
    | DoubleArg(d: Double)
    | BignumArg(n: int)
    | OtherObject

  /** The exceptions the primitives can raise. */
  datatype JavaException =
    | UnsupportedOperation        // `UnsupportedOperationException`, thrown by the primitive itself
    | ArithmeticNegativeExponent  // `ArithmeticException` from `BigInteger.pow` given a negative `int`
    | UnsupportedSpecialization   // raised by the node when no specialization accepts the arguments

  datatype Outcome<+T> =
    | Value(value: T)
    | Fallback
    | Raised(exception: JavaException)

  /** A Ruby object that `bignum_pow` returns. */
  datatype PowValue =
    | BignumResult(n: int)
    | FloatResult(d: Double)

  /**
   * The floating-point library the primitives call and that this model does
   * not define: `BigInteger.doubleValue` (rounding to the nearest double,
   * infinite when out of range) and `Math.pow`.
   */
  datatype FloatLibrary = FloatLibrary(doubleValue: int -> Double, mathPow: (Double, Double) -> Double)

  /** A floating-point library whose `doubleValue` never gives NaN, as `BigInteger.doubleValue` promises. */
  type HostFloat = host: FloatLibrary | forall n :: !IsNaN(host.doubleValue(n))
    witness FloatLibrary(n => PositiveInfinity, (x, y) => PositiveInfinity)
}
