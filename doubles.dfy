/**
 * A Java `double` as the three fields of its IEEE 754 binary64 encoding, with
 * the predicates and the comparison the Bignum primitives use:
 * `Double.isInfinite`, the relational test `d < 0` and `Double.compare`.
 * Arithmetic on doubles is not modelled here.
 */
module Doubles {

  /** The biased exponent field: 11 bits. */
  type BiasedExponent = e: nat | e < 0x800

  /** The fraction (trailing significand) field: 52 bits. */
  type Fraction = f: nat | f < 0x10_0000_0000_0000

  const MaxExponent: BiasedExponent := 0x7FF

  /** A double by its encoding; `negative` is the sign bit. */
  datatype Double = Double(negative: bool, exponent: BiasedExponent, fraction: Fraction)

  const PositiveInfinity: Double := Double(false, MaxExponent, 0)
  const NegativeInfinity: Double := Double(true, MaxExponent, 0)

  predicate IsNaN(d: Double)
  {
    d.exponent == MaxExponent && d.fraction != 0
  }

  /** `Double.isInfinite(d)`. */
  function IsInfinite(d: Double): (r: bool)
    ensures r <==> d == PositiveInfinity || d == NegativeInfinity
    ensures r ==> !IsNaN(d)
  {
    d.exponent == MaxExponent && d.fraction == 0
  }

  predicate IsZero(d: Double)
  {
    d.exponent == 0 && d.fraction == 0
  }

  const NegativeZero: Double := Double(true, 0, 0)

  /**
   * The relational test `d < 0` (so `-0.0 < 0` and `NaN < 0` are both false):
   * exactly the doubles that `Double.compare` puts before -0.0.
   */
  function LessThanZero(d: Double): (r: bool)
    ensures r <==> Compare(d, NegativeZero) < 0
  {
    !IsNaN(d) && d.negative && !IsZero(d)
  }

  /** Of the two infinities, `d < 0` holds of the negative one only. */
  lemma LessThanZeroOnInfinities(d: Double)
    requires IsInfinite(d)
    ensures LessThanZero(d) <==> d == NegativeInfinity
  {
  }

  /**
   * Order of the magnitudes of two non-NaN doubles: the encoding without its
   * sign bit grows with the magnitude, so compare exponent, then fraction.
   */
  function CompareMagnitude(x: Double, y: Double): (r: int)
    ensures r in {-1, 0, 1}
    ensures r == 0 <==> x.exponent == y.exponent && x.fraction == y.fraction
  {
    if x.exponent < y.exponent then -1
    else if x.exponent > y.exponent then 1
    else if x.fraction < y.fraction then -1
    else if x.fraction > y.fraction then 1
    else 0
  }

  /**
   * `Double.compare(x, y)`: the total order that is numeric order on non-NaN
   * values, except that -0.0 comes before 0.0, and that puts every NaN above
   * positive infinity, all NaNs being equal to each other.
   */
  function Compare(x: Double, y: Double): (r: int)
    ensures r in {-1, 0, 1}
    ensures r == 0 <==> x == y || (IsNaN(x) && IsNaN(y))
    ensures IsNaN(y) && !IsNaN(x) ==> r == -1
    ensures IsNaN(x) && !IsNaN(y) ==> r == 1
  {
    if IsNaN(x) && IsNaN(y) then 0
    else if IsNaN(x) then 1
    else if IsNaN(y) then -1
    else if x.negative && !y.negative then -1
    else if !x.negative && y.negative then 1
    else if x.negative then -CompareMagnitude(x, y)
    else CompareMagnitude(x, y)
  }

  lemma CompareAntisymmetric(x: Double, y: Double)
    ensures Compare(x, y) == -Compare(y, x)
  {
  }

  lemma CompareTransitive(x: Double, y: Double, z: Double)
    requires Compare(x, y) <= 0 && Compare(y, z) <= 0
    ensures Compare(x, z) <= 0
  {
  }

  /** Every double except NaN is at most positive infinity and at least negative infinity. */
  lemma CompareInfinitiesAreExtremes(x: Double)
    requires !IsNaN(x)
    ensures Compare(x, PositiveInfinity) <= 0
    ensures Compare(NegativeInfinity, x) <= 0
  {
  }

  /** -0.0 is ordered strictly before 0.0, although `-0.0 < 0` is false. */
  lemma CompareSignedZeros()
    ensures Compare(NegativeZero, Double(false, 0, 0)) == -1
    ensures !LessThanZero(NegativeZero)
  {
  }
}
