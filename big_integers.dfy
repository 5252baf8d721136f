/**
 * The two operations of `java.math.BigInteger` that the Bignum primitives use,
 * on Dafny's unbounded integers: `compareTo` and `pow`.
 */
module BigIntegers {

  function Abs(x: int): nat
  {
    if x < 0 then -x else x
  }

  /** `x.compareTo(y)`: -1, 0 or +1 as `x` is less than, equal to or greater than `y`. */
  function CompareTo(x: int, y: int): (r: int)
    ensures r in {-1, 0, 1}
    ensures r < 0 <==> x < y
    ensures r == 0 <==> x == y
    ensures r > 0 <==> x > y
  {
    if x < y then -1 else if x == y then 0 else 1
  }

  lemma CompareToAntisymmetric(x: int, y: int)
    ensures CompareTo(x, y) == -CompareTo(y, x)
  {
  }

  lemma CompareToTransitive(x: int, y: int, z: int)
    requires CompareTo(x, y) <= 0 && CompareTo(y, z) <= 0
    ensures CompareTo(x, z) <= 0
    ensures CompareTo(x, z) == 0 ==> CompareTo(x, y) == 0 && CompareTo(y, z) == 0
  {
  }

  /**
   * `x.pow(e)` for a non-negative exponent: `x` multiplied by itself `e` times,
   * exactly. `BigInteger.pow` gives 1 for a zero exponent, also when `x` is 0.
   */
  function Pow(x: int, e: nat): (r: int)
    ensures r == 0 <==> x == 0 && e > 0
    ensures x > 0 ==> r > 0
    ensures x < 0 ==> (r > 0 <==> e % 2 == 0)
    decreases e
  {
    if e == 0 then 1 else x * Pow(x, e - 1)
  }

  lemma MagnitudeGrows(x: int, p: int)
    requires Abs(x) >= 2 && p != 0
    ensures Abs(p) < Abs(x * p)
  {
    if x >= 2 {
      if p > 0 { assert x * p >= 2 * p; } else { assert x * p <= 2 * p; }
    } else {
      if p > 0 { assert x * p <= -2 * p; } else { assert x * p >= -2 * p; }
    }
  }

  /**
   * For a base of magnitude at least 2, a larger exponent gives a result of
   * strictly larger magnitude: no two exponents give the same power.
   */
  lemma {:induction false} PowMagnitudeIncreasing(x: int, e1: nat, e2: nat)
    requires Abs(x) >= 2 && e1 < e2
    ensures Abs(Pow(x, e1)) < Abs(Pow(x, e2))
    decreases e2
  {
    MagnitudeGrows(x, Pow(x, e2 - 1));
    if e1 < e2 - 1 {
      PowMagnitudeIncreasing(x, e1, e2 - 1);
    }
  }
}
