# Bignum primitives of the Ruby Truffle backend, in Dafny

This project models the two Rubinius primitives of the Ruby `Bignum` class that
JRuby's Truffle backend implements in
`truffle/src/main/java/org/jruby/truffle/nodes/rubinius/BignumPrimitiveNodes.java`:

- `bignum_compare` (`BignumCompareNode`): `a <=> b` for a Bignum receiver `a`,
  with one specialization per representation of `b` (a `long`, a double that is
  not infinite, an infinite double, a Bignum, any other Ruby object);
- `bignum_pow` (`BignumPowPrimitiveNode`): `a ** b`, with one specialization per
  representation of `b` (an `int`, a `long`, a double, a Bignum).

A Bignum is modelled by its `BigInteger` value, a Dafny `int`. A Java `double` is
modelled by the three fields of its IEEE 754 binary64 encoding, so that
`Double.isInfinite`, the test `b < 0` and `Double.compare` are defined exactly.
Rounding a `BigInteger` to a double (`BigInteger.doubleValue`) and `Math.pow` are
not defined: they are the two fields of a `HostFloat` parameter, of which the
model assumes only what `BigInteger.doubleValue` documents: it never gives NaN.

A primitive ends in one of three ways (`PrimitiveProtocol.Outcome`): a value;
`Fallback`, the `null` return by which a primitive fails and hands the call to
the Ruby code that follows it; or `Raised`, a Java exception. Three exceptions
occur: the `UnsupportedOperationException` of `pow` with a Bignum exponent, the
`ArithmeticException` that `BigInteger.pow` raises for a negative `int`
exponent, and the exception a Truffle node raises when none of its
specializations accepts the arguments (`pow` with a Ruby object that is not a
Bignum).

Modules: `JavaNumbers` (`int`, `long`, the `(int)` narrowing), `BigIntegers`
(`compareTo`, `pow`), `Doubles` (the encoding, `isInfinite`, `< 0`,
`Double.compare`), `PrimitiveProtocol` (operands, outcomes, the floating-point
parameter), `BignumCompare` and `BignumPow` (the two primitives).

Three points where the code's behaviour may surprise a reader:

- a NaN argument to `bignum_compare` is not infinite, so the guard
  `!isInfinity(b)` sends it to the `Double.compare` specialization; it does not
  fall back;
- `pow` with a Ruby object that is not a Bignum matches no specialization; the
  code has no `null` return for it, so the model gives the node's own exception
  rather than `Fallback`;
- an exponent `long` above 2^31-1 is not handled exactly (see Findings).

`RubyTypes` (the Truffle type system of the backend) is not part of this model;
the model takes from it the implicit promotion of `int` to `long`, by which an
`int` argument to `bignum_compare` reaches the `long` specialization.
`RubyGuards.isInfinity` is not part of this model either; it is taken to be
`Double.isInfinite`.

## Model

| member | source | states |
|---|---|---|
| `JavaNumbers.NarrowToInt` | truffle/src/main/java/org/jruby/truffle/nodes/rubinius/BignumPrimitiveNodes.java:86 | `(int) b` is the `int` congruent to `b` modulo 2^32, and is `b` itself when `b` fits in an `int` |
| `JavaNumbers.WidenToLong` | truffle/src/main/java/org/jruby/truffle/nodes/rubinius/BignumPrimitiveNodes.java:77 | narrowing the widened value gives `b` back |
| `BigIntegers.CompareTo` | truffle/src/main/java/org/jruby/truffle/nodes/rubinius/BignumPrimitiveNodes.java:37 | `compareTo` is -1, 0 or +1, negative exactly when `x < y`, zero exactly when `x == y`, positive exactly when `x > y` |
| `BigIntegers.CompareToAntisymmetric` | truffle/src/main/java/org/jruby/truffle/nodes/rubinius/BignumPrimitiveNodes.java:56 | swapping the arguments of `compareTo` negates the result |
| `BigIntegers.CompareToTransitive` | truffle/src/main/java/org/jruby/truffle/nodes/rubinius/BignumPrimitiveNodes.java:56 | `compareTo` is a transitive order, and equality at the ends forces equality in between |
| `BigIntegers.Pow` | truffle/src/main/java/org/jruby/truffle/nodes/rubinius/BignumPrimitiveNodes.java:86 | the power is 0 exactly when the base is 0 and the exponent positive; it is positive for a positive base; for a negative base it is positive exactly for an even exponent |
| `BigIntegers.PowMagnitudeIncreasing` | truffle/src/main/java/org/jruby/truffle/nodes/rubinius/BignumPrimitiveNodes.java:86 | for a base of magnitude at least 2, a larger exponent gives a power of strictly larger magnitude |
| `Doubles.IsInfinite` | truffle/src/main/java/org/jruby/truffle/nodes/rubinius/BignumPrimitiveNodes.java:40-45 | the guard `isInfinity(b)` holds of exactly +Infinity and -Infinity, and never of NaN |
| `Doubles.LessThanZero` | truffle/src/main/java/org/jruby/truffle/nodes/rubinius/BignumPrimitiveNodes.java:47 | `b < 0` holds exactly of the doubles that `Double.compare` puts before -0.0 (so not of -0.0, nor of NaN) |
| `Doubles.LessThanZeroOnInfinities` | truffle/src/main/java/org/jruby/truffle/nodes/rubinius/BignumPrimitiveNodes.java:45-47 | of the two infinities, `b < 0` holds of the negative one only |
| `Doubles.CompareMagnitude` | truffle/src/main/java/org/jruby/truffle/nodes/rubinius/BignumPrimitiveNodes.java:42 | the magnitude order of two encodings is -1, 0 or +1 and is 0 exactly when exponent and fraction agree |
| `Doubles.Compare` | truffle/src/main/java/org/jruby/truffle/nodes/rubinius/BignumPrimitiveNodes.java:42 | `Double.compare` is -1, 0 or +1; it is 0 exactly for the same double or two NaNs; NaN is above every other double |
| `Doubles.CompareAntisymmetric` | truffle/src/main/java/org/jruby/truffle/nodes/rubinius/BignumPrimitiveNodes.java:42 | swapping the arguments of `Double.compare` negates the result |
| `Doubles.CompareTransitive` | truffle/src/main/java/org/jruby/truffle/nodes/rubinius/BignumPrimitiveNodes.java:42 | `Double.compare` is transitive |
| `Doubles.CompareInfinitiesAreExtremes` | truffle/src/main/java/org/jruby/truffle/nodes/rubinius/BignumPrimitiveNodes.java:42 | every double but NaN lies between -Infinity and +Infinity in `Double.compare` |
| `Doubles.CompareSignedZeros` | truffle/src/main/java/org/jruby/truffle/nodes/rubinius/BignumPrimitiveNodes.java:42-47 | `Double.compare` puts -0.0 before 0.0, while `-0.0 < 0` is false |
| `BignumCompare.CompareLong` | truffle/src/main/java/org/jruby/truffle/nodes/rubinius/BignumPrimitiveNodes.java:35-38 | against a `long` the result is -1, 0 or +1 and is the exact sign of `a - b` |
| `BignumCompare.CompareDouble` | truffle/src/main/java/org/jruby/truffle/nodes/rubinius/BignumPrimitiveNodes.java:40-43 | against a double that is not infinite the result is -1, 0 or +1, is 0 exactly when `a` rounds to `b`, and is -1 against NaN (the rounding of `a` is never NaN) |
| `BignumCompare.CompareInfinity` | truffle/src/main/java/org/jruby/truffle/nodes/rubinius/BignumPrimitiveNodes.java:45-52 | against -Infinity the result is +1, against +Infinity it is -1 |
| `BignumCompare.CompareBignum` | truffle/src/main/java/org/jruby/truffle/nodes/rubinius/BignumPrimitiveNodes.java:54-57 | against a Bignum the result is -1, 0 or +1 and is the exact sign of `a - b` |
| `BignumCompare.Compare` | truffle/src/main/java/org/jruby/truffle/nodes/rubinius/BignumPrimitiveNodes.java:35-62 | the primitive never raises; it fails exactly for a Ruby object that is not a Bignum; every value is -1, 0 or +1; the infinities give +1 and -1 |
| `BignumCompare.CompareIntegerIsExact` | truffle/src/main/java/org/jruby/truffle/nodes/rubinius/BignumPrimitiveNodes.java:36-38 | against an `int`, a `long` or a Bignum the result is `compareTo` of the exact values: 0 exactly when equal, negative exactly when `a < b` |
| `BignumCompare.CompareWideningAgrees` | truffle/src/main/java/org/jruby/truffle/nodes/rubinius/BignumPrimitiveNodes.java:36-37 | one number as an `int`, a `long` or a Bignum gives the same answer: widening loses no precision |
| `BignumCompare.CompareBignumAntisymmetric` | truffle/src/main/java/org/jruby/truffle/nodes/rubinius/BignumPrimitiveNodes.java:54-57 | `compare(a, b) == -compare(b, a)` for two Bignums |
| `BignumCompare.CompareBignumTransitive` | truffle/src/main/java/org/jruby/truffle/nodes/rubinius/BignumPrimitiveNodes.java:54-57 | comparing Bignums is transitive |
| `BignumCompare.CompareInfinityIgnoresReceiver` | truffle/src/main/java/org/jruby/truffle/nodes/rubinius/BignumPrimitiveNodes.java:45-52 | against an infinite double the answer depends neither on `a` nor on the floating-point library |
| `BignumCompare.CompareNaN` | truffle/src/main/java/org/jruby/truffle/nodes/rubinius/BignumPrimitiveNodes.java:40-43 | NaN gives a value, never primitive failure, and that value is -1 |
| `BignumCompare.CompareFiniteDoubleSeesOnlyRounding` | truffle/src/main/java/org/jruby/truffle/nodes/rubinius/BignumPrimitiveNodes.java:40-43 | against a double that is not infinite, two receivers that round to the same double compare alike |
| `BignumCompare.CompareExamples` | truffle/src/main/java/org/jruby/truffle/nodes/rubinius/BignumPrimitiveNodes.java:35-52 | `2^100 <=> 5` is 1 and `2^100 <=> Infinity` is -1 |
| `BignumPow.PowLong` | truffle/src/main/java/org/jruby/truffle/nodes/rubinius/BignumPrimitiveNodes.java:80-88 | a negative `long` exponent fails; from 0 to 2^31-1 the result is the exact power; above that it raises exactly when bit 31 of `b` is set, and otherwise is the power of `b` modulo 2^32 |
| `BignumPow.PowInt` | truffle/src/main/java/org/jruby/truffle/nodes/rubinius/BignumPrimitiveNodes.java:75-78 | a negative `int` exponent fails; any other gives the exact power |
| `BignumPow.PowDouble` | truffle/src/main/java/org/jruby/truffle/nodes/rubinius/BignumPrimitiveNodes.java:90-94 | any double exponent gives a Float: `Math.pow` of the rounded receiver and `b` |
| `BignumPow.Pow` | truffle/src/main/java/org/jruby/truffle/nodes/rubinius/BignumPrimitiveNodes.java:75-99 | the primitive fails exactly for a negative `int` or `long`; a Bignum exponent raises `UnsupportedOperationException`; a non-Bignum object matches no specialization; a double always gives a Float; a Bignum result comes only from an integer exponent |
| `BignumPow.PowIsExactInIntRange` | truffle/src/main/java/org/jruby/truffle/nodes/rubinius/BignumPrimitiveNodes.java:85-86 | for an `int` or `long` exponent from 0 to 2^31-1 the result is exactly `a^b` |
| `BignumPow.PowZeroExponent` | truffle/src/main/java/org/jruby/truffle/nodes/rubinius/BignumPrimitiveNodes.java:86 | `a ** 0` is the Bignum 1 for every `a`, 0 included |
| `BignumPow.PowIntAsLong` | truffle/src/main/java/org/jruby/truffle/nodes/rubinius/BignumPrimitiveNodes.java:75-78 | an `int` exponent gives the same outcome as the same value as a `long` |
| `BignumPow.PowBignumExponentIsUnsupported` | truffle/src/main/java/org/jruby/truffle/nodes/rubinius/BignumPrimitiveNodes.java:96-99 | a Bignum exponent gives neither a value nor primitive failure |
| `BignumPow.PowDoubleSeesOnlyRounding` | truffle/src/main/java/org/jruby/truffle/nodes/rubinius/BignumPrimitiveNodes.java:90-94 | every double exponent, NaN and the infinities included, gives `Math.pow` of the rounded receiver, so receivers that round alike give the same Float |
| `BignumPow.PowLongWrongAboveIntRange` | truffle/src/main/java/org/jruby/truffle/nodes/rubinius/BignumPrimitiveNodes.java:85-86 | above 2^31-1 the `long` specialization never returns the true power of a base of magnitude at least 2 |
| `BignumPow.TruncatedExponentExample` | truffle/src/main/java/org/jruby/truffle/nodes/rubinius/BignumPrimitiveNodes.java:85-86 | `2 ** 2^32` gives 1 though the true power is not 1, and `2 ** 2^31` raises `ArithmeticException` |
| `BignumPow.PowExamples` | truffle/src/main/java/org/jruby/truffle/nodes/rubinius/BignumPrimitiveNodes.java:75-88 | `2 ** 10` is 1024, `2 ** -1` fails, `2 ** 1` is 2 as an `int` and as a `long` |
| `BignumPow.PowLongChecked` | truffle/src/main/java/org/jruby/truffle/nodes/rubinius/BignumPrimitiveNodes.java:80-88 | corrected: a value exactly for exponents from 0 to 2^31-1, always the exact power; primitive failure otherwise, never an exception |
| `BignumPow.PowChecked` | truffle/src/main/java/org/jruby/truffle/nodes/rubinius/BignumPrimitiveNodes.java:75-99 | corrected primitive: every Bignum result is the exact power of the integer exponent passed; only a Bignum or non-Bignum object exponent raises |
| `BignumPow.PowCheckedAgreesInIntRange` | truffle/src/main/java/org/jruby/truffle/nodes/rubinius/BignumPrimitiveNodes.java:75-99 | the corrected primitive equals the original on every argument but a `long` above 2^31-1 |

## Left out

- Rounding of a `BigInteger` to a double (`doubleValue`) and `Math.pow`: IEEE 754 arithmetic is not modelled; both are parameters (`HostFloat`), and only which specialization runs and the kind of its result are stated.
- The range limit of `BigInteger` (about 2^31 bits of magnitude, past which `pow` raises `ArithmeticException`) and running out of memory: `BigIntegers.Pow` is unbounded.
- Truffle machinery: specialization rewriting, the `ConditionProfile` on the sign of the exponent, `@TruffleBoundary` and source sections have no effect on results.
- Allocation of the result Bignum (`createBignum` with the Bignum factory): the result is its value; it is not normalised to a Fixnum.
- Arguments that are Java values other than `int`, `long`, `double` and Ruby objects (for instance `boolean`).
- The registry that maps the primitive names `bignum_compare` and `bignum_pow` to these nodes, and the Ruby fallback code that runs after primitive failure.
- `truffle/src/main/java/org/jruby/truffle/nodes/interop/TargetableRubyNode.java`: an abstract node with no logic of its own.

## Findings

| source | as written | input that shows it | evidently intended | confidence | as-written member | corrected member |
|---|---|---|---|---|---|---|
| truffle/src/main/java/org/jruby/truffle/nodes/rubinius/BignumPrimitiveNodes.java:85-86 | a non-negative `long` exponent is cast to `int` before `BigInteger.pow`, keeping only its low 32 bits (the TODO on line 85 asks about this cast) | `b = 2^32` gives `2 ** b == 1`; `b = 2^31` raises `ArithmeticException` | an exponent that does not fit in an `int` is not computed with a truncated exponent; the primitive fails and leaves it to the fallback code | high; not executed | `BignumPow.PowLongWrongAboveIntRange`, `BignumPow.TruncatedExponentExample` | `BignumPow.PowLongChecked`, `BignumPow.PowChecked` |
