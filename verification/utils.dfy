/**
  Scalar helpers shared by the motion and path layers (utils/Utils.c), the
  NaN-as-absence wrapper, and the square-root oracle every caller of `sqrt`
  receives as a parameter.
 */
module Utils {

  /** The tolerance used by every approximate comparison of motion states. */
  const kEpsilon: real := 0.000001

  /** A value that C code would signal as NaN is `None`. */
  datatype Option<+T> = None | Some(value: T)

  function Abs(x: real): (r: real)
    ensures r >= 0.0 && (r == x || r == -x)
  {
    if x < 0.0 then -x else x
  }

  /** `fmin` on two non-NaN operands. */
  function Min(a: real, b: real): (r: real)
    ensures r <= a && r <= b && (r == a || r == b)
  {
    if a <= b then a else b
  }

  /** `fmax` on two non-NaN operands. */
  function Max(a: real, b: real): (r: real)
    ensures r >= a && r >= b && (r == a || r == b)
  {
    if a >= b then a else b
  }

  /** The sign used throughout the motion code: zero counts as positive. */
  function SignNum(x: real): (r: real)
    ensures r == -1.0 <==> x < 0.0
    ensures r == 1.0 || r == -1.0
  {
    if x < 0.0 then -1.0 else 1.0
  }

  /** Two reals are within `epsilon` of each other (inclusive at both ends). */
  predicate EpsilonEquals(a: real, b: real, epsilon: real)
  {
    a - epsilon <= b && a + epsilon >= b
  }

  /**
    A double that may be infinite or NaN, for the few computations whose
    result the C code clamps with `fmin`/`fmax` or tests with `isnan`.
   */
  datatype Ext = Num(value: real) | PlusInfinity | MinusInfinity | NotANumber

  /** Within the limits; NaN and infinities never are. */
  predicate InRange(e: Ext, lo: real, hi: real)
  {
    e.Num? && lo <= e.value <= hi
  }

  /**
    `fmax(lo, fmin(hi, x))`: the C library functions return the other
    argument for a NaN one, so NaN clamps to the upper limit.
   */
  function Clamp(lo: real, hi: real, x: Ext): (r: real)
    ensures lo <= hi ==> lo <= r <= hi
    ensures InRange(x, lo, hi) ==> r == x.value
    ensures x.Num? && x.value < lo ==> r == lo
    ensures x.Num? && lo <= hi && x.value > hi ==> r == hi
    ensures (x.NotANumber? || x.PlusInfinity?) ==> r == Max(lo, hi)
    ensures x.MinusInfinity? ==> r == lo
  {
    match x
    case Num(v) => Max(lo, Min(hi, v))
    case PlusInfinity => Max(lo, hi)
    case MinusInfinity => lo
    case NotANumber => Max(lo, hi)
  }

  /** Clamping a clamped value again changes nothing. */
  lemma ClampIdempotent(lo: real, hi: real, x: Ext)
    requires lo <= hi
    ensures Clamp(lo, hi, Num(Clamp(lo, hi, x))) == Clamp(lo, hi, x)
  {
  }

  /**
    Clamping is monotonic: a larger value never clamps to a smaller
    value.
   */
  lemma ClampMonotonic(lo: real, hi: real, x: real, y: real)
    requires x <= y
    ensures Clamp(lo, hi, Num(x)) <= Clamp(lo, hi, Num(y))
  {
  }

  /** `SignNum` recovers a number from its magnitude. */
  lemma SignNumTimesAbs(x: real)
    ensures SignNum(x) * Abs(x) == x
    ensures SignNum(x) * SignNum(x) == 1.0
  {
  }

  /** `SignNum` of a negated non-zero number is the negated sign. */
  lemma SignNumOfNegation(x: real)
    requires x != 0.0
    ensures SignNum(-x) == -SignNum(x)
  {
  }

  /** The inclusive band test is a distance test. */
  lemma EpsilonEqualsIsDistance(a: real, b: real, epsilon: real)
    ensures EpsilonEquals(a, b, epsilon) <==> Abs(a - b) <= epsilon
  {
  }

  lemma EpsilonEqualsSymmetric(a: real, b: real, epsilon: real)
    ensures EpsilonEquals(a, b, epsilon) <==> EpsilonEquals(b, a, epsilon)
  {
  }

  lemma EpsilonEqualsReflexive(a: real, epsilon: real)
    ensures EpsilonEquals(a, a, epsilon) <==> epsilon >= 0.0
  {
  }

  /** The square-root primitive the C code takes from the maths library. */
  ghost predicate IsSqrt(sqrt: real -> real)
  {
    forall x :: 0.0 <= x ==> 0.0 <= sqrt(x) && sqrt(x) * sqrt(x) == x
  }

  /** A square root is determined by its square. */
  lemma SqrtUnique(sqrt: real -> real, x: real, r: real)
    requires IsSqrt(sqrt) && 0.0 <= x
    requires 0.0 <= r && r * r == x
    ensures sqrt(x) == r
  {
    var s := sqrt(x);
    assert s * s == r * r;
    ZeroProduct(s - r, s + r);
  }

  /** The square root is monotonic. */
  lemma SqrtMonotonic(sqrt: real -> real, x: real, y: real)
    requires IsSqrt(sqrt) && 0.0 <= x <= y
    ensures sqrt(x) <= sqrt(y)
  {
    var a, b := sqrt(x), sqrt(y);
    assert (a - b) * (a + b) == x - y;
    NonPositiveProduct(a - b, a + b);
  }

  lemma ZeroProduct(a: real, b: real)
    requires a * b == 0.0
    ensures a == 0.0 || b == 0.0
  {
  }

  lemma SquareNonNegative(x: real)
    ensures x * x >= 0.0
    ensures x != 0.0 ==> x * x > 0.0
  {
    if x < 0.0 {
      assert x * x == (-x) * (-x);
    }
  }

  lemma PositiveFactor(a: real, b: real)
    requires a * b >= 0.0 && b > 0.0
    ensures a >= 0.0
  {
  }

  lemma NonPositiveProduct(a: real, b: real)
    requires a * b <= 0.0 && b >= 0.0
    ensures a <= 0.0 || b == 0.0
  {
  }

  lemma NonNegativeProduct(a: real, b: real)
    requires a >= 0.0 && b >= 0.0
    ensures a * b >= 0.0
  {
  }

  /** Squaring is strictly increasing on the non-negative reals. */
  lemma SquareStrictlyMonotonic(a: real, b: real)
    requires 0.0 <= a < b
    ensures a * a < b * b
  {
    assert b * b - a * a == (b - a) * (b + a);
    PositiveProduct(b - a, b + a);
  }

  lemma PositiveProduct(a: real, b: real)
    requires a > 0.0 && b > 0.0
    ensures a * b > 0.0
  {
  }

  /** Squaring is increasing on the non-negative reals. */
  lemma SquareMonotonic(a: real, b: real)
    requires 0.0 <= a <= b
    ensures a * a <= b * b
  {
    if a < b {
      SquareStrictlyMonotonic(a, b);
    }
  }
}
