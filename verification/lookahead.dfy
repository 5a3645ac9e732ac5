/**
  The speed-dependent lookahead distance of the pure-pursuit controller
  (path/Lookahead.c): linear in the speed between two anchor points,
  clamped to the distance limits.
 */
module Lookaheads {
  import opened Utils

  /**
    The anchor points of the interpolation and the distance limits; the
    deltas are the distance and speed spans the slope is taken from.
   */
  datatype Lookahead = Lookahead(minDistance: real, maxDistance: real, minSpeed: real, maxSpeed: real,
                                 deltaDistance: real, deltaSpeed: real)

  /**
    The interpolated distance as a double: with a zero speed span the
    quotient is infinite, or NaN when its numerator is zero too.
   */
  function Interpolated(l: Lookahead, speed: real): (r: Ext)
    ensures l.deltaSpeed != 0.0 ==>
      r == Num(l.deltaDistance * (speed - l.minSpeed) / l.deltaSpeed + l.minDistance)
    ensures r.NotANumber? <==> l.deltaSpeed == 0.0 && l.deltaDistance * (speed - l.minSpeed) == 0.0
  {
    var numerator := l.deltaDistance * (speed - l.minSpeed);
    if l.deltaSpeed != 0.0 then Num(numerator / l.deltaSpeed + l.minDistance)
    else if numerator > 0.0 then PlusInfinity
    else if numerator < 0.0 then MinusInfinity
    else NotANumber
  }

  /**
    The lookahead distance for a speed: the interpolated distance clamped
    to the limits, or the minimum distance when the interpolation is NaN.
   */
  function GetLookaheadForSpeed(l: Lookahead, speed: real): (r: real)
    ensures r >= l.minDistance
    ensures l.minDistance <= l.maxDistance ==> r <= l.maxDistance
    ensures InRange(Interpolated(l, speed), l.minDistance, l.maxDistance) ==> r == Interpolated(l, speed).value
    ensures Interpolated(l, speed).NotANumber? ==> r == l.minDistance
  {
    var d := Interpolated(l, speed);
    if d.NotANumber? then l.minDistance else Clamp(l.minDistance, l.maxDistance, d)
  }

  /**
    The slope of the interpolation is not negative (as the C comparison
    `deltaDistance / deltaSpeed >= 0` decides it, infinite for a zero
    speed span).
   */
  predicate NonNegativeSlope(l: Lookahead)
  {
    if l.deltaSpeed != 0.0 then l.deltaDistance / l.deltaSpeed >= 0.0 else l.deltaDistance > 0.0
  }

  /** With a non-negative slope, a larger speed never interpolates to a smaller distance. */
  lemma {:induction false} InterpolationMonotonic(l: Lookahead, s1: real, s2: real)
    requires NonNegativeSlope(l) && l.deltaSpeed != 0.0 && s1 <= s2
    ensures Interpolated(l, s1).value <= Interpolated(l, s2).value
  {
    AffineMonotonic(l.deltaDistance, l.deltaSpeed, l.minSpeed, s1, s2);
  }

  /** A line of non-negative slope `a / c` through `m` keeps the order of its arguments. */
  lemma {:induction false} AffineMonotonic(a: real, c: real, m: real, s1: real, s2: real)
    requires c != 0.0 && a / c >= 0.0 && s1 <= s2
    ensures a * (s1 - m) / c <= a * (s2 - m) / c
  {
    QuotientOfProduct(a, s1 - m, c);
    QuotientOfProduct(a, s2 - m, c);
    ScaleMonotonic(a / c, s1 - m, s2 - m);
  }

  /** Dividing a product divides its first factor. */
  lemma QuotientOfProduct(a: real, b: real, c: real)
    requires c != 0.0
    ensures a * b / c == (a / c) * b
  {
  }

  /** A non-negative factor keeps the order. */
  lemma ScaleMonotonic(k: real, a: real, b: real)
    requires k >= 0.0 && a <= b
    ensures k * a <= k * b
  {
    NonNegativeProduct(k, b - a);
    assert k * b - k * a == k * (b - a);
  }

  /** With a non-negative slope the lookahead distance never shrinks as the speed grows. */
  lemma {:induction false} LookaheadMonotonic(l: Lookahead, s1: real, s2: real)
    requires NonNegativeSlope(l) && s1 <= s2
    ensures GetLookaheadForSpeed(l, s1) <= GetLookaheadForSpeed(l, s2)
  {
    if l.deltaSpeed != 0.0 {
      InterpolationMonotonic(l, s1, s2);
      ClampMonotonic(l.minDistance, l.maxDistance, Interpolated(l, s1).value, Interpolated(l, s2).value);
    } else {
      if s1 > l.minSpeed {
        PositiveProduct(l.deltaDistance, s1 - l.minSpeed);
        PositiveProduct(l.deltaDistance, s2 - l.minSpeed);
      } else if s1 < l.minSpeed {
        NegativeTimesPositive(l.deltaDistance, s1 - l.minSpeed);
        if s2 > l.minSpeed {
          PositiveProduct(l.deltaDistance, s2 - l.minSpeed);
        } else if s2 < l.minSpeed {
          NegativeTimesPositive(l.deltaDistance, s2 - l.minSpeed);
        }
      } else if s2 > l.minSpeed {
        PositiveProduct(l.deltaDistance, s2 - l.minSpeed);
      }
    }
  }

  /** A positive factor keeps the sign of a negative one. */
  lemma NegativeTimesPositive(a: real, b: real)
    requires a > 0.0 && b < 0.0
    ensures a * b < 0.0
  {
    PositiveProduct(a, -b);
    assert a * (-b) == -(a * b);
  }

  /**
    The robot's lookahead: 12 to 36 inches between 4 and 12 inches per
    second, a distance span of 24 over a speed span of 8. At 8 inches per
    second it is 24 inches; standing still it is 12, and above 12 inches
    per second it stays at 36.
   */
  lemma LookaheadExample()
    ensures var l := Lookahead(12.0, 36.0, 4.0, 12.0, 36.0 - 12.0, 12.0 - 4.0);
      GetLookaheadForSpeed(l, 8.0) == 24.0 && GetLookaheadForSpeed(l, 0.0) == 12.0
      && GetLookaheadForSpeed(l, 100.0) == 36.0
  {
  }
}
