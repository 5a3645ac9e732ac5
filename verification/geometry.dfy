/**
  The rational part of the planar vector helpers the path layer uses
  (translations, their differences, sums, scaling, dot and cross products
  and the Euclidean norm through the square-root oracle). Rotations and
  angles are not part of this model.
 */
module Geometry {
  import opened Utils

  /** A point, or a displacement, in the plane. */
  datatype Translation = Translation(x: real, y: real)

  /** The displacement from `a` to `b`. */
  function Delta(a: Translation, b: Translation): (r: Translation)
    ensures Add(a, r) == b
  {
    Translation(b.x - a.x, b.y - a.y)
  }

  /** `a` moved by `b`. */
  function Add(a: Translation, b: Translation): Translation
  {
    Translation(a.x + b.x, a.y + b.y)
  }

  function Scale(a: Translation, k: real): Translation
  {
    Translation(a.x * k, a.y * k)
  }

  function Dot(a: Translation, b: Translation): real
  {
    a.x * b.x + a.y * b.y
  }

  /** The squared length, which needs no square root. */
  function NormSqr(a: Translation): real
  {
    a.x * a.x + a.y * a.y
  }

  /** A squared length is never negative. */
  lemma NormSqrNonNegative(a: Translation)
    ensures NormSqr(a) >= 0.0
  {
    SquareNonNegative(a.x);
    SquareNonNegative(a.y);
  }

  /** The Euclidean length. */
  function Norm(a: Translation, sqrt: real -> real): (r: real)
    requires IsSqrt(sqrt)
    ensures r >= 0.0 && r * r == NormSqr(a)
  {
    NormSqrNonNegative(a);
    sqrt(NormSqr(a))
  }

  /** Scaling a vector scales its squared length by the square of the factor. */
  lemma NormSqrScale(a: Translation, k: real)
    ensures NormSqr(Scale(a, k)) == k * k * NormSqr(a)
  {
    assert (a.x * k) * (a.x * k) == k * k * (a.x * a.x);
    assert (a.y * k) * (a.y * k) == k * k * (a.y * a.y);
  }

  /** Scaling a vector scales its length by the magnitude of the factor. */
  lemma {:induction false} NormScale(a: Translation, k: real, sqrt: real -> real)
    requires IsSqrt(sqrt)
    ensures Norm(Scale(a, k), sqrt) == Abs(k) * Norm(a, sqrt)
  {
    var n := Norm(a, sqrt);
    var m := Abs(k);
    NormSqrScale(a, k);
    assert m * m == k * k;
    ProductSquare(m, n);
    NonNegativeProduct(m, n);
    SqrtUnique(sqrt, NormSqr(Scale(a, k)), m * n);
  }

  lemma ProductSquare(m: real, n: real)
    ensures (m * n) * (m * n) == (m * m) * (n * n)
  {
  }

  /** The dot product is linear in the scaled argument. */
  lemma DotScale(a: Translation, b: Translation, k: real)
    ensures Dot(Scale(a, k), b) == k * Dot(a, b)
  {
    assert (a.x * k) * b.x == k * (a.x * b.x);
    assert (a.y * k) * b.y == k * (a.y * b.y);
  }
}
