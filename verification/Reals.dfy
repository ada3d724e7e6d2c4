/** The few facts about products and quotients of reals that the proofs name. */
module Reals {

  lemma ProductNonNegative(a: real, b: real)
    requires 0.0 <= a && 0.0 <= b
    ensures 0.0 <= a * b
  {
  }

  lemma ProductPositive(a: real, b: real)
    requires 0.0 < a && 0.0 < b
    ensures 0.0 < a * b
  {
  }

  lemma SquarePositive(z: real, square: real)
    requires 0.0 != z && square == z * z
    ensures 0.0 < square
  {
    if 0.0 < z { ProductIsPositive(z, z, square); } else { ProductIsPositive(-z, -z, square); }
  }

  lemma ProductIsPositive(a: real, b: real, product: real)
    requires 0.0 < a && 0.0 < b && product == a * b
    ensures 0.0 < product
  {
  }

  lemma ProductMonotone(a: real, b: real, c: real)
    requires a <= b && 0.0 <= c
    ensures a * c <= b * c
  {
  }

  lemma SquareMonotone(a: real, b: real)
    requires 0.0 <= a <= b
    ensures a * a <= b * b
  {
    ProductMonotone(a, b, a);
    ProductMonotone(a, b, b);
  }

  lemma QuotientPositive(a: real, b: real)
    requires 0.0 < a && 0.0 < b
    ensures 0.0 < a / b
  {
  }

  lemma QuotientMonotone(a: real, b: real, c: real)
    requires a <= b && 0.0 < c
    ensures a / c <= b / c
  {
    assert (b - a) / c == b / c - a / c;
  }

  lemma QuotientTimes(a: real, b: real)
    requires b != 0.0
    ensures a / b * b == a && a * b / b == a
  {
  }

  /** The sign of a product with a positive factor is the sign of the other. */
  lemma SignOfProduct(w: real, q: real)
    requires 0.0 < w
    ensures w * q <= 0.0 <==> q <= 0.0
  {
  }

  lemma SquareBound(e: real, f: real)
    requires 0.0 <= f
    ensures e * e - f * f <= 0.0 <==> -f <= e <= f
  {
    if -f <= e <= f {
      ProductNonNegative(f - e, e + f);
    } else if e < -f {
      ProductIsPositive(f - e, -e - f, e * e - f * f);
    } else {
      ProductIsPositive(e - f, e + f, e * e - f * f);
    }
  }
}
