/** Decimal rounding as the standard library performs it on the values here: to
    the nearest multiple of 1/scale, ties to the even multiple. */
module Rounding {
  import opened Reals

  function RoundHalfEven(x: real): (r: int)
    ensures -0.5 <= r as real - x <= 0.5
  {
    var below := x.Floor;
    var rest := x - below as real;
    if rest < 0.5 then below
    else if rest > 0.5 then below + 1
    else if below % 2 == 0 then below
    else below + 1
  }

  /** round(x, d) with scale == 10^d. */
  function RoundTo(x: real, scale: real): real
    requires 0.0 < scale
  {
    RoundHalfEven(x * scale) as real / scale
  }

  lemma RoundHalfEvenMonotone(x: real, y: real)
    requires x <= y
    ensures RoundHalfEven(x) <= RoundHalfEven(y)
  {
    if x.Floor == y.Floor {
    } else {
      assert x.Floor + 1 <= y.Floor;
    }
  }

  lemma RoundToMonotone(x: real, y: real, scale: real)
    requires 0.0 < scale && x <= y
    ensures RoundTo(x, scale) <= RoundTo(y, scale)
  {
    ProductMonotone(x, y, scale);
    RoundHalfEvenMonotone(x * scale, y * scale);
    QuotientMonotone(RoundHalfEven(x * scale) as real, RoundHalfEven(y * scale) as real, scale);
  }

  /** A multiple of 1/scale is its own rounding. */
  lemma RoundToFixes(i: int, x: real, scale: real)
    requires 0.0 < scale && x * scale == i as real
    ensures RoundTo(x, scale) == x
  {
    assert (i as real).Floor == i;
    assert x * scale / scale == x;
  }

  lemma RoundToNear(x: real, scale: real)
    requires 0.0 < scale
    ensures -0.5 / scale <= RoundTo(x, scale) - x <= 0.5 / scale
  {
    QuotientDistance(RoundHalfEven(x * scale) as real, x, scale);
  }

  lemma QuotientDistance(r: real, x: real, scale: real)
    requires 0.0 < scale && -0.5 <= r - x * scale <= 0.5
    ensures -0.5 / scale <= r / scale - x <= 0.5 / scale
  {
    QuotientTimes(x, scale);
    QuotientMonotone(-0.5, r - x * scale, scale);
    QuotientMonotone(r - x * scale, 0.5, scale);
    assert (r - x * scale) / scale == r / scale - x * scale / scale;
  }
}
