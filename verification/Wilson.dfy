/** The Wilson score interval of src/causure/canary.py over exact reals. */
module Wilson {
  import opened Reals

  datatype Interval = Interval(lo: real, hi: real)

  ghost predicate Contains(interval: Interval, p: real) {
    interval.lo <= p <= interval.hi
  }

  /** What the comparison needs of a square root: non-negative, and squaring undoes it. */
  ghost predicate IsSquareRoot(sqrt: real -> real) {
    forall x: real :: 0.0 <= x ==> 0.0 <= sqrt(x) && sqrt(x) * sqrt(x) == x
  }

  function Rate(events: nat, samples: nat): (r: real)
    requires events <= samples && 1 <= samples
    ensures 0.0 <= r <= 1.0 && r * samples as real == events as real
  {
    RateBounds(events as real, samples as real);
    events as real / samples as real
  }

  lemma RateBounds(k: real, n: real)
    requires 0.0 <= k <= n && 0.0 < n
    ensures 0.0 <= k / n <= 1.0
  {
  }

  function Center(rate: real, n: real, z: real): real
    requires 0.0 < n && 0.0 < z
  {
    var zSquared := z * z;
    var denominator := 1.0 + zSquared / n;
    (rate + zSquared / (2.0 * n)) / denominator
  }

  function Margin(rate: real, n: real, z: real, sqrt: real -> real): real
    requires 0.0 < n && 0.0 < z
  {
    var zSquared := z * z;
    var denominator := 1.0 + zSquared / n;
    z * sqrt(rate * (1.0 - rate) / n + zSquared / (4.0 * n * n)) / denominator
  }

  function WilsonInterval(events: nat, samples: nat, z: real, sqrt: real -> real): Interval
    requires events <= samples && 1 <= samples && 0.0 < z
  {
    var n := samples as real;
    var rate := Rate(events, samples);
    var center := Center(rate, n, z);
    var margin := Margin(rate, n, z, sqrt);
    Interval(if center - margin > 0.0 then center - margin else 0.0,
             if center + margin < 1.0 then center + margin else 1.0)
  }

  ghost predicate ScoreAccepts(rate: real, n: real, z: real, p: real) {
    n * ((rate - p) * (rate - p)) <= z * z * (p * (1.0 - p))
  }

  /** The rates a score test at critical value z does not reject. */
  ghost predicate Unrejected(events: nat, samples: nat, z: real, p: real)
    requires events <= samples && 1 <= samples
  {
    0.0 <= p <= 1.0 && ScoreAccepts(Rate(events, samples), samples as real, z, p)
  }

  lemma CenterScaled(r: real, n: real, z: real)
    requires 0.0 < n && 0.0 < z
    ensures (n + z * z) * Center(r, n, z) == n * r + z * z / 2.0
  {
    var zz := z * z;
    var d := 1.0 + zz / n;
    assert n * d == n + zz;
    var half := zz / (2.0 * n);
    assert half * n == zz / 2.0;
    assert Center(r, n, z) * d == r + half;
    assert n * d * Center(r, n, z) == n * (Center(r, n, z) * d);
    assert n * (r + half) == n * r + n * half;
  }

  lemma MarginScaled(r: real, n: real, z: real, sqrt: real -> real)
    requires 0.0 < n && 0.0 < z && 0.0 <= r <= 1.0 && IsSquareRoot(sqrt)
    ensures 0.0 < Margin(r, n, z, sqrt)
    ensures (n + z * z) * Margin(r, n, z, sqrt) * ((n + z * z) * Margin(r, n, z, sqrt))
            == z * z * (n * (r * (1.0 - r)) + z * z / 4.0)
  {
    var zz := z * z;
    var d := 1.0 + zz / n;
    assert n * d == n + zz;
    var v := r * (1.0 - r);
    ProductNonNegative(r, 1.0 - r);
    SquarePositive(z, zz);
    ProductPositive(4.0 * n, n);
    QuotientMonotone(0.0, v, n);
    QuotientPositive(zz, 4.0 * n * n);
    var under := v / n + zz / (4.0 * n * n);
    var s := sqrt(under);
    assert s * s == under && 0.0 < s;
    var m := Margin(r, n, z, sqrt);
    QuotientTimes(z * s, d);
    ProductPositive(z, s);
    QuotientPositive(z * s, d);
    assert n * n * under == n * v + zz / 4.0 by {
      assert v / n * n == v;
      assert zz / (4.0 * n * n) * (4.0 * n * n) == zz;
      assert n * n * (v / n) == n * v;
      assert n * n * (zz / (4.0 * n * n)) == zz / 4.0;
    }
    var w := n + zz;
    assert w * m == n * (z * s) by { assert n * d * m == n * (m * d); }
    Regroup(n, z, s);
  }

  lemma Regroup(n: real, z: real, s: real)
    ensures n * (z * s) * (n * (z * s)) == z * z * (n * n * (s * s))
  {
  }

  lemma CompleteSquare(r: real, n: real, zz: real, p: real, e: real)
    requires e == (n + zz) * p - (n * r + zz / 2.0)
    ensures (n + zz) * (n * ((r - p) * (r - p)) - zz * (p * (1.0 - p))) == e * e - zz * (n * (r * (1.0 - r)) + zz / 4.0)
  {
  }

  /** The sign of q, when w times q is a difference of squares. */
  lemma SignOfSquares(w: real, q: real, e: real, f: real, square: real)
    requires 0.0 < w && 0.0 <= f && f * f == square && w * q == e * e - square
    ensures q <= 0.0 <==> -f <= e <= f
  {
    SignOfProduct(w, q);
    SquareBound(e, f);
  }

  /** The score inequality bounds a linear term of p by the root of its discriminant. */
  lemma ScoreIsSquare(r: real, n: real, zz: real, p: real, e: real, f: real)
    requires 0.0 < n && 0.0 < zz && 0.0 <= f && e == (n + zz) * p - (n * r + zz / 2.0)
    requires f * f == zz * (n * (r * (1.0 - r)) + zz / 4.0)
    ensures n * ((r - p) * (r - p)) <= zz * (p * (1.0 - p)) <==> -f <= e <= f
  {
    CompleteSquare(r, n, zz, p, e);
    SignOfSquares(n + zz, n * ((r - p) * (r - p)) - zz * (p * (1.0 - p)), e, f, zz * (n * (r * (1.0 - r)) + zz / 4.0));
  }

  /** The score inequality is a quadratic in p whose roots are center -/+ margin. */
  lemma ScoreIsQuadratic(r: real, n: real, z: real, sqrt: real -> real, p: real)
    requires 0.0 < n && 0.0 < z && 0.0 <= r <= 1.0 && IsSquareRoot(sqrt)
    ensures var c, m := Center(r, n, z), Margin(r, n, z, sqrt);
            ScoreAccepts(r, n, z, p) <==> c - m <= p <= c + m
  {
    var zz, c, m := z * z, Center(r, n, z), Margin(r, n, z, sqrt);
    var w := n + zz;
    CenterScaled(r, n, z);
    MarginScaled(r, n, z, sqrt);
    var e, f := w * (p - c), w * m;
    assert e == w * p - (n * r + zz / 2.0);
    ScoreIsSquare(r, n, zz, p, e, f);
    SignOfProduct(w, p - c - m);
    SignOfProduct(w, c - m - p);
    assert w * (p - c - m) == e - f && w * (c - m - p) == -e - f;
  }

  /** The interval is exactly the score-test region, so neither clamp ever
      changes an end point, and both ends belong to the region. */
  lemma WilsonIsScoreRegion(events: nat, samples: nat, z: real, sqrt: real -> real, p: real)
    requires events <= samples && 1 <= samples && 0.0 < z && IsSquareRoot(sqrt)
    ensures Contains(WilsonInterval(events, samples, z, sqrt), p) <==> Unrejected(events, samples, z, p)
  {
    var r, n := Rate(events, samples), samples as real;
    var c, m := Center(r, n, z), Margin(r, n, z, sqrt);
    ClampsAreIdle(events, samples, z, sqrt);
    ScoreIsQuadratic(r, n, z, sqrt, p);
  }

  lemma ClampsAreIdle(events: nat, samples: nat, z: real, sqrt: real -> real)
    requires events <= samples && 1 <= samples && 0.0 < z && IsSquareRoot(sqrt)
    ensures var r, n := Rate(events, samples), samples as real;
            var c, m := Center(r, n, z), Margin(r, n, z, sqrt);
            && WilsonInterval(events, samples, z, sqrt) == Interval(c - m, c + m)
            && 0.0 <= c - m <= r <= c + m <= 1.0
            && c - m < c + m
  {
    var r, n := Rate(events, samples), samples as real;
    var c, m := Center(r, n, z), Margin(r, n, z, sqrt);
    MarginScaled(r, n, z, sqrt);
    ScoreIsQuadratic(r, n, z, sqrt, c - m);
    ScoreIsQuadratic(r, n, z, sqrt, c + m);
    ScoreIsQuadratic(r, n, z, sqrt, r);
    OwnRateAccepts(r, n, z);
    OnlyRates(r, n, z, c - m);
    OnlyRates(r, n, z, c + m);
  }

  lemma OwnRateAccepts(r: real, n: real, z: real)
    requires 0.0 <= r <= 1.0
    ensures ScoreAccepts(r, n, z, r)
  {
    ProductNonNegative(r, 1.0 - r);
    var zz := z * z;
    assert 0.0 <= zz;
    ProductNonNegative(zz, r * (1.0 - r));
  }

  lemma OnlyRates(r: real, n: real, z: real, p: real)
    requires 0.0 < n && 0.0 < z
    requires ScoreAccepts(r, n, z, p)
    ensures 0.0 <= p <= 1.0
  {
    var zz := z * z;
    SquarePositive(z, zz);
    var d := (r - p) * (r - p);
    assert 0.0 <= d;
    ProductNonNegative(n, d);
    SignOfProduct(zz, -(p * (1.0 - p)));
    assert zz * -(p * (1.0 - p)) == -(zz * (p * (1.0 - p)));
    var e := p * (1.0 - p);
    assert 0.0 <= e;
    if p < 0.0 {
      ProductPositive(-p, 1.0 - p);
    } else if 1.0 < p {
      ProductPositive(p, p - 1.0);
    }
  }

  /** Counting more events moves both ends up (never down). */
  lemma BoundsGrowWithEvents(events: nat, more: nat, samples: nat, z: real, sqrt: real -> real)
    requires events <= more <= samples && 1 <= samples && 0.0 < z && IsSquareRoot(sqrt)
    ensures WilsonInterval(events, samples, z, sqrt).lo <= WilsonInterval(more, samples, z, sqrt).lo
    ensures WilsonInterval(events, samples, z, sqrt).hi <= WilsonInterval(more, samples, z, sqrt).hi
  {
    var n := samples as real;
    var r, r' := Rate(events, samples), Rate(more, samples);
    QuotientMonotone(events as real, more as real, n);
    var a, b := WilsonInterval(events, samples, z, sqrt), WilsonInterval(more, samples, z, sqrt);
    ClampsAreIdle(events, samples, z, sqrt);
    ClampsAreIdle(more, samples, z, sqrt);
    WilsonIsScoreRegion(events, samples, z, sqrt, a.hi);
    WilsonIsScoreRegion(more, samples, z, sqrt, b.lo);
    if r' < a.hi {
      CloserRateAccepts(r, r', n, z, a.hi);
      WilsonIsScoreRegion(more, samples, z, sqrt, a.hi);
    }
    if b.lo < r {
      CloserRateAccepts(r', r, n, z, b.lo);
      WilsonIsScoreRegion(events, samples, z, sqrt, b.lo);
    }
  }

  /** Moving the observed rate towards an accepted rate keeps it accepted. */
  lemma CloserRateAccepts(r: real, r': real, n: real, z: real, p: real)
    requires 0.0 < n && ScoreAccepts(r, n, z, p)
    requires r <= r' <= p || p <= r' <= r
    ensures ScoreAccepts(r', n, z, p)
  {
    var far, near := (r - p) * (r - p), (r' - p) * (r' - p);
    if r <= r' <= p {
      SquareMonotone(p - r', p - r);
    } else {
      SquareMonotone(r' - p, r - p);
    }
    assert near <= far;
    ProductMonotone(near, far, n);
  }

  /** A larger critical value only widens the interval. */
  lemma IntervalsNestInZ(events: nat, samples: nat, z: real, z': real, sqrt: real -> real)
    requires events <= samples && 1 <= samples && 0.0 < z <= z' && IsSquareRoot(sqrt)
    ensures WilsonInterval(events, samples, z', sqrt).lo <= WilsonInterval(events, samples, z, sqrt).lo
    ensures WilsonInterval(events, samples, z, sqrt).hi <= WilsonInterval(events, samples, z', sqrt).hi
  {
    var a := WilsonInterval(events, samples, z, sqrt);
    ClampsAreIdle(events, samples, z, sqrt);
    LargerZContains(events, samples, z, z', sqrt, a.lo);
    LargerZContains(events, samples, z, z', sqrt, a.hi);
  }

  lemma LargerZContains(events: nat, samples: nat, z: real, z': real, sqrt: real -> real, p: real)
    requires events <= samples && 1 <= samples && 0.0 < z <= z' && IsSquareRoot(sqrt)
    requires Contains(WilsonInterval(events, samples, z, sqrt), p)
    ensures Contains(WilsonInterval(events, samples, z', sqrt), p)
  {
    WilsonIsScoreRegion(events, samples, z, sqrt, p);
    WilsonIsScoreRegion(events, samples, z', sqrt, p);
    LargerZAccepts(Rate(events, samples), samples as real, z, z', p);
  }

  lemma LargerZAccepts(r: real, n: real, z: real, z': real, p: real)
    requires 0.0 < z <= z' && 0.0 <= p <= 1.0 && ScoreAccepts(r, n, z, p)
    ensures ScoreAccepts(r, n, z', p)
  {
    ProductMonotone(z, z', z);
    ProductMonotone(z, z', z');
    ProductNonNegative(p, 1.0 - p);
    ProductMonotone(z * z, z' * z', p * (1.0 - p));
  }

  /** Counting the non-events instead reflects the interval in one half. */
  lemma ComplementMirrors(events: nat, samples: nat, z: real, sqrt: real -> real)
    requires events <= samples && 1 <= samples && 0.0 < z && IsSquareRoot(sqrt)
    ensures var a, b := WilsonInterval(events, samples, z, sqrt), WilsonInterval(samples - events, samples, z, sqrt);
            b == Interval(1.0 - a.hi, 1.0 - a.lo)
  {
    var a, b := WilsonInterval(events, samples, z, sqrt), WilsonInterval(samples - events, samples, z, sqrt);
    ClampsAreIdle(events, samples, z, sqrt);
    ClampsAreIdle(samples - events, samples, z, sqrt);
    MirrorPoint(events, samples, z, sqrt, a.lo);
    MirrorPoint(events, samples, z, sqrt, a.hi);
    MirrorPoint(samples - events, samples, z, sqrt, b.lo);
    MirrorPoint(samples - events, samples, z, sqrt, b.hi);
  }

  lemma MirrorPoint(events: nat, samples: nat, z: real, sqrt: real -> real, p: real)
    requires events <= samples && 1 <= samples && 0.0 < z && IsSquareRoot(sqrt)
    requires Contains(WilsonInterval(events, samples, z, sqrt), p)
    ensures Contains(WilsonInterval(samples - events, samples, z, sqrt), 1.0 - p)
  {
    WilsonIsScoreRegion(events, samples, z, sqrt, p);
    WilsonIsScoreRegion(samples - events, samples, z, sqrt, 1.0 - p);
    ComplementRate(events as real, samples as real);
    MirrorAccepts(Rate(events, samples), samples as real, z, p);
  }

  lemma ComplementRate(k: real, n: real)
    requires 0.0 < n
    ensures (n - k) / n == 1.0 - k / n
  {
    QuotientTimes(1.0, n);
  }

  lemma MirrorAccepts(r: real, n: real, z: real, p: real)
    requires ScoreAccepts(r, n, z, p)
    ensures ScoreAccepts(1.0 - r, n, z, 1.0 - p)
  {
    assert (1.0 - r - (1.0 - p)) * (1.0 - r - (1.0 - p)) == (r - p) * (r - p);
    assert (1.0 - p) * (1.0 - (1.0 - p)) == p * (1.0 - p);
  }
}
