// The Wilson score interval (analyze_supplemental_v3_treatment_control.py), over the reals.
//
// The square root the source takes is a parameter, given by what its square is.
module WilsonScore {

  const Z := 1.959963984540054

  /** The interval around the centre, for a squared critical value `zz` and a spread `h` before scaling. */
  function Interval(zz: real, p: real, n: real, h: real): (real, real)
    requires n > 0.0 && zz > 0.0
  {
    Quotient(zz, n);
    var denominator := 1.0 + zz / n;
    var centre := (p + zz / (2.0 * n)) / denominator;
    var half := h / denominator;
    (centre - half, centre + half)
  }

  /** The interval of the source; `h` is its critical value times the square root it takes. */
  function Wilson(successes: nat, trials: nat, h: real): (real, real)
    requires trials > 0
  {
    Interval(Z * Z, successes as real / trials as real, trials as real, h)
  }

  ghost predicate IsSpread(h: real, zz: real, p: real, n: real)
    requires n > 0.0
  {
    h >= 0.0 && h * h == zz * (p * (1.0 - p) / n + zz / (4.0 * n * n))
  }

  /**
   * The score test does not reject the proportion `x`: its squared distance from `p` is at most
   * `zz` times the variance at `x`.
   */
  predicate Accepts(zz: real, p: real, n: real, x: real) {
    n * ((p - x) * (p - x)) <= zz * (x * (1.0 - x))
  }

  // ---- Arithmetic ----

  lemma PositiveProduct(a: real, b: real)
    requires a > 0.0 && b > 0.0
    ensures a * b > 0.0
  {}

  lemma NonNegativeProduct(a: real, b: real)
    requires a >= 0.0 && b >= 0.0
    ensures a * b >= 0.0
  {}

  lemma CancelReal(a: real, b: real, c: real)
    requires c > 0.0 && a * c == b * c
    ensures a == b
  {}

  lemma Quotient(a: real, n: real)
    requires n > 0.0 && a > 0.0
    ensures a / n > 0.0 && (a / n) * n == a
  {
    var q := a / n;
    assert q * n == a;
    if q <= 0.0 { NonNegativeProduct(-q, n); }
  }

  lemma Undone(d: real, y: real)
    requires d > 0.0
    ensures d * (y / d) == y
  {}

  lemma Signs(d: real, y: real)
    requires d > 0.0
    ensures d * y <= 0.0 <==> y <= 0.0
  {}

  lemma Distributes(d: real, a: real, b: real)
    ensures d * (a - b) == d * a - d * b && d * (a + b) == d * a + d * b
  {}

  lemma Scales(n: real, k: real, zz: real, gap: real, slack: real)
    requires k * n == zz
    ensures n * (gap - k * slack) == n * gap - zz * slack
  {
    assert n * (k * slack) == (k * n) * slack;
  }

  lemma SquareBound(y: real, h: real)
    requires h >= 0.0
    ensures -h <= y <= h <==> y * y <= h * h
  {
    assert h * h - y * y == (h - y) * (h + y);
    if y > h {
      PositiveProduct(y - h, h + y);
      assert (h - y) * (h + y) == -((y - h) * (h + y));
    } else if y < -h {
      PositiveProduct(h - y, -h - y);
      assert (h - y) * (h + y) == -((h - y) * (-h - y));
    } else if h != y && h != -y {
      PositiveProduct(h - y, h + y);
    }
  }

  lemma Between(d: real, lo: real, hi: real, m: real, h: real, x: real)
    requires d > 0.0 && d * lo == m - h && d * hi == m + h
    ensures lo <= x <= hi <==> -h <= d * x - m <= h
  {
    assert lo <= x <==> d * lo <= d * x;
    assert x <= hi <==> d * x <= d * hi;
  }

  // ---- The divisions of the source, multiplied out ----

  lemma Halved(zz: real, k: real, n: real)
    requires n > 0.0 && k * n == zz
    ensures zz / (2.0 * n) == k / 2.0
  {
    CancelReal(zz / (2.0 * n), k / 2.0, 2.0 * n);
  }

  lemma Quartered(zz: real, k: real, n: real)
    requires n > 0.0 && k * n == zz
    ensures zz * (zz / (4.0 * n * n)) == k * k / 4.0
  {
    var quarter := zz / (4.0 * n * n);
    PositiveProduct(4.0 * n, n);
    assert quarter * (4.0 * n * n) == zz;
    assert (quarter * (4.0 * n)) * n == quarter * (4.0 * n * n);
    CancelReal(quarter * (4.0 * n), k, n);
    assert zz * quarter == k * (quarter * (4.0 * n)) / 4.0;
  }

  lemma Shared(zz: real, k: real, n: real, v: real)
    requires n > 0.0 && k * n == zz
    ensures zz * (v / n) == k * v
  {
    assert (v / n) * n == v;
    assert zz * (v / n) == k * ((v / n) * n);
  }

  lemma SpreadSquared(h: real, zz: real, k: real, p: real, n: real)
    requires n > 0.0 && k * n == zz && IsSpread(h, zz, p, n)
    ensures h * h == k * (p * (1.0 - p)) + k * k / 4.0
  {
    var v := p * (1.0 - p);
    Shared(zz, k, n, v);
    Quartered(zz, k, n);
    Distributes(zz, v / n, zz / (4.0 * n * n));
  }

  lemma IntervalParts(zz: real, p: real, n: real, h: real) returns (k: real, centre: real, half: real)
    requires n > 0.0 && zz > 0.0
    ensures k > 0.0 && k * n == zz
    ensures (1.0 + k) * centre == p + k / 2.0 && (1.0 + k) * half == h
    ensures Interval(zz, p, n, h) == (centre - half, centre + half)
  {
    k := zz / n;
    Quotient(zz, n);
    Halved(zz, k, n);
    centre, half := (p + k / 2.0) / (1.0 + k), h / (1.0 + k);
    Undone(1.0 + k, p + k / 2.0);
    Undone(1.0 + k, h);
  }

  // ---- What the interval holds ----

  function Gap(p: real, k: real, x: real): real { (p - x) * (p - x) - k * (x * (1.0 - x)) }

  function Excess(d: real, m: real, h: real, x: real): real { (d * x - m) * (d * x - m) - h * h }

  /** The ends of the interval solve the quadratic of the score test. */
  lemma EndsAreRoots(p: real, k: real, m: real, h: real, x: real)
    requires m == p + k / 2.0 && h * h == k * (p * (1.0 - p)) + k * k / 4.0
    ensures Excess(1.0 + k, m, h, x) == (1.0 + k) * Gap(p, k, x)
  {
    var d := 1.0 + k;
    assert m * m == p * p + k * p + k * k / 4.0;
    assert (d * x - m) * (d * x - m) == (d * d) * (x * x) - 2.0 * (d * x) * m + m * m;
    assert m * m - h * h == d * (p * p);
    assert (d * x) * m == d * (x * p) + d * x * k / 2.0;
    assert (p - x) * (p - x) - k * (x * (1.0 - x)) == p * p - 2.0 * (x * p) + d * (x * x) - k * x;
    assert d * (p * p - 2.0 * (x * p) + d * (x * x) - k * x)
      == d * (p * p) - 2.0 * (d * (x * p)) + (d * d) * (x * x) - d * (k * x);
  }

  lemma WithinIffSmall(d: real, m: real, h: real, centre: real, half: real, x: real)
    requires d > 0.0 && h >= 0.0 && d * centre == m && d * half == h
    ensures centre - half <= x <= centre + half <==> Excess(d, m, h, x) <= 0.0
  {
    Distributes(d, centre, half);
    Between(d, centre - half, centre + half, m, h, x);
    SquareBound(d * x - m, h);
  }

  /** The interval holds exactly the proportions the score test does not reject. */
  lemma IntervalInvertsScoreTest(zz: real, p: real, n: real, h: real, x: real)
    requires n > 0.0 && zz > 0.0 && IsSpread(h, zz, p, n)
    ensures var (lo, hi) := Interval(zz, p, n, h);
      lo <= x <= hi <==> Accepts(zz, p, n, x)
  {
    assert h >= 0.0;
    hide Interval, IsSpread, Accepts, Gap;
    var k, centre, half := IntervalParts(zz, p, n, h);
    SpreadSquared(h, zz, k, p, n);
    WithinIffBelow(p, k, h, centre, half, x);
    AcceptsIffBelow(zz, p, n, k, x);
  }

  lemma WithinIffBelow(p: real, k: real, h: real, centre: real, half: real, x: real)
    requires k > 0.0 && h >= 0.0
    requires (1.0 + k) * centre == p + k / 2.0 && (1.0 + k) * half == h
    requires h * h == k * (p * (1.0 - p)) + k * k / 4.0
    ensures centre - half <= x <= centre + half <==> Gap(p, k, x) <= 0.0
  {
    hide Excess, Gap;
    EndsAreRoots(p, k, p + k / 2.0, h, x);
    WithinIffSmall(1.0 + k, p + k / 2.0, h, centre, half, x);
    Signs(1.0 + k, Gap(p, k, x));
  }

  lemma AcceptsIffBelow(zz: real, p: real, n: real, k: real, x: real)
    requires n > 0.0 && k * n == zz
    ensures Accepts(zz, p, n, x) <==> Gap(p, k, x) <= 0.0
  {
    Scales(n, k, zz, (p - x) * (p - x), x * (1.0 - x));
    Signs(n, (p - x) * (p - x) - k * (x * (1.0 - x)));
  }

  lemma ProportionIsAccepted(zz: real, p: real, n: real)
    requires n > 0.0 && 0.0 <= p <= 1.0 && zz > 0.0
    ensures Accepts(zz, p, n, p)
  {
    NonNegativeProduct(p, 1.0 - p);
    NonNegativeProduct(zz, p * (1.0 - p));
    assert n * ((p - p) * (p - p)) == 0.0;
  }

  lemma AcceptedIsProportion(zz: real, p: real, n: real, x: real)
    requires n > 0.0 && zz > 0.0 && Accepts(zz, p, n, x)
    ensures 0.0 <= x <= 1.0
  {
    SquareBound(p - x, 0.0);
    NonNegativeProduct(n, (p - x) * (p - x));
    NegativeOutside(zz, x);
  }

  lemma NegativeOutside(zz: real, x: real)
    requires zz > 0.0 && zz * (x * (1.0 - x)) >= 0.0
    ensures 0.0 <= x <= 1.0
  {
    var v := x * (1.0 - x);
    if x < 0.0 {
      PositiveProduct(-x, 1.0 - x);
      PositiveProduct(zz, -v);
    } else if x > 1.0 {
      PositiveProduct(x, x - 1.0);
      PositiveProduct(zz, -v);
    }
  }

  /** The interval holds `p` and lies within zero and one. */
  ghost predicate Encloses(ends: (real, real), p: real) { 0.0 <= ends.0 <= p <= ends.1 <= 1.0 }

  /** The interval contains the observed proportion and stays within zero and one. */
  lemma IntervalIsInRange(zz: real, p: real, n: real, h: real)
    requires n > 0.0 && zz > 0.0 && 0.0 <= p <= 1.0 && IsSpread(h, zz, p, n)
    ensures Encloses(Interval(zz, p, n, h), p)
  {
    hide Interval, IsSpread, Accepts;
    ProportionIsAccepted(zz, p, n);
    var (lo, hi) := Interval(zz, p, n, h);
    IntervalInvertsScoreTest(zz, p, n, h, p);
    IntervalInvertsScoreTest(zz, p, n, h, lo);
    IntervalInvertsScoreTest(zz, p, n, h, hi);
    AcceptedIsProportion(zz, p, n, lo);
    AcceptedIsProportion(zz, p, n, hi);
  }

  lemma SquaredCriticalValue()
    ensures Z * Z > 0.0
  {}

  lemma Proportion(successes: real, trials: real)
    requires trials > 0.0 && 0.0 <= successes <= trials
    ensures 0.0 <= successes / trials <= 1.0
  {
    assert (successes / trials) * trials == successes;
  }

  /** The interval the source reports encloses the observed proportion. */
  lemma WilsonEncloses(successes: nat, trials: nat, h: real)
    requires trials > 0 && successes <= trials
    requires IsSpread(h, Z * Z, successes as real / trials as real, trials as real)
    ensures Encloses(Wilson(successes, trials, h), successes as real / trials as real)
  {
    hide Interval, IsSpread;
    SquaredCriticalValue();
    Proportion(successes as real, trials as real);
    IntervalIsInRange(Z * Z, successes as real / trials as real, trials as real, h);
  }
}
