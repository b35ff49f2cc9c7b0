module Fisher {
  // Fisher's exact test by enumeration (analyze_supplemental_v3_treatment_control.py), over exact fractions.

  import opened Wrappers
  import opened Binomials

  datatype Table = Table(a: nat, b: nat, c: nat, d: nat)

  datatype Fraction = Fraction(num: nat, den: nat)

  /** Equal values, by cross multiplication. */
  predicate Same(p: Fraction, q: Fraction) { p.num * q.den == q.num * p.den }

  /** Tables with these margins have between `Lower` and `Upper` in the first cell. */
  function Lower(t: Table): nat { if t.a + t.b > t.b + t.d then (t.a + t.b) - (t.b + t.d) else 0 }

  function Upper(t: Table): nat { if t.b < t.c then t.a + t.b else t.a + t.c }

  /** Ways to fill the table with `x` in the first cell, margins fixed. */
  function Weight(t: Table, x: nat): nat {
    if x <= t.a + t.c then Choose(t.a + t.b, x) * Choose(t.c + t.d, t.a + t.c - x) else 0
  }

  function Total(t: Table): nat { Choose(t.a + t.b + t.c + t.d, t.a + t.c) }

  const UNIT := 1_000_000_000_000

  /** No likelier than the observed table, up to a relative tolerance of one part in `UNIT`. */
  predicate AsExtreme(t: Table, x: nat) { Weight(t, x) * UNIT <= Weight(t, t.a) * (UNIT + 1) }

  function Kept(t: Table, x: nat): nat { if AsExtreme(t, x) then Weight(t, x) else 0 }

  function Sum(t: Table, lo: nat, hi: nat): nat
    requires lo <= hi
  {
    if lo == hi then 0 else Sum(t, lo, hi - 1) + Weight(t, hi - 1)
  }

  function KeptSum(t: Table, lo: nat, hi: nat): nat
    requires lo <= hi
  {
    if lo == hi then 0 else KeptSum(t, lo, hi - 1) + Kept(t, hi - 1)
  }

  lemma MarginsOrdered(t: Table)
    ensures Lower(t) <= t.a <= Upper(t) && Upper(t) <= t.a + t.c
  {}

  function PValue(t: Table): Fraction
  {
    MarginsOrdered(t);
    Fraction(KeptSum(t, Lower(t), Upper(t) + 1), Total(t))
  }

  /** Undefined when a cross product vanishes in the denominator. */
  function OddsRatio(t: Table): Option<Fraction> {
    if t.b * t.c == 0 then None else Some(Fraction(t.a * t.d, t.b * t.c))
  }

  // ---- The probabilities sum to one ----

  lemma {:induction false} SumIsMixed(t: Table, lo: nat, hi: nat)
    requires lo <= hi <= t.a + t.c + 1
    requires forall x :: 0 <= x < lo ==> Weight(t, x) == 0
    ensures Sum(t, lo, hi) == Mixed(t.a + t.b, t.c + t.d, t.a + t.c, hi)
    decreases hi
  {
    if hi == lo {
      if lo > 0 {
        SumIsMixed(t, lo - 1, hi - 1);
        assert Weight(t, hi - 1) == 0;
      }
    } else {
      SumIsMixed(t, lo, hi - 1);
    }
  }

  lemma {:induction false} MixedStops(t: Table, hi: nat, end: nat)
    requires hi <= end <= t.a + t.c + 1
    requires forall x :: hi <= x < end ==> Weight(t, x) == 0
    ensures Mixed(t.a + t.b, t.c + t.d, t.a + t.c, hi) == Mixed(t.a + t.b, t.c + t.d, t.a + t.c, end)
  {
    if hi < end {
      MixedStops(t, hi, end - 1);
      assert Weight(t, end - 1) == 0;
    }
  }

  lemma OutsideIsImpossible(t: Table, x: nat)
    requires x < Lower(t) || Upper(t) < x
    ensures Weight(t, x) == 0
  {
    if x <= t.a + t.c {
      if x < Lower(t) {
        ChooseTooMany(t.c + t.d, t.a + t.c - x);
      } else {
        ChooseTooMany(t.a + t.b, x);
      }
    }
  }

  /** Over all tables with the observed margins the enumerated probabilities sum to exactly one. */
  lemma ProbabilitiesSumToOne(t: Table)
    ensures Lower(t) <= Upper(t) + 1 && Sum(t, Lower(t), Upper(t) + 1) == Total(t) > 0
  {
    hide Weight;
    MarginsOrdered(t);
    forall x: nat | x < Lower(t) || Upper(t) < x ensures Weight(t, x) == 0 { OutsideIsImpossible(t, x); }
    SumIsMixed(t, Lower(t), Upper(t) + 1);
    MixedStops(t, Upper(t) + 1, t.a + t.c + 1);
    Vandermonde(t.a + t.b, t.c + t.d, t.a + t.c);
    assert t.a + t.b + (t.c + t.d) == t.a + t.b + t.c + t.d;
    ChooseIsPositive(t.a + t.b + t.c + t.d, t.a + t.c);
  }

  lemma {:induction false} KeptIsPart(t: Table, lo: nat, hi: nat)
    requires lo <= hi
    ensures KeptSum(t, lo, hi) <= Sum(t, lo, hi)
    ensures lo <= t.a < hi ==> Weight(t, t.a) <= KeptSum(t, lo, hi)
  {
    hide Weight;
    if lo < hi { KeptIsPart(t, lo, hi - 1); }
  }

  /** The p-value is at least the probability of the observed table, positive, and at most one. */
  lemma PValueIsAProbability(t: Table)
    ensures var p := PValue(t);
      && 0 < Weight(t, t.a) <= p.num <= p.den && p.den == Total(t)
  {
    hide KeptSum, Sum;
    MarginsOrdered(t);
    ProbabilitiesSumToOne(t);
    KeptIsPart(t, Lower(t), Upper(t) + 1);
    ChooseIsPositive(t.a + t.b, t.a);
    ChooseIsPositive(t.c + t.d, t.c);
  }

  lemma {:induction false} KeptIsAll(t: Table, lo: nat, hi: nat)
    requires lo <= hi && forall x :: lo <= x < hi ==> AsExtreme(t, x)
    ensures KeptSum(t, lo, hi) == Sum(t, lo, hi)
  {
    hide Weight, AsExtreme;
    if lo < hi {
      KeptIsAll(t, lo, hi - 1);
      assert AsExtreme(t, hi - 1);
    }
  }

  lemma {:induction false} KeptIsLess(t: Table, lo: nat, hi: nat, x: nat)
    requires lo <= x < hi && !AsExtreme(t, x)
    ensures KeptSum(t, lo, hi) < Sum(t, lo, hi)
  {
    if x < hi - 1 {
      KeptIsLess(t, lo, hi - 1, x);
    } else {
      KeptIsPart(t, lo, hi - 1);
    }
  }

  /** The p-value is one exactly when no table with these margins is likelier, up to the tolerance. */
  lemma PValueIsOneIff(t: Table)
    ensures PValue(t).num == PValue(t).den <==> forall x :: Lower(t) <= x <= Upper(t) ==>
      Weight(t, x) * 1_000_000_000_000 <= Weight(t, t.a) * 1_000_000_000_001
  {
    hide Weight, KeptSum, Sum;
    MarginsOrdered(t);
    ProbabilitiesSumToOne(t);
    assert forall x: nat :: AsExtreme(t, x) <==> Weight(t, x) * 1_000_000_000_000 <= Weight(t, t.a) * 1_000_000_000_001;
    hide AsExtreme;
    if x :| Lower(t) <= x <= Upper(t) && !AsExtreme(t, x) {
      KeptIsLess(t, Lower(t), Upper(t) + 1, x);
    } else {
      KeptIsAll(t, Lower(t), Upper(t) + 1);
    }
  }

  lemma {:induction false} KeptHolds(t: Table, lo: nat, hi: nat, x: nat)
    requires lo <= x < hi
    ensures Kept(t, x) <= KeptSum(t, lo, hi)
    ensures x != t.a && lo <= t.a < hi ==> Weight(t, t.a) + Kept(t, x) <= KeptSum(t, lo, hi)
    ensures KeptSum(t, lo, hi) + (Weight(t, x) - Kept(t, x)) <= Sum(t, lo, hi)
  {
    hide Weight;
    KeptIsPart(t, lo, hi - 1);
    if x < hi - 1 { KeptHolds(t, lo, hi - 1, x); }
  }

  /** Which tail is summed: a table counts exactly when it is no likelier than the observed one, up to the tolerance. */
  lemma LikelierTablesAreLeftOut(t: Table, x: nat)
    requires Lower(t) <= x <= Upper(t) && x != t.a
    ensures Weight(t, x) * 1_000_000_000_000 <= Weight(t, t.a) * 1_000_000_000_001 ==>
      Weight(t, t.a) + Weight(t, x) <= PValue(t).num
    ensures Weight(t, x) * 1_000_000_000_000 > Weight(t, t.a) * 1_000_000_000_001 ==>
      PValue(t).num + Weight(t, x) <= PValue(t).den
  {
    hide Weight, KeptSum, Sum;
    MarginsOrdered(t);
    ProbabilitiesSumToOne(t);
    KeptHolds(t, Lower(t), Upper(t) + 1, x);
  }

  predicate SameMargins(t: Table, u: Table) {
    t.a + t.b == u.a + u.b && t.c + t.d == u.c + u.d && t.a + t.c == u.a + u.c
  }

  lemma {:induction false} KeptGrows(t: Table, u: Table, lo: nat, hi: nat)
    requires lo <= hi && SameMargins(t, u) && Weight(t, t.a) <= Weight(t, u.a)
    ensures KeptSum(t, lo, hi) <= KeptSum(u, lo, hi)
  {
    hide Choose;
    if lo < hi {
      KeptGrows(t, u, lo, hi - 1);
      assert Weight(t, hi - 1) == Weight(u, hi - 1);
    }
  }

  /** Among tables with the same margins a likelier one has no smaller p-value. */
  lemma PValueIsMonotone(t: Table, u: Table)
    requires SameMargins(t, u) && Weight(t, t.a) <= Weight(t, u.a)
    ensures PValue(t).num <= PValue(u).num && PValue(t).den == PValue(u).den
  {
    hide KeptSum, Choose;
    KeptGrows(t, u, Lower(t), Upper(t) + 1);
    assert Lower(t) == Lower(u) && Upper(t) == Upper(u);
    assert t.a + t.b + t.c + t.d == u.a + u.b + u.c + u.d;
  }

  // ---- Swapping rows or columns ----

  lemma {:induction false} KeptFromFirst(t: Table, lo: nat, hi: nat)
    requires lo < hi
    ensures KeptSum(t, lo, hi) == Kept(t, lo) + KeptSum(t, lo + 1, hi)
  {
    hide Kept;
    if lo + 1 < hi { KeptFromFirst(t, lo, hi - 1); }
  }

  /** `u` mirrors `t`: its first cell counts down from `m` as the one of `t` counts up. */
  ghost predicate Mirrors(t: Table, u: Table, m: nat) {
    && t.a + u.a == m
    && forall x, y :: 0 <= x && 0 <= y && x + y == m ==> Weight(t, x) == Weight(u, y)
  }

  lemma {:induction false} MirroredSum(t: Table, u: Table, m: nat, lo: nat, hi: nat)
    requires Mirrors(t, u, m) && lo <= hi <= m + 1
    ensures KeptSum(t, lo, hi) == KeptSum(u, m + 1 - hi, m + 1 - lo)
    decreases hi - lo
  {
    hide Weight;
    if lo < hi {
      MirroredSum(t, u, m, lo, hi - 1);
      KeptFromFirst(u, m + 1 - hi, m + 1 - lo);
      assert Weight(t, hi - 1) == Weight(u, m + 1 - hi) && Weight(t, t.a) == Weight(u, u.a);
    }
  }

  function SwapRows(t: Table): Table { Table(t.c, t.d, t.a, t.b) }

  function SwapColumns(t: Table): Table { Table(t.b, t.a, t.d, t.c) }

  function Transpose(t: Table): Table { Table(t.a, t.c, t.b, t.d) }

  lemma RowsMirror(t: Table)
    ensures Mirrors(t, SwapRows(t), t.a + t.c)
  {}

  lemma ColumnWeight(t: Table, x: nat, y: nat)
    requires x + y == t.a + t.b
    ensures Weight(t, x) == Weight(SwapColumns(t), y)
  {
    ChooseIsSymmetric(t.a + t.b, x);
    if x <= t.a + t.c && y <= t.b + t.d {
      ChooseIsSymmetric(t.c + t.d, t.a + t.c - x);
      assert t.c + t.d - (t.a + t.c - x) == t.b + t.d - y;
    } else if x <= t.a + t.c {
      ChooseTooMany(t.c + t.d, t.a + t.c - x);
    } else {
      ChooseTooMany(t.c + t.d, t.b + t.d - y);
    }
  }

  lemma ColumnsMirror(t: Table)
    ensures Mirrors(t, SwapColumns(t), t.a + t.b)
  {
    hide Weight;
    forall x: nat, y: nat | x + y == t.a + t.b ensures Weight(t, x) == Weight(SwapColumns(t), y) {
      ColumnWeight(t, x, y);
    }
  }

  /** Swapping the rows leaves the p-value unchanged. */
  lemma RowsAreInterchangeable(t: Table)
    ensures PValue(SwapRows(t)) == PValue(t)
  {
    hide Weight, KeptSum, Mirrors;
    RowsMirror(t);
    MirroredSum(t, SwapRows(t), t.a + t.c, Lower(t), Upper(t) + 1);
    assert t.c + t.d + t.a + t.b == t.a + t.b + t.c + t.d;
  }

  /** Swapping the columns leaves the p-value unchanged. */
  lemma ColumnsAreInterchangeable(t: Table)
    ensures PValue(SwapColumns(t)) == PValue(t)
  {
    hide Weight, KeptSum, Mirrors, Choose;
    ColumnsMirror(t);
    MirroredSum(t, SwapColumns(t), t.a + t.b, Lower(t), Upper(t) + 1);
    var n := t.a + t.b + t.c + t.d;
    assert t.b + t.a + t.d + t.c == n && n - (t.a + t.c) == t.b + t.d;
    ChooseIsSymmetric(n, t.a + t.c);
  }

  // ---- Transposing ----

  lemma OrderedWeight(t: Table, x: nat)
    requires Lower(t) <= x <= Upper(t)
    ensures x <= t.a + t.b && x <= t.a + t.c && t.a <= t.d + x
    ensures Weight(t, x) * ((Factorial(x) * Factorial(t.a + t.b - x)) * (Factorial(t.a + t.c - x) * Factorial(t.d + x - t.a)))
      == Factorial(t.a + t.b) * Factorial(t.c + t.d)
  {
    hide Choose, Factorial;
    ChooseByFactorials(t.a + t.b, x);
    ChooseByFactorials(t.c + t.d, t.a + t.c - x);
    assert t.c + t.d - (t.a + t.c - x) == t.d + x - t.a;
    Products(Choose(t.a + t.b, x), Choose(t.c + t.d, t.a + t.c - x),
      Factorial(x) * Factorial(t.a + t.b - x), Factorial(t.a + t.c - x) * Factorial(t.d + x - t.a));
  }

  lemma Products(p: nat, q: nat, f: nat, g: nat)
    ensures (p * q) * (f * g) == (p * f) * (q * g)
  {}

  lemma ScaledEqual(w: nat, v: nat, ways: nat, rows: nat, columns: nat, d: nat, e: nat, all: nat)
    requires ways > 0 && w * ways == rows && v * ways == columns
    requires d * rows == all && e * columns == all
    ensures w * d == v * e
  {
    assert (w * d) * ways == d * (w * ways) == all;
    assert (v * e) * ways == e * (v * ways) == all;
    Cancel(w * d, v * e, ways);
  }

  lemma Cancel(a: nat, b: nat, k: nat)
    requires k > 0 && a * k == b * k
    ensures a == b
  {}

  lemma PositiveProduct(a: nat, b: nat)
    requires a > 0 && b > 0
    ensures a * b > 0
  {}

  /** Row-first and column-first counting agree on every table's probability. */
  lemma TransposedWeight(t: Table, x: nat)
    requires Lower(t) <= x <= Upper(t)
    ensures Weight(t, x) * Total(Transpose(t)) == Weight(Transpose(t), x) * Total(t)
  {
    hide Choose, Factorial, Weight;
    var u, n := Transpose(t), t.a + t.b + t.c + t.d;
    OrderedWeight(t, x);
    OrderedWeight(u, x);
    var f, g, h, k := Factorial(x), Factorial(t.a + t.b - x), Factorial(t.a + t.c - x), Factorial(t.d + x - t.a);
    var ways := (f * g) * (h * k);
    assert (f * h) * (g * k) == ways by { Products(f, h, g, k); }
    PositiveProduct(f, g);
    PositiveProduct(h, k);
    PositiveProduct(f * g, h * k);
    ChooseByFactorials(n, t.a + t.c);
    ChooseByFactorials(n, t.a + t.b);
    assert t.a + t.c + t.b + t.d == n && n - (t.a + t.b) == t.c + t.d && n - (t.a + t.c) == t.b + t.d;
    ScaledEqual(Weight(t, x), Weight(u, x), ways, Factorial(t.a + t.b) * Factorial(t.c + t.d),
      Factorial(t.a + t.c) * Factorial(t.b + t.d), Total(u), Total(t), Factorial(n));
  }

  lemma ScaledOrder(w: nat, o: nat, v: nat, p: nat, d: nat, e: nat)
    requires d > 0 && e > 0 && w * d == v * e && o * d == p * e
    ensures w * UNIT <= o * (UNIT + 1) <==> v * UNIT <= p * (UNIT + 1)
  {
    if w * UNIT <= o * (UNIT + 1) {
      ScaledOrderOneWay(w, o, v, p, d, e);
    }
    if v * UNIT <= p * (UNIT + 1) {
      ScaledOrderOneWay(v, p, w, o, e, d);
    }
  }

  lemma ScaledOrderOneWay(w: nat, o: nat, v: nat, p: nat, d: nat, e: nat)
    requires e > 0 && w * d == v * e && o * d == p * e && w * UNIT <= o * (UNIT + 1)
    ensures v * UNIT <= p * (UNIT + 1)
  {
    var left, right := v * UNIT, p * (UNIT + 1);
    assert left * e == UNIT * (v * e) == UNIT * (w * d) == (w * UNIT) * d;
    assert right * e == (UNIT + 1) * (p * e) == (UNIT + 1) * (o * d) == (o * (UNIT + 1)) * d;
    assert (w * UNIT) * d <= (o * (UNIT + 1)) * d by { Monotone(w * UNIT, o * (UNIT + 1), d); }
    if left > right { Monotone(right + 1, left, e); }
  }

  lemma Monotone(a: nat, b: nat, k: nat)
    requires a <= b
    ensures a * k <= b * k
  {}

  lemma {:induction false} TransposedSum(t: Table, lo: nat, hi: nat)
    requires Lower(t) <= lo <= hi <= Upper(t) + 1
    ensures KeptSum(t, lo, hi) * Total(Transpose(t)) == KeptSum(Transpose(t), lo, hi) * Total(t)
  {
    hide Weight, Total;
    var u := Transpose(t);
    if lo < hi {
      TransposedSum(t, lo, hi - 1);
      MarginsOrdered(t);
      TransposedWeight(t, hi - 1);
      TransposedWeight(t, t.a);
      ProbabilitiesSumToOne(t);
      ProbabilitiesSumToOne(u);
      ScaledOrder(Weight(t, hi - 1), Weight(t, t.a), Weight(u, hi - 1), Weight(u, t.a), Total(u), Total(t));
      Distribute(KeptSum(t, lo, hi - 1), Kept(t, hi - 1), Total(u));
      Distribute(KeptSum(u, lo, hi - 1), Kept(u, hi - 1), Total(t));
    }
  }

  /** Exchanging rows with columns leaves the p-value unchanged. */
  lemma RowsAndColumnsAreInterchangeable(t: Table)
    ensures Same(PValue(Transpose(t)), PValue(t))
  {
    hide KeptSum, Total;
    MarginsOrdered(t);
    TransposedSum(t, Lower(t), Upper(t) + 1);
  }

  /** The odds ratio survives transposition, and swapping rows or columns inverts it. */
  lemma OddsRatioOfSwaps(t: Table)
    ensures OddsRatio(Transpose(t)) == OddsRatio(t)
    ensures OddsRatio(SwapRows(t)) == OddsRatio(SwapColumns(t))
    ensures OddsRatio(SwapRows(t)).Some? <==> t.a > 0 && t.d > 0
    ensures OddsRatio(t).Some? && OddsRatio(SwapRows(t)).Some? ==>
      OddsRatio(SwapRows(t)).value == Fraction(OddsRatio(t).value.den, OddsRatio(t).value.num)
  {
    var Table(a, b, c, d) := t;
    assert a * d == d * a && b * c == c * b && a * b == b * a;
    if a > 0 && d > 0 { PositiveProduct(a, d); }
  }
}
