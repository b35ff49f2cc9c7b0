// Binomial coefficients and the identities behind the exact test.
//
// Everything here is about natural numbers; the test itself is in module `Fisher`.
// The Vandermonde identity is proved by Pascal's rule on partial sums.
module Binomials {

  /** The number of ways to choose `k` of `n`, zero when there are too few. */
  function Choose(n: nat, k: nat): nat {
    if k == 0 then 1
    else if n == 0 then 0
    else Choose(n - 1, k - 1) + Choose(n - 1, k)
  }

  function Factorial(n: nat): (f: nat)
    ensures f > 0
  {
    if n == 0 then 1 else n * Factorial(n - 1)
  }

  lemma {:induction false} ChooseTooMany(n: nat, k: nat)
    requires k > n
    ensures Choose(n, k) == 0
  {
    if n > 0 {
      ChooseTooMany(n - 1, k - 1);
      ChooseTooMany(n - 1, k);
    }
  }

  lemma {:induction false} ChooseAll(n: nat)
    ensures Choose(n, n) == 1
  {
    if n > 0 {
      ChooseAll(n - 1);
      ChooseTooMany(n - 1, n);
    }
  }

  lemma {:induction false} ChooseIsSymmetric(n: nat, k: nat)
    requires k <= n
    ensures Choose(n, k) == Choose(n, n - k)
  {
    if k == 0 || k == n {
      ChooseAll(n);
    } else {
      ChooseIsSymmetric(n - 1, k - 1);
      ChooseIsSymmetric(n - 1, k);
    }
  }

  lemma {:induction false} ChooseIsPositive(n: nat, k: nat)
    requires k <= n
    ensures Choose(n, k) > 0
  {
    if k > 0 { ChooseIsPositive(n - 1, k - 1); }
  }

  /** Choosing, then ordering both parts, orders everything. */
  lemma {:induction false} ChooseByFactorials(n: nat, k: nat)
    requires k <= n
    ensures Choose(n, k) * (Factorial(k) * Factorial(n - k)) == Factorial(n)
  {
    if k == 0 {
    } else if k == n {
      ChooseAll(n);
    } else {
      ChooseByFactorials(n - 1, k - 1);
      ChooseByFactorials(n - 1, k);
      PascalStep(n, k, Choose(n - 1, k - 1), Choose(n - 1, k), Factorial(k - 1), Factorial(n - k - 1), Factorial(n - 1));
    }
  }

  lemma PascalStep(n: nat, k: nat, p: nat, q: nat, f: nat, g: nat, all: nat)
    requires 0 < k < n
    requires p * (f * ((n - k) * g)) == all && q * ((k * f) * g) == all
    ensures (p + q) * ((k * f) * ((n - k) * g)) == n * all
  {
    calc {
      (p + q) * ((k * f) * ((n - k) * g));
      k * (p * (f * ((n - k) * g))) + (n - k) * (q * ((k * f) * g));
      k * all + (n - k) * all;
      n * all;
    }
  }

  // ---- The Vandermonde identity ----

  /** The terms of `Choose(r + s, m)` that take fewer than `k` from the first `r`. */
  function Mixed(r: nat, s: nat, m: nat, k: nat): nat
    requires k <= m + 1
  {
    if k == 0 then 0 else Mixed(r, s, m, k - 1) + Choose(r, k - 1) * Choose(s, m - (k - 1))
  }

  lemma {:induction false} MixedOfNone(s: nat, m: nat, k: nat)
    requires 1 <= k <= m + 1
    ensures Mixed(0, s, m, k) == Choose(s, m)
  {
    if k > 1 { MixedOfNone(s, m, k - 1); }
  }

  lemma {:induction false} MixedOfNothing(r: nat, s: nat)
    ensures Mixed(r, s, 0, 1) == 1
  {
    assert Mixed(r, s, 0, 0) == 0;
  }

  lemma {:induction false} MixedByPascal(r: nat, s: nat, m: nat, k: nat)
    requires 0 < r && 0 < m && k <= m
    ensures Mixed(r, s, m, k + 1) == Mixed(r - 1, s, m - 1, k) + Mixed(r - 1, s, m, k + 1)
  {
    if k == 0 {
      assert Mixed(r, s, m, 0) == 0 && Mixed(r - 1, s, m, 0) == 0;
    } else {
      MixedByPascal(r, s, m, k - 1);
      Distribute(Choose(r - 1, k - 1), Choose(r - 1, k), Choose(s, m - k));
      assert m - k == (m - 1) - (k - 1);
    }
  }

  lemma Distribute(a: nat, b: nat, c: nat)
    ensures (a + b) * c == a * c + b * c
  {}

  /** Choosing from two heaps is choosing from their union. */
  lemma {:induction false} Vandermonde(r: nat, s: nat, m: nat)
    ensures Mixed(r, s, m, m + 1) == Choose(r + s, m)
  {
    if r == 0 {
      MixedOfNone(s, m, m + 1);
    } else if m == 0 {
      MixedOfNothing(r, s);
    } else {
      MixedByPascal(r, s, m, m);
      Vandermonde(r - 1, s, m - 1);
      Vandermonde(r - 1, s, m);
    }
  }
}
