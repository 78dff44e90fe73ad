/** The running mean and spread of hft_test/include/hft_common.h, over exact reals.

    After any samples the state is the mean and the sum of squared distances from it; on
    samples that are words, that sum is what `var_calc` divides.
    */
module RollingStats {
  import Basics
  import Variance

  // ---------- Sums of the samples ----------

  function Sum(xs: seq<real>): real
  {
    if xs == [] then 0.0 else Sum(xs[..|xs|-1]) + xs[|xs|-1]
  }

  function SumSquares(xs: seq<real>): real
  {
    if xs == [] then 0.0 else SumSquares(xs[..|xs|-1]) + xs[|xs|-1] * xs[|xs|-1]
  }

  /** The sum of squared distances from `c`. */
  function Spread(xs: seq<real>, c: real): real
  {
    if xs == [] then 0.0 else Spread(xs[..|xs|-1], c) + (xs[|xs|-1] - c) * (xs[|xs|-1] - c)
  }

  // ---------- One update ----------

  predicate IsMean(mean: real, s: real, k: real)
  {
    mean * k == s
  }

  /** The spread around `c` of `k` samples of sum `s` and squares `q`. */
  predicate Expands(spread: real, q: real, s: real, k: real, c: real)
  {
    spread == q - 2.0 * c * s + k * (c * c)
  }

  /** k * m2 == k * sum(x^2) - (sum x)^2 */
  predicate IsNumerator(m2: real, k: real, q: real, s: real)
  {
    k * m2 == k * q - s * s
  }

  /** The state holds the count, the mean and the spread around the mean of the samples. */
  predicate Tracks(n: nat, mean: real, m2: real, xs: seq<real>)
  {
    && n == |xs|
    && IsMean(mean, Sum(xs), n as real)
    && Expands(m2, SumSquares(xs), Sum(xs), n as real, mean)
    && (n == 0 ==> mean == 0.0)
  }

  /** A spread raised by the product of the distances of `x` from `a` and from `b`. */
  predicate Raised(m2': real, m2: real, x: real, a: real, b: real)
  {
    m2' == m2 + (x - a) * (x - b)
  }

  /** With `k` samples of sum `s` and squares `q`, moving the mean from `a` to `b` by the new
      sample `x` raises the spread by the product of the two distances. */
  lemma MeanMoves(k: real, s: real, q: real, a: real, b: real, x: real, m2: real, m2': real)
    requires IsMean(a, s, k) && IsMean(b, s + x, k + 1.0) && Expands(m2, q, s, k, a)
    requires Raised(m2', m2, x, a, b)
    ensures Expands(m2', q + x * x, s + x, k + 1.0, b)
  {
    calc {
      (x - a) * (x - b);
      x * x - x * b - a * x + a * b;
    }
    assert (k + 1.0) * (b * b) == (s + x) * b;
    assert k * (a * a) == s * a;
    assert s * a + x * a == (s + x) * a == b * a * k + b * a;
    assert s * b == a * b * k;
  }

  lemma NextMean(k: real, s: real, mean: real, x: real, next: real)
    requires k >= 0.0 && IsMean(mean, s, k) && next == mean + (x - mean) / (k + 1.0)
    ensures IsMean(next, s + x, k + 1.0)
  {
    assert (x - mean) / (k + 1.0) * (k + 1.0) == x - mean;
  }

  lemma Grow(xs: seq<real>, x: real)
    ensures Sum(xs + [x]) == Sum(xs) + x && SumSquares(xs + [x]) == SumSquares(xs) + x * x
  {
    assert (xs + [x])[..|xs|] == xs;
  }

  lemma WelfordStep(n: nat, mean: real, m2: real, xs: seq<real>, x: real, next: real, m2': real)
    requires Tracks(n, mean, m2, xs)
    requires next == mean + (x - mean) / (n as real + 1.0) && Raised(m2', m2, x, mean, next)
    ensures Tracks(n + 1, next, m2', xs + [x])
  {
    assert (n + 1) as real == n as real + 1.0;
    Grow(xs, x);
    NextMean(n as real, Sum(xs), mean, x, next);
    MeanMoves(n as real, Sum(xs), SumSquares(xs), mean, next, x, m2, m2');
  }

  class RollingStats {
    var n: nat
    var mean: real
    var m2: real

    constructor ()
      ensures Tracks(n, mean, m2, [])
    {
      n, mean, m2 := 0, 0.0, 0.0;
    }

    method Add(x: real, ghost seen: seq<real>)
      requires Tracks(n, mean, m2, seen)
      modifies this
      ensures Tracks(n, mean, m2, seen + [x])
    {
      n := n + 1;
      var delta := x - mean;
      mean := mean + delta / n as real;
      var delta2 := x - mean;
      m2 := m2 + delta * delta2;
      assert n as real == old(n) as real + 1.0;
      WelfordStep(old(n), old(mean), old(m2), seen, x, mean, m2);
    }

    /** The square of `stddev`. */
    method SampleVariance(ghost seen: seq<real>) returns (v: real)
      requires Tracks(n, mean, m2, seen)
      ensures |seen| < 2 ==> v == 0.0
      ensures |seen| >= 2 ==> IsVariance(v, |seen| as real, SumSquares(seen), Sum(seen))
    {
      if n < 2 {
        return 0.0;
      }
      SpreadTimesCount(n, mean, m2, seen);
      v := m2 / (n - 1) as real;
      assert (n - 1) as real == n as real - 1.0;
      ScaleBack(m2, n as real, SumSquares(seen), Sum(seen), v);
    }
  }

  /** The unbiased variance: n * (n - 1) * v == n * sum(x^2) - (sum x)^2 */
  predicate IsVariance(v: real, k: real, q: real, s: real)
  {
    v * (k - 1.0) * k == k * q - s * s
  }

  lemma ScaleBack(m2: real, k: real, q: real, s: real, v: real)
    requires k >= 2.0 && v == m2 / (k - 1.0) && IsNumerator(m2, k, q, s)
    ensures IsVariance(v, k, q, s)
  {
    assert v * (k - 1.0) == m2;
  }

  // ---------- What the state determines ----------

  lemma AddSquare(spread: real, q: real, s: real, k: real, x: real, c: real, spread': real, q': real, s': real,
      k': real)
    requires Expands(spread, q, s, k, c)
    requires Raised(spread', spread, x, c, c) && Raised(q', q, x, 0.0, 0.0) && s' == s + x && k' == k + 1.0
    ensures Expands(spread', q', s', k', c)
  {
  }

  lemma Unfold(xs: seq<real>, x: real, c: real)
    requires xs != [] && x == xs[|xs|-1]
    ensures var front := xs[..|xs|-1];
            && Raised(Spread(xs, c), Spread(front, c), x, c, c)
            && Raised(SumSquares(xs), SumSquares(front), x, 0.0, 0.0)
            && Sum(xs) == Sum(front) + x
  {
  }

  lemma {:induction false} SpreadAround(xs: seq<real>, c: real)
    ensures Expands(Spread(xs, c), SumSquares(xs), Sum(xs), |xs| as real, c)
  {
    if xs != [] {
      var x, front := xs[|xs|-1], xs[..|xs|-1];
      SpreadAround(front, c);
      Unfold(xs, x, c);
      assert |xs| as real == |front| as real + 1.0;
      AddSquare(Spread(front, c), SumSquares(front), Sum(front), |front| as real, x, c,
                Spread(xs, c), SumSquares(xs), Sum(xs), |xs| as real);
    }
  }

  lemma ExpansionIsUnique(spread: real, spread': real, q: real, s: real, k: real, c: real)
    requires Expands(spread, q, s, k, c) && Expands(spread', q, s, k, c)
    ensures spread == spread'
  {
  }

  lemma SpreadIsM2(n: nat, mean: real, m2: real, xs: seq<real>)
    requires Tracks(n, mean, m2, xs)
    ensures m2 == Spread(xs, mean)
  {
    SpreadAround(xs, mean);
    ExpansionIsUnique(m2, Spread(xs, mean), SumSquares(xs), Sum(xs), n as real, mean);
  }

  /** `m2` is the sum of squared distances from the mean, and
      n * m2 == n * sum(x^2) - (sum x)^2. */
  lemma SpreadTimesCount(n: nat, mean: real, m2: real, xs: seq<real>)
    requires Tracks(n, mean, m2, xs)
    ensures m2 == Spread(xs, mean)
    ensures IsNumerator(m2, n as real, SumSquares(xs), Sum(xs))
  {
    SpreadIsM2(n, mean, m2, xs);
    AtMean(n as real, Sum(xs), SumSquares(xs), mean, m2);
  }

  lemma AtMean(k: real, s: real, q: real, mean: real, m2: real)
    requires IsMean(mean, s, k) && Expands(m2, q, s, k, mean)
    ensures IsNumerator(m2, k, q, s)
  {
    assert k * m2 == k * q - 2.0 * (mean * k) * s + (k * mean) * (k * mean);
  }

  /** No other state tracks the samples: their order leaves no mark beyond the sums. */
  lemma StateIsDetermined(n: nat, mean: real, m2: real, mean': real, m2': real, xs: seq<real>)
    requires Tracks(n, mean, m2, xs) && Tracks(n, mean', m2', xs)
    ensures mean == mean' && m2 == m2'
  {
    if n > 0 {
      assert (mean - mean') * n as real == 0.0;
    }
  }

  /** The mean is the point the samples lie closest to. */
  lemma MeanIsClosest(n: nat, mean: real, m2: real, xs: seq<real>, c: real)
    requires Tracks(n, mean, m2, xs)
    ensures m2 <= Spread(xs, c)
  {
    SpreadAround(xs, c);
    AwayFromMean(n as real, Sum(xs), SumSquares(xs), mean, c, m2, Spread(xs, c));
  }

  lemma AwayFromMean(k: real, s: real, q: real, mean: real, c: real, m2: real, spread: real)
    requires k >= 0.0 && mean * k == s && Expands(m2, q, s, k, mean) && Expands(spread, q, s, k, c)
    ensures m2 <= spread
  {
    var d := c - mean;
    assert d * d >= 0.0;
    assert k * (d * d) >= 0.0;
    assert k * (d * d) == k * (c * c) - 2.0 * c * (mean * k) + mean * (mean * k);
    assert k * (mean * mean) == mean * (mean * k);
  }

  // ---------- The two variances of the repository ----------

  function AsReals(xs: seq<int>): seq<real>
  {
    seq(|xs|, i requires 0 <= i < |xs| => xs[i] as real)
  }

  lemma {:induction false} SameSums(xs: seq<int>)
    ensures Sum(AsReals(xs)) == Basics.Sum(xs) as real
    ensures SumSquares(AsReals(xs)) == Variance.SumSquares(xs) as real
  {
    if xs != [] {
      var x, front := xs[|xs|-1], xs[..|xs|-1];
      SameSums(front);
      assert AsReals(xs)[..|xs|-1] == AsReals(front);
      assert (x * x) as real == x as real * x as real;
    }
  }

  /** On the same samples, `var_calc` rounds down the running update's spread divided by the
      count. */
  lemma VariancesAgree(n: nat, mean: real, m2: real, xs: seq<int>)
    requires xs != [] && Tracks(n, mean, m2, AsReals(xs))
    ensures Variance.FloorVariance(xs) == (m2 / n as real).Floor
  {
    SpreadTimesCount(n, mean, m2, AsReals(xs));
    NumeratorOf(xs, m2, Variance.Numerator(xs));
    FloorOfVariance(xs, Variance.Numerator(xs), n, m2);
  }

  /** The numerator of `var_calc` is n * m2. */
  predicate IsScaled(num: int, n: int, m2: real)
  {
    num as real == n as real * m2
  }

  lemma FloorOfVariance(xs: seq<int>, num: int, n: int, m2: real)
    requires xs != [] && num == Variance.Numerator(xs) && n == |xs| && IsScaled(num, n, m2)
    ensures Variance.FloorVariance(xs) == (m2 / n as real).Floor
  {
    FloorOfQuotient(num, n, m2);
  }

  lemma NumeratorOf(xs: seq<int>, m2: real, num: int)
    requires IsNumerator(m2, |xs| as real, SumSquares(AsReals(xs)), Sum(AsReals(xs))) && num == Variance.Numerator(xs)
    ensures IsScaled(num, |xs|, m2)
  {
    SameSums(xs);
    NumeratorAsReal(Variance.SumSquares(xs), Basics.Sum(xs), |xs|);
  }

  lemma NumeratorAsReal(q: int, s: int, n: int)
    ensures (q * n - s * s) as real == n as real * q as real - s as real * s as real
  {
    assert (q * n) as real == q as real * n as real;
    assert (s * s) as real == s as real * s as real;
  }

  lemma FloorOfQuotient(num: int, n: int, m2: real)
    requires n > 0 && IsScaled(num, n, m2)
    ensures n * n > 0 && num / (n * n) == (m2 / n as real).Floor
  {
    var d := n * n;
    assert d > 0;
    assert d as real == n as real * n as real;
    CancelOnce(num as real, n as real, m2);
    FloorOfRatio(num, d, m2 / n as real);
  }

  lemma CancelOnce(num: real, n: real, m2: real)
    requires n > 0.0 && num == n * m2
    ensures m2 / n * (n * n) == num
  {
    assert m2 / n * n == m2;
    assert m2 / n * (n * n) == (m2 / n * n) * n;
  }

  lemma FloorOfRatio(num: int, d: int, r: real)
    requires d > 0 && r * d as real == num as real
    ensures num / d == r.Floor
  {
    var f := num / d;
    var whole := d * f;
    assert whole <= num < whole + d;
    assert whole as real == d as real * f as real;
    assert whole as real <= num as real < whole as real + d as real;
    Between(r, f as real, d as real, whole as real, num as real);
  }

  lemma Between(r: real, f: real, d: real, whole: real, num: real)
    requires d > 0.0 && whole == d * f && num == r * d && whole <= num < whole + d
    ensures f <= r < f + 1.0
  {
    assert d * (r - f) == num - whole;
    assert d * (r - f - 1.0) == num - whole - d;
    SignOfFactor(d, r - f);
    SignOfFactor(d, r - f - 1.0);
  }

  lemma SignOfFactor(d: real, x: real)
    requires d > 0.0
    ensures d * x >= 0.0 <==> x >= 0.0
  {
  }
}
