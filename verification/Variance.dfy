/** The integer variance `var_calc` of rdtsc/user_mode/2_rdtscp/rdtscp.c, in 64-bit words that
    wrap.

    It is right exactly when the numerator it divides fits a word, unless its own overflow
    checks fire; those checks miss real overflows.
    */
module Variance {
  import opened Basics
  import opened Words

  // ---------- Sums ----------

  function SumSquares(xs: seq<int>): int
  {
    if xs == [] then 0 else SumSquares(xs[..|xs|-1]) + xs[|xs|-1] * xs[|xs|-1]
  }

  /** sum(x^2) * n - (sum x)^2 */
  function Numerator(xs: seq<int>): int
  {
    SumSquares(xs) * |xs| - Sum(xs) * Sum(xs)
  }

  ghost predicate AreWords(xs: seq<int>)
  {
    forall i | 0 <= i < |xs| :: 0 <= xs[i] < WORD
  }

  lemma CompleteTheSquare(q: int, s: int, n: int, x: int, c: int)
    ensures (q + x * x) - 2 * c * (s + x) + (n + 1) * (c * c) == (q - 2 * c * s + n * (c * c)) + (x - c) * (x - c)
  {
  }

  lemma AddToNumerator(q: int, s: int, n: int, x: int)
    ensures (q + x * x) * (n + 1) - (s + x) * (s + x) == (q * n - s * s) + (q - 2 * x * s + n * (x * x))
  {
  }

  lemma SquareIsNotNegative(x: int)
    ensures x * x >= 0
  {
  }

  lemma {:induction false} SquaresAroundAnyPoint(xs: seq<int>, c: int)
    ensures SumSquares(xs) - 2 * c * Sum(xs) + |xs| * (c * c) >= 0
  {
    if xs != [] {
      var x, front := xs[|xs|-1], xs[..|xs|-1];
      SquaresAroundAnyPoint(front, c);
      SquareIsNotNegative(x - c);
      CompleteTheSquare(SumSquares(front), Sum(front), |front|, x, c);
    }
  }

  /** Cauchy and Schwarz: the subtraction in `var_calc` is never negative. */
  lemma {:induction false} NumeratorIsNotNegative(xs: seq<int>)
    ensures Numerator(xs) >= 0
  {
    if xs != [] {
      var x, front := xs[|xs|-1], xs[..|xs|-1];
      NumeratorIsNotNegative(front);
      SquaresAroundAnyPoint(front, x);
      AddToNumerator(SumSquares(front), Sum(front), |front|, x);
    }
  }

  // ---------- var_calc ----------

  /** The running sum is seen to fall before the last element is added. */
  ghost predicate SumFalls(xs: seq<int>)
  {
    exists i :: 0 < i < |xs| && Wrap(Sum(xs[..i])) < Wrap(Sum(xs[..i-1]))
  }

  ghost predicate SquaresFall(xs: seq<int>)
  {
    exists i :: 0 < i < |xs| && Wrap(SumSquares(xs[..i])) < Wrap(SumSquares(xs[..i-1]))
  }

  /** What the overflow checks of `var_calc` see. */
  ghost predicate Alarm(xs: seq<int>)
    requires xs != []
  {
    var front := xs[..|xs|-1];
    || SumFalls(xs)
    || Wrap(Sum(xs) * Sum(xs)) < Wrap(Sum(front))
    || SquaresFall(xs)
    || Wrap(SumSquares(xs) * |xs|) < Wrap(SumSquares(front))
  }

  /** What `var_calc` returns. */
  ghost function Computed(xs: seq<int>): int
    requires xs != []
  {
    if Alarm(xs) then 0 else Wrap(Numerator(xs)) / (|xs| * |xs|)
  }

  /** The first loop. */
  method Accumulate(inputs: seq<int>) returns (acc: int, previous: int, fell: bool)
    requires inputs != []
    ensures fell == SumFalls(inputs)
    ensures !fell ==> acc == Wrap(Sum(inputs)) && previous == Wrap(Sum(inputs[..|inputs|-1]))
  {
    acc, previous := 0, 0;
    for i := 0 to |inputs|
      invariant acc == Wrap(Sum(inputs[..i]))
      invariant previous == if i == 0 then 0 else Wrap(Sum(inputs[..i-1]))
      invariant forall k | 0 < k < i :: Wrap(Sum(inputs[..k])) >= Wrap(Sum(inputs[..k-1]))
    {
      if acc < previous {
        return acc, previous, true;
      }
      previous := acc;
      WrapOfSum(Sum(inputs[..i]), inputs[i]);
      acc := Wrap(acc + inputs[i]);
      assert inputs[..i+1][..i] == inputs[..i];
    }
    assert inputs[..|inputs|] == inputs;
    fell := false;
  }

  /** The second loop. */
  method AccumulateSquares(inputs: seq<int>) returns (acc: int, previous: int, fell: bool)
    requires inputs != []
    ensures fell == SquaresFall(inputs)
    ensures !fell ==> acc == Wrap(SumSquares(inputs)) && previous == Wrap(SumSquares(inputs[..|inputs|-1]))
  {
    acc, previous := 0, 0;
    for i := 0 to |inputs|
      invariant acc == Wrap(SumSquares(inputs[..i]))
      invariant previous == if i == 0 then 0 else Wrap(SumSquares(inputs[..i-1]))
      invariant forall k | 0 < k < i :: Wrap(SumSquares(inputs[..k])) >= Wrap(SumSquares(inputs[..k-1]))
    {
      if acc < previous {
        return acc, previous, true;
      }
      previous := acc;
      var square := Wrap(inputs[i] * inputs[i]);
      WrapOfSum(SumSquares(inputs[..i]), square);
      WrapOfSum(SumSquares(inputs[..i]), inputs[i] * inputs[i]);
      acc := Wrap(acc + square);
      assert inputs[..i+1][..i] == inputs[..i];
    }
    assert inputs[..|inputs|] == inputs;
    fell := false;
  }

  /** `goto overflow` returns 0. */
  method VarCalc(inputs: seq<int>) returns (r: int, overflow: bool)
    requires AreWords(inputs) && |inputs| < 0x8000_0000
    ensures inputs == [] ==> r == 0 && !overflow
    ensures inputs != [] ==> r == Computed(inputs) && overflow == Alarm(inputs)
  {
    if |inputs| <= 0 {
      return 0, false;
    }
    var acc, previous, fell := Accumulate(inputs);
    if fell {
      return 0, true;
    }
    ghost var (sum, sumSquares) := (Sum(inputs), SumSquares(inputs));
    var accSquared := Wrap(acc * acc);
    WrapOfSquare(sum);
    if accSquared < previous {
      return 0, true;
    }
    var squares;
    squares, previous, fell := AccumulateSquares(inputs);
    if fell {
      return 0, true;
    }
    var size := |inputs|;
    var scaled := Wrap(squares * size);
    WrapOfProduct(sumSquares, size);
    if scaled < previous {
      return 0, true;
    }
    SmallSquare(size);
    if Wrap(size * size) == 0 {
      return 0, false;
    }
    WrapOfDifference(sumSquares * size, sum * sum);
    r := Wrap(scaled - accSquared) / Wrap(size * size);
    overflow := false;
  }

  lemma SmallSquare(n: int)
    requires 0 < n < 0x8000_0000
    ensures 0 < n * n < WORD
  {
    assert n * n <= 0x8000_0000 * n;
  }

  // ---------- When var_calc is right ----------

  /** The variance, rounded down. */
  function FloorVariance(xs: seq<int>): int
    requires xs != []
  {
    Numerator(xs) / (|xs| * |xs|)
  }

  lemma DivideAtLeast(x: int, d: int, m: int)
    requires d > 0 && x >= d * m
    ensures x / d >= m
  {
    var q := x / d;
    assert x < d * q + d;
    assert d * (m - q - 1) < 0;
    assert m - q - 1 >= 0 ==> d * (m - q - 1) >= 0;
  }

  lemma DivideShifted(x: int, k: int, d: int)
    requires d > 0 && k > 0 && x >= 0 && d < WORD
    ensures (x + k * WORD) / d > x / d
  {
    var q := x / d;
    assert d * q <= x;
    assert k * WORD >= WORD;
    assert d * (q + 1) == d * q + d;
    DivideAtLeast(x + k * WORD, d, q + 1);
  }

  lemma DivideIsZero(x: int, d: int)
    requires d > 0 && x >= 0
    ensures x / d == 0 <==> x < d
  {
  }

  /** `var_calc` is right exactly when its checks stay silent and the numerator fits a word,
      or they fire on a variance below 1. */
  lemma RightExactlyWhen(xs: seq<int>)
    requires xs != [] && |xs| < 0x8000_0000
    ensures Computed(xs) == FloorVariance(xs) <==> Numerator(xs) < if Alarm(xs) then |xs| * |xs| else WORD
  {
    var n, d := Numerator(xs), |xs| * |xs|;
    NumeratorIsNotNegative(xs);
    SmallSquare(|xs|);
    DivideIsZero(n, d);
    if n >= WORD {
      DivideShifted(Wrap(n), n / WORD, d);
    }
  }

  lemma {:induction false} SumsGrow(xs: seq<int>, i: nat)
    requires AreWords(xs) && i <= |xs|
    ensures 0 <= Sum(xs[..i]) <= Sum(xs)
    ensures 0 <= SumSquares(xs[..i]) <= SumSquares(xs)
    decreases |xs|
  {
    if i == |xs| {
      assert xs[..i] == xs;
      if xs != [] {
        SumsGrow(xs[..|xs|-1], |xs| - 1);
        assert xs[..|xs|-1][..|xs|-1] == xs[..|xs|-1];
        SquareIsNotNegative(xs[|xs|-1]);
      }
    } else {
      SumsGrow(xs[..|xs|-1], i);
      assert xs[..|xs|-1][..i] == xs[..i];
      SquareIsNotNegative(xs[|xs|-1]);
    }
  }

  lemma RootBelow(s: int, q: int, n: int)
    requires n > 0 && q >= 0 && q * n - s * s >= 0
    ensures s <= s * s <= q * n && q <= q * n
  {
    SquareIsNotNegative(s);
    assert s >= 1 ==> s * s >= s;
    assert q * n == q + q * (n - 1);
  }

  lemma NothingFalls(xs: seq<int>)
    requires AreWords(xs) && xs != [] && |xs| < 0x8000_0000
    requires 0 <= Sum(xs) <= Sum(xs) * Sum(xs) < WORD && 0 <= SumSquares(xs) <= SumSquares(xs) * |xs| < WORD
    ensures !Alarm(xs)
  {
    SumsGrow(xs, |xs| - 1);
    forall i | 0 < i < |xs|
      ensures Wrap(Sum(xs[..i])) >= Wrap(Sum(xs[..i-1]))
      ensures Wrap(SumSquares(xs[..i])) >= Wrap(SumSquares(xs[..i-1]))
    {
      SumsGrow(xs, i);
      SumsGrow(xs[..i], i - 1);
      assert xs[..i][..i-1] == xs[..i-1];
    }
  }

  /** Samples whose scaled squares fit a word set off no check and give the variance. */
  lemma SmallSamplesAreRight(xs: seq<int>)
    requires AreWords(xs) && xs != [] && |xs| < 0x8000_0000
    requires SumSquares(xs) * |xs| < WORD
    ensures !Alarm(xs) && Computed(xs) == FloorVariance(xs)
  {
    NumeratorIsNotNegative(xs);
    SumsGrow(xs, 0);
    RootBelow(Sum(xs), SumSquares(xs), |xs|);
    NothingFalls(xs);
    RightExactlyWhen(xs);
  }

  /** The checks do not catch every overflow: two words whose variance is 2^62 give 0. */
  lemma OverflowCanGoUnseen()
    ensures var xs := [0, 0x1_0000_0000]; !Alarm(xs) && Computed(xs) == 0 && FloorVariance(xs) == 0x4000_0000_0000_0000
  {
    var xs: seq<int> := [0, 0x1_0000_0000];
    assert xs[..1] == [0] && xs[..0] == [];
    assert Sum([0]) == 0 && SumSquares([0]) == 0;
    assert Sum(xs) == 0x1_0000_0000 && SumSquares(xs) == WORD;
  }

  // ---------- What the checks see ----------

  /** The first prefix whose sum passes a word. */
  lemma {:induction false} FirstCarry(xs: seq<int>, n: nat) returns (i: nat)
    requires AreWords(xs) && n <= |xs| && Sum(xs[..n]) >= WORD
    ensures 0 < i <= n && Sum(xs[..i-1]) < WORD <= Sum(xs[..i])
    ensures Sum(xs[..i]) == Sum(xs[..i-1]) + xs[i-1]
  {
    assert xs[..0] == [];
    assert xs[..n][..n-1] == xs[..n-1];
    if Sum(xs[..n-1]) >= WORD {
      i := FirstCarry(xs, n - 1);
    } else {
      i := n;
    }
  }

  lemma {:induction false} PrefixSums(xs: seq<int>, i: nat, j: nat)
    requires AreWords(xs) && i <= j <= |xs|
    ensures 0 <= Sum(xs[..i]) <= Sum(xs[..j])
    decreases j
  {
    assert xs[..0] == [];
    if j > 0 {
      assert xs[..j][..j-1] == xs[..j-1];
      PrefixSums(xs, if i < j then i else j - 1, j - 1);
    }
  }

  lemma WrapCarries(a: int, x: int)
    requires 0 <= a < WORD <= a + x && x < WORD
    ensures Wrap(a + x) < Wrap(a)
  {
    assert a + x - WORD < a;
  }

  /** The check on the running sum fires exactly when the samples before the last add up to more
      than a word holds. */
  lemma SumCheckIsExact(xs: seq<int>)
    requires AreWords(xs) && xs != []
    ensures SumFalls(xs) <==> Sum(xs[..|xs|-1]) >= WORD
  {
    var n := |xs| - 1;
    if Sum(xs[..n]) >= WORD {
      var i := FirstCarry(xs, n);
      PrefixSums(xs, i - 1, i);
      WrapCarries(Sum(xs[..i-1]), xs[i-1]);
    } else {
      forall i | 0 < i < |xs| ensures Wrap(Sum(xs[..i])) >= Wrap(Sum(xs[..i-1])) {
        PrefixSums(xs, i - 1, i);
        PrefixSums(xs, i, n);
      }
    }
  }

  function Squares(xs: seq<int>): (r: seq<int>)
    ensures |r| == |xs|
  {
    seq(|xs|, i requires 0 <= i < |xs| => xs[i] * xs[i])
  }

  lemma {:induction false} SumOfSquares(xs: seq<int>, i: nat)
    requires i <= |xs|
    ensures SumSquares(xs[..i]) == Sum(Squares(xs)[..i])
  {
    if i > 0 {
      SumOfSquares(xs, i - 1);
      assert xs[..i][..i-1] == xs[..i-1] && Squares(xs)[..i][..i-1] == Squares(xs)[..i-1];
    } else {
      assert xs[..0] == [] && Squares(xs)[..0] == [];
    }
  }

  lemma HalfWordSquare(x: int)
    requires 0 <= x < 0x1_0000_0000
    ensures 0 <= x * x < WORD
  {
    SquareIsNotNegative(x);
    Scale(x, x, 0x1_0000_0000);
  }

  /** For samples below 2^32 the check on the running sum of squares is exact in the same way. */
  lemma SquareCheckIsExact(xs: seq<int>)
    requires xs != [] && forall i | 0 <= i < |xs| :: 0 <= xs[i] < 0x1_0000_0000
    ensures SquaresFall(xs) <==> SumSquares(xs[..|xs|-1]) >= WORD
  {
    forall i | 0 <= i < |xs| ensures 0 <= Squares(xs)[i] < WORD {
      HalfWordSquare(xs[i]);
    }
    forall i: nat | i <= |xs| ensures SumSquares(xs[..i]) == Sum(Squares(xs)[..i]) {
      SumOfSquares(xs, i);
    }
    SumCheckIsExact(Squares(xs));
  }

  /** The overflow exit is taken: the first two of three words do not fit one, and 0 is returned for a
      variance that is not 0. */
  lemma OverflowIsSeen()
    ensures var xs := [WORD - 1, 1, 0]; Alarm(xs) && Computed(xs) == 0 && FloorVariance(xs) > 0
  {
    var xs: seq<int> := [WORD - 1, 1, 0];
    assert xs[..2] == [WORD - 1, 1] && xs[..2][..1] == [WORD - 1] && xs[..1][..0] == [];
    assert Sum([WORD - 1]) == WORD - 1 && Sum(xs[..2]) == WORD;
    SumCheckIsExact(xs);
    assert SumSquares([WORD - 1]) == (WORD - 1) * (WORD - 1);
    assert SumSquares(xs[..2]) == (WORD - 1) * (WORD - 1) + 1;
    assert Sum(xs) == WORD && SumSquares(xs) == (WORD - 1) * (WORD - 1) + 1;
  }

  // ---------- The deviation ----------

  /** The loop over one row of samples in `main`. */
  method Extremes(xs: seq<int>) returns (min: int, max: int)
    requires xs != []
    ensures min in xs && max in xs && forall i | 0 <= i < |xs| :: min <= xs[i] <= max
  {
    min, max := xs[0], xs[0];
    for i := 0 to |xs|
      invariant min in xs && max in xs && forall k | 0 <= k < i :: min <= xs[k] <= max
    {
      if min > xs[i] {
        min := xs[i];
      }
      if max < xs[i] {
        max := xs[i];
      }
    }
  }

  lemma {:induction false} WithinBounds(xs: seq<int>, min: int, max: int)
    requires forall i | 0 <= i < |xs| :: min <= xs[i] <= max
    ensures (min + max) * Sum(xs) - SumSquares(xs) - |xs| * (min * max) >= 0
  {
    if xs != [] {
      var x, front := xs[|xs|-1], xs[..|xs|-1];
      WithinBounds(front, min, max);
      ProductIsNotNegative(x, min, max);
      AddBounded(SumSquares(front), Sum(front), |front|, x, min, max);
    }
  }

  lemma ProductIsNotNegative(x: int, min: int, max: int)
    requires min <= x <= max
    ensures (x - min) * (max - x) >= 0
  {
  }

  lemma AddBounded(q: int, s: int, n: int, x: int, min: int, max: int)
    ensures (min + max) * (s + x) - (q + x * x) - (n + 1) * (min * max)
         == ((min + max) * s - q - n * (min * max)) + (x - min) * (max - x)
  {
  }

  lemma SpreadOfBounds(min: int, max: int)
    ensures (max - min) * (max - min) == (min + max) * (min + max) - 4 * (min * max)
  {
  }

  lemma CompleteFromBounds(s: int, n: int, t: int, p: int)
    ensures 4 * ((t * s - n * p) * n - s * s) == (n * n) * (t * t - 4 * p) - (2 * s - n * t) * (2 * s - n * t)
  {
    assert (2 * s - n * t) * (2 * s - n * t) == 4 * (s * s) - 4 * (n * t * s) + n * t * n * t;
  }

  lemma SpreadIdentity(s: int, n: int, min: int, max: int)
    ensures 4 * (((min + max) * s - n * (min * max)) * n - s * s)
         == (n * n) * ((max - min) * (max - min)) - (2 * s - n * (min + max)) * (2 * s - n * (min + max))
  {
    SpreadOfBounds(min, max);
    CompleteFromBounds(s, n, min + max, min * max);
  }

  lemma ScaleBound(a: int, b: int, n: int)
    requires a >= b && n >= 0
    ensures a * n >= b * n
  {
  }

  lemma QuarterBound(n: int, d: int, w: int)
    requires d > 0 && n >= 0 && 4 * n <= d * w
    ensures 4 * (n / d) <= w
  {
    var q := n / d;
    assert d * q <= n;
    assert d * (4 * q) <= d * w;
    assert 4 * q >= w + 1 ==> d * (4 * q) >= d * (w + 1);
  }

  lemma DivideMonotone(x: int, y: int, d: int)
    requires d > 0 && x <= y
    ensures x / d <= y / d
  {
    var q := x / d;
    assert d * q <= x;
    DivideAtLeast(y, d, q);
  }

  /** Overflow can only lose: what `var_calc` returns never exceeds the variance. */
  lemma NeverTooLarge(xs: seq<int>)
    requires xs != []
    ensures 0 <= Computed(xs) <= FloorVariance(xs)
  {
    var n, d := Numerator(xs), |xs| * |xs|;
    NumeratorIsNotNegative(xs);
    SquareIsPositive(|xs|);
    DivideMonotone(0, n, d);
    DivideMonotone(0, Wrap(n), d);
    DivideMonotone(Wrap(n), n, d);
  }

  lemma SquareIsPositive(n: int)
    requires n > 0
    ensures n * n > 0
  {
  }

  /** Popoviciu: four times the variance, and so four times what `var_calc` returns for any
      words at all, is at most the square of the largest deviation. */
  lemma VarianceWithinDeviation(xs: seq<int>, min: int, max: int)
    requires xs != [] && forall i | 0 <= i < |xs| :: min <= xs[i] <= max
    ensures 4 * FloorVariance(xs) <= (max - min) * (max - min)
    ensures 4 * Computed(xs) <= (max - min) * (max - min)
  {
    NeverTooLarge(xs);
    var q, s, n := SumSquares(xs), Sum(xs), |xs|;
    WithinBounds(xs, min, max);
    ScaleBound((min + max) * s - n * (min * max), q, n);
    SpreadIdentity(s, n, min, max);
    SquareIsNotNegative(2 * s - n * (min + max));
    NumeratorIsNotNegative(xs);
    SquareIsNotNegative(n);
    QuarterBound(Numerator(xs), n * n, (max - min) * (max - min));
  }
}
