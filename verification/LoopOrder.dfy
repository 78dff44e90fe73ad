/** The two traversals of `run_rowcol` in perf_lab/perf_lab.cpp: row by row and column by column
    over the same square matrix.
    */
module LoopOrder {
  import opened Basics
  import opened Words

  type Grid = (nat, nat) -> int

  /** Entry (i, j) of a matrix with `n` columns that is stored row after row. */
  function Cell(a: seq<int>, n: nat, i: nat, j: nat): int
  {
    var k := i * n + j;
    if k < |a| then a[k] else 0
  }

  function Stored(a: seq<int>, n: nat): Grid
  {
    (i: nat, j: nat) => Cell(a, n, i, j)
  }

  function Transposed(f: Grid): Grid
  {
    (i: nat, j: nat) => f(j, i)
  }

  /** The first `n` entries of line `i`. */
  function Line(f: Grid, i: nat, n: nat): int
  {
    if n == 0 then 0 else Line(f, i, n - 1) + f(i, n - 1)
  }

  /** The first `n` entries of each of the first `m` lines. */
  function Lines(f: Grid, m: nat, n: nat): int
  {
    if m == 0 then 0 else Lines(f, m - 1, n) + Line(f, m - 1, n)
  }

  lemma {:induction false} OneLineMore(f: Grid, m: nat, n: nat)
    ensures Lines(Transposed(f), n, m + 1) == Lines(Transposed(f), n, m) + Line(f, m, n)
  {
    if n > 0 {
      OneLineMore(f, m, n - 1);
    }
  }

  lemma {:induction false} NoLines(f: Grid, n: nat)
    ensures Lines(f, n, 0) == 0
  {
    if n > 0 {
      NoLines(f, n - 1);
    }
  }

  /** Summing by rows is summing by columns. */
  lemma {:induction false} Exchange(f: Grid, m: nat, n: nat)
    ensures Lines(f, m, n) == Lines(Transposed(f), n, m)
  {
    if m == 0 {
      NoLines(Transposed(f), n);
    } else {
      Exchange(f, m - 1, n);
      OneLineMore(f, m - 1, n);
    }
  }

  // ---------- The matrix as it is stored ----------

  lemma InMatrix(i: nat, j: nat, n: nat)
    requires i < n && j < n
    ensures i * n + j < n * n && i * n + n <= n * n
  {
    Distribute(i, n - 1 - i, n);
  }

  lemma Distribute(i: nat, k: nat, n: nat)
    requires i + k + 1 == n
    ensures k * n >= 0 && n * n == i * n + k * n + n
  {
    assert (i + k + 1) * n == i * n + k * n + n;
  }

  lemma {:induction false} LineIsSlice(a: seq<int>, n: nat, i: nat, j: nat, base: nat)
    requires base == i * n && base + j <= |a|
    ensures Line(Stored(a, n), i, j) == Sum(a[base..base + j])
  {
    if j > 0 {
      LineIsSlice(a, n, i, j - 1, base);
      assert a[base..base + j][..j - 1] == a[base..base + j - 1];
    }
  }

  lemma {:induction false} LinesArePrefix(a: seq<int>, n: nat, m: nat, end: nat)
    requires end == m * n && end <= |a|
    ensures Lines(Stored(a, n), m, n) == Sum(a[..end])
  {
    if m > 0 {
      var base := end - n;
      assert base == (m - 1) * n;
      LinesArePrefix(a, n, m - 1, base);
      LineIsSlice(a, n, m - 1, n, base);
      SumOfParts(a[..base], a[base..end]);
      assert a[..base] + a[base..end] == a[..end];
    }
  }

  /** By rows the whole matrix is summed, each entry once. */
  lemma {:induction false} AllLines(a: seq<int>, n: nat)
    requires |a| == n * n
    ensures Lines(Stored(a, n), n, n) == Sum(a)
  {
    LinesArePrefix(a, n, n, n * n);
    assert a[..|a|] == a;
  }

  /** So it is by columns. */
  lemma {:induction false} AllColumns(a: seq<int>, n: nat)
    requires |a| == n * n
    ensures Lines(Transposed(Stored(a, n)), n, n) == Sum(a)
  {
    AllLines(a, n);
    Exchange(Stored(a, n), n, n);
  }

  // ---------- The code ----------

  lemma PassStep(a: seq<int>, k: nat)
    ensures Sum(Repeat(a, k + 1)) == Sum(Repeat(a, k)) + Sum(a)
  {
    SumOfParts(Repeat(a, k), a);
  }

  method RowMajor(a: seq<int>, n: nat, iters: nat) returns (sum: int)
    requires |a| == n * n
    ensures sum == Wrap(Sum(Repeat(a, iters)))
  {
    sum := 0;
    ghost var f := Stored(a, n);
    AllLines(a, n);
    for it := 0 to iters
      invariant sum == Wrap(Sum(Repeat(a, it)))
    {
      ghost var done := Sum(Repeat(a, it));
      for i := 0 to n
        invariant sum == Wrap(done + Lines(f, i, n))
      {
        sum := AddRow(a, n, i, sum, done + Lines(f, i, n));
      }
      PassStep(a, it);
    }
  }

  /** The inner loop over a row. */
  method AddRow(a: seq<int>, n: nat, i: nat, start: int, ghost done: int) returns (sum: int)
    requires |a| == n * n && i < n && start == Wrap(done)
    ensures sum == Wrap(done + Line(Stored(a, n), i, n))
  {
    sum := start;
    var base := i * n;
    for j := 0 to n
      invariant sum == Wrap(done + Line(Stored(a, n), i, j))
    {
      InMatrix(i, j, n);
      WrapOfSum(done + Line(Stored(a, n), i, j), a[base + j]);
      sum := Wrap(sum + a[base + j]);
    }
  }

  method ColMajor(a: seq<int>, n: nat, iters: nat) returns (sum: int)
    requires |a| == n * n
    ensures sum == Wrap(Sum(Repeat(a, iters)))
  {
    sum := 0;
    ghost var f := Transposed(Stored(a, n));
    AllColumns(a, n);
    for it := 0 to iters
      invariant sum == Wrap(Sum(Repeat(a, it)))
    {
      ghost var done := Sum(Repeat(a, it));
      for j := 0 to n
        invariant sum == Wrap(done + Lines(f, j, n))
      {
        sum := AddColumn(a, n, j, sum, done + Lines(f, j, n));
      }
      PassStep(a, it);
    }
  }

  /** The inner loop over a column. */
  method AddColumn(a: seq<int>, n: nat, j: nat, start: int, ghost done: int) returns (sum: int)
    requires |a| == n * n && j < n && start == Wrap(done)
    ensures sum == Wrap(done + Line(Transposed(Stored(a, n)), j, n))
  {
    sum := start;
    for i := 0 to n
      invariant sum == Wrap(done + Line(Transposed(Stored(a, n)), j, i))
    {
      InMatrix(i, j, n);
      WrapOfSum(done + Line(Transposed(Stored(a, n)), j, i), a[i * n + j]);
      sum := Wrap(sum + a[i * n + j]);
    }
  }
}
