/** What several modules share: optional values and facts about sequences. */
module Basics {

  datatype Option<+T> = None | Some(value: T)

  lemma {:induction false} ConcatAssociative<T>(a: seq<T>, b: seq<T>, c: seq<T>)
    ensures a + (b + c) == a + b + c
  {
  }

  function Sum(xs: seq<int>): int
  {
    if xs == [] then 0 else Sum(xs[..|xs|-1]) + xs[|xs|-1]
  }

  lemma SumOfOne(x: int)
    ensures Sum([x]) == x
  {
    assert [x][..0] == [];
  }

  lemma {:induction false} SumOfParts(a: seq<int>, b: seq<int>)
    ensures Sum(a + b) == Sum(a) + Sum(b)
    decreases |b|
  {
    if b == [] {
      assert a + b == a;
    } else {
      SumOfParts(a, b[..|b|-1]);
      assert (a + b)[..|a + b|-1] == a + b[..|b|-1];
    }
  }

  function Repeat(s: seq<int>, k: nat): seq<int>
  {
    if k == 0 then [] else Repeat(s, k - 1) + s
  }

  lemma {:induction false} RepeatSum(s: seq<int>, k: nat)
    ensures Sum(Repeat(s, k)) == k * Sum(s)
  {
    if k > 0 {
      RepeatSum(s, k - 1);
      SumOfParts(Repeat(s, k - 1), s);
      OneMore(k, Sum(s));
    }
  }

  lemma OneMore(k: int, x: int)
    ensures k * x == (k - 1) * x + x
  {
  }

  predicate Distinct<T(==)>(s: seq<T>)
  {
    forall i, j | 0 <= i < j < |s| :: s[i] != s[j]
  }

  lemma LastAndFront<T>(s: seq<T>, front: seq<T>, last: T)
    requires s == front + [last]
    ensures forall x :: x in s <==> x in front || x == last
    ensures Distinct(s) <==> Distinct(front) && last !in front
  {
    assert forall i | 0 <= i < |front| :: s[i] == front[i] && s[i] in front;
    assert s[|front|] == last;
    if Distinct(front) && last !in front {
      forall i, j | 0 <= i < j < |s| ensures s[i] != s[j] {
        if j < |front| {
          assert front[i] != front[j];
        }
      }
    }
  }

  ghost function Elements<T>(s: seq<T>): set<T>
  {
    set x | x in s
  }

  lemma {:induction false} CountElements<T>(s: seq<T>)
    requires Distinct(s)
    ensures |Elements(s)| == |s|
  {
    if s != [] {
      var front, last := s[..|s|-1], s[|s|-1];
      CountElements(front);
      assert Elements(s) == Elements(front) + {last};
    }
  }

  // ---------- Finite sets ----------

  ghost function UpTo(n: nat): (s: set<int>)
    ensures |s| == n && forall x :: x in s <==> 0 <= x < n
  {
    if n == 0 then {} else UpTo(n - 1) + {n - 1}
  }

  lemma SameSize(a: set<int>, b: set<int>)
    requires a <= b && |a| == |b|
    ensures a == b
  {
    assert b == a + (b - a);
  }

  // ---------- Division ----------

  lemma Scale(d: nat, a: int, b: int)
    requires a <= b
    ensures d * a <= d * b
  {
  }

  lemma QuotientIs(n: nat, d: nat, q: nat, r: nat)
    requires d > 0 && n == d * q + r && r < d
    ensures n / d == q
  {
    var p := n / d;
    assert d * (q + 1) == d * q + d && d * (p + 1) == d * p + d;
    if p > q {
      Scale(d, q + 1, p);
    } else if p < q {
      Scale(d, p + 1, q);
    }
  }

  lemma DivideTwice(n: nat, a: nat, b: nat)
    requires a > 0 && b > 0
    ensures a * b > 0 && n / a / b == n / (a * b)
  {
    var q := n / a;
    var r, s, t := q / b, q % b, n % a;
    assert q == b * r + s && n == a * q + t;
    assert a * q == a * (b * r) + a * s == a * b * r + a * s;
    assert a * (s + 1) == a * s + a;
    Scale(a, s + 1, b);
    QuotientIs(n, a * b, r, a * s + t);
  }
}
