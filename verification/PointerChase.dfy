/** The two walks of `run_ptr` in perf_lab/perf_lab.cpp: the pointer chase through a shuffled
    `next` array and the sequential pass over the same array.

    The array is one cycle through all indices, so a chase of n * iters steps visits every
    index `iters` times and adds up to what the sequential walk adds up to.
    */
module PointerChase {
  import opened Basics
  import opened Words
  import opened Wrapping

  predicate InRange(s: seq<int>)
  {
    forall i | 0 <= i < |s| :: 0 <= s[i] < |s|
  }

  /** What `std::shuffle` makes of 0, 1, ..., n - 1. */
  predicate IsPermutation(s: seq<int>)
  {
    && InRange(s)
    && Distinct(s)
  }

  /** Every element of the permutation points at the following one, the last at the first. */
  predicate Links(next: seq<int>, perm: seq<int>)
    requires InRange(perm)
  {
    && |next| == |perm|
    && forall i | 0 <= i < |perm| :: next[perm[i]] == perm[if i + 1 < |perm| then i + 1 else 0]
  }

  /** The index after `t` steps. */
  function Follow(next: seq<int>, i: int, t: nat): (r: int)
    requires InRange(next) && 0 <= i < |next|
    ensures 0 <= r < |next|
  {
    if t == 0 then i else next[Follow(next, i, t - 1)]
  }

  /** The indices of the first `t` steps. */
  function Visits(next: seq<int>, i: int, t: nat): (v: seq<int>)
    requires InRange(next) && 0 <= i < |next|
    ensures |v| == t
  {
    if t == 0 then [] else Visits(next, i, t - 1) + [Follow(next, i, t)]
  }

  lemma {:induction false} VisitAt(next: seq<int>, i: int, t: nat, k: nat)
    requires InRange(next) && 0 <= i < |next| && k < t
    ensures Visits(next, i, t)[k] == Follow(next, i, k + 1)
  {
    if k < t - 1 {
      VisitAt(next, i, t - 1, k);
    }
  }

  // ---------- Permutations ----------

  /** Each index is somewhere in the permutation. */
  lemma PlaceOf(s: seq<int>, v: int) returns (k: int)
    requires IsPermutation(s) && 0 <= v < |s|
    ensures 0 <= k < |s| && s[k] == v
  {
    CountElements(s);
    SameSize(Elements(s), UpTo(|s|));
    assert v in Elements(s);
    k :| 0 <= k < |s| && s[k] == v;
  }

  /** A permutation holds each index once. */
  lemma CountsOnce(s: seq<int>, v: int)
    requires IsPermutation(s)
    ensures multiset(s)[v] == if 0 <= v < |s| then 1 else 0
  {
    if 0 <= v < |s| {
      var k := PlaceOf(s, v);
      var before, after := s[..k], s[k+1..];
      assert s == before + [v] + after;
      assert v !in before && v !in after;
    } else {
      assert v !in s;
    }
  }

  lemma SamePermutation(a: seq<int>, b: seq<int>)
    requires IsPermutation(a) && IsPermutation(b) && |a| == |b|
    ensures multiset(a) == multiset(b)
  {
    forall v: int ensures multiset(a)[v] == multiset(b)[v] {
      CountsOnce(a, v);
      CountsOnce(b, v);
    }
  }

  lemma LeaveOut(front: seq<int>, x: int, before: seq<int>, after: seq<int>)
    requires multiset(front + [x]) == multiset(before + [x] + after)
    ensures multiset(front) == multiset(before + after)
  {
    assert multiset(before + after) == multiset(before + [x] + after) - multiset{x};
    assert multiset(front) == multiset(front + [x]) - multiset{x};
  }

  lemma TakeOut(before: seq<int>, x: int, after: seq<int>)
    ensures Sum(before + [x] + after) == Sum(before + after) + x
  {
    SumOfParts(before, after);
    SumOfParts(before + [x], after);
    assert (before + [x])[..|before|] == before;
  }

  /** The order of the summands does not matter. */
  lemma {:induction false} SumOfRearranged(a: seq<int>, b: seq<int>)
    requires multiset(a) == multiset(b)
    ensures Sum(a) == Sum(b)
    decreases |a|
  {
    if a == [] {
      assert |b| == |multiset(b)| == 0;
    } else {
      var x, front := a[|a|-1], a[..|a|-1];
      assert a == front + [x];
      assert x in multiset(b);
      var k :| 0 <= k < |b| && b[k] == x;
      var before, after := b[..k], b[k+1..];
      assert b == before + [x] + after;
      LeaveOut(front, x, before, after);
      SumOfRearranged(front, before + after);
      TakeOut(before, x, after);
    }
  }

  // ---------- One cycle ----------

  lemma InItsSlot(k: nat, n: nat)
    requires k < n
    ensures Slot(k, n) == k && Slot(k + n, n) == k
  {
    SlotDistance(0, k, n);
    SlotDistance(k, k + n - 1, n);
  }

  lemma {:induction false} FollowsThePermutation(next: seq<int>, perm: seq<int>, k: nat, t: nat)
    requires IsPermutation(perm) && Links(next, perm) && InRange(next) && k < |perm|
    ensures Follow(next, perm[k], t) == perm[Slot(k + t, |perm|)]
  {
    if t == 0 {
      InItsSlot(k, |perm|);
    } else {
      FollowsThePermutation(next, perm, k, t - 1);
    }
  }

  lemma NextIsPermutation(next: seq<int>, perm: seq<int>)
    requires IsPermutation(perm) && Links(next, perm)
    ensures IsPermutation(next)
  {
    forall u, v | 0 <= u < |next| && 0 <= v < |next|
      ensures 0 <= next[u] < |next| && (u != v ==> next[u] != next[v])
    {
      var a := PlaceOf(perm, u);
      var b := PlaceOf(perm, v);
      assert next[u] == perm[if a + 1 < |perm| then a + 1 else 0];
      assert next[v] == perm[if b + 1 < |perm| then b + 1 else 0];
    }
  }

  /** From any index, n steps visit every index once and lead back. */
  lemma SingleCycle(next: seq<int>, perm: seq<int>, i: int)
    requires IsPermutation(perm) && Links(next, perm) && 0 <= i < |next|
    ensures IsPermutation(next)
    ensures Follow(next, i, |next|) == i && IsPermutation(Visits(next, i, |next|))
  {
    NextIsPermutation(next, perm);
    var n := |perm|;
    var k := PlaceOf(perm, i);
    var lap := Visits(next, i, n);
    FollowsThePermutation(next, perm, k, n);
    InItsSlot(k, n);
    forall a | 0 <= a < n ensures 0 <= lap[a] < n {
      VisitAt(next, i, n, a);
    }
    forall a, b | 0 <= a < b < n ensures lap[a] != lap[b] {
      VisitAt(next, i, n, a);
      VisitAt(next, i, n, b);
      FollowsThePermutation(next, perm, k, a + 1);
      FollowsThePermutation(next, perm, k, b + 1);
      SlotIsFree(k + a + 1, k + b + 1, n);
    }
  }

  // ---------- Laps ----------

  lemma {:induction false} FollowOn(next: seq<int>, i: int, a: nat, b: nat, c: nat)
    requires InRange(next) && 0 <= i < |next| && c == a + b
    ensures Follow(next, i, c) == Follow(next, Follow(next, i, a), b)
    ensures Visits(next, i, c) == Visits(next, i, a) + Visits(next, Follow(next, i, a), b)
    decreases b
  {
    if b > 0 {
      FollowOn(next, i, a, b - 1, c - 1);
    }
  }

  lemma {:induction false} RepeatCount(s: seq<int>, k: nat, v: int)
    ensures multiset(Repeat(s, k))[v] == k * multiset(s)[v]
  {
    if k > 0 {
      RepeatCount(s, k - 1, v);
      OneMore(k, multiset(s)[v]);
    }
  }

  /** The steps of `k` laps of `n`. */
  function Steps(k: nat, n: nat): nat
  {
    if k == 0 then 0 else Steps(k - 1, n) + n
  }

  lemma {:induction false} StepsAre(k: nat, n: nat)
    ensures Steps(k, n) == n * k
  {
    if k > 0 {
      StepsAre(k - 1, n);
      OneMore(k, n);
    }
  }

  /** A lap that leads back repeats. */
  lemma {:induction false} LapAfterLap(next: seq<int>, i: int, n: nat, k: nat)
    requires InRange(next) && 0 <= i < |next| && Follow(next, i, n) == i
    ensures Follow(next, i, Steps(k, n)) == i
    ensures Visits(next, i, Steps(k, n)) == Repeat(Visits(next, i, n), k)
  {
    if k > 0 {
      LapAfterLap(next, i, n, k - 1);
      FollowOn(next, i, Steps(k - 1, n), n, Steps(k, n));
    }
  }

  /** A chase of n * iters steps visits each index exactly `iters` times. */
  lemma {:induction false} EachIndexPerLap(next: seq<int>, perm: seq<int>, i: int, iters: nat, v: int)
    requires IsPermutation(perm) && Links(next, perm) && InRange(next) && 0 <= i < |next|
    ensures Follow(next, i, |next| * iters) == i
    ensures multiset(Visits(next, i, |next| * iters))[v] == if 0 <= v < |next| then iters else 0
    ensures Sum(Visits(next, i, |next| * iters)) == iters * Sum(next)
  {
    SingleCycle(next, perm, i);
    StepsAre(iters, |next|);
    LapAfterLap(next, i, |next|, iters);
    LapsTally(Visits(next, i, |next|), next, iters, v);
  }

  lemma {:induction false} LapsTally(lap: seq<int>, next: seq<int>, iters: nat, v: int)
    requires IsPermutation(lap) && IsPermutation(next) && |lap| == |next|
    ensures multiset(Repeat(lap, iters))[v] == if 0 <= v < |next| then iters else 0
    ensures Sum(Repeat(lap, iters)) == iters * Sum(next)
  {
    RepeatCount(lap, iters, v);
    CountsOnce(lap, v);
    RepeatSum(lap, iters);
    SamePermutation(lap, next);
    SumOfRearranged(lap, next);
  }

  /** The whole laps in `w` steps, and the steps after them. */
  function Laps(w: nat, n: nat): nat
    requires n > 0
  {
    if w < n then 0 else Laps(w - n, n) + 1
  }

  function Rest(w: nat, n: nat): nat
    requires n > 0
  {
    if w < n then w else Rest(w - n, n)
  }

  lemma {:induction false} LapsAndRest(w: nat, n: nat)
    requires n > 0
    ensures w == Steps(Laps(w, n), n) + Rest(w, n) && Rest(w, n) < n
  {
    if w >= n {
      LapsAndRest(w - n, n);
    }
  }

  lemma {:induction false} WholeLaps(k: nat, n: nat)
    requires n > 0
    ensures Laps(Steps(k, n), n) == k && Rest(Steps(k, n), n) == 0
  {
    if k > 0 {
      WholeLaps(k - 1, n);
    }
  }

  lemma {:induction false} StepsGrow(j: nat, k: nat, n: nat)
    requires n > 0 && Steps(j, n) <= Steps(k, n)
    ensures j <= k
    decreases j
  {
    if j > 0 && k > 0 {
      StepsGrow(j - 1, k - 1, n);
    }
  }

  lemma {:induction false} RepeatMore(s: seq<int>, j: nat, k: nat)
    ensures Repeat(s, j + k) == Repeat(s, j) + Repeat(s, k)
    decreases k
  {
    if k > 0 {
      RepeatMore(s, j, k - 1);
      ConcatAssociative(Repeat(s, j), Repeat(s, k - 1), s);
    }
  }

  lemma {:induction false} SumGoesOn(next: seq<int>, i: int, a: nat, b: nat, c: nat)
    requires InRange(next) && 0 <= i < |next| && Follow(next, i, a) == i && c == a + b
    ensures Sum(Visits(next, i, c)) == Sum(Visits(next, i, a)) + Sum(Visits(next, i, b))
  {
    FollowOn(next, i, a, b, c);
    SumOfParts(Visits(next, i, a), Visits(next, i, b));
  }

  lemma {:induction false} SameRepeatedSum(a: seq<int>, b: seq<int>, k: nat)
    requires Sum(a) == Sum(b)
    ensures Sum(Repeat(a, k)) == Sum(Repeat(b, k))
  {
    if k > 0 {
      SameRepeatedSum(a, b, k - 1);
      SumOfParts(Repeat(a, k - 1), a);
      SumOfParts(Repeat(b, k - 1), b);
    }
  }

  lemma {:induction false} LapSum(next: seq<int>, perm: seq<int>, i: int)
    requires IsPermutation(perm) && Links(next, perm) && 0 <= i < |next|
    ensures IsPermutation(next)
    ensures Follow(next, i, |next|) == i && Sum(Visits(next, i, |next|)) == Sum(next)
  {
    SingleCycle(next, perm, i);
    SamePermutation(Visits(next, i, |next|), next);
    SumOfRearranged(Visits(next, i, |next|), next);
  }

  lemma {:induction false} LapsSum(next: seq<int>, i: int, laps: nat)
    requires InRange(next) && 0 <= i < |next|
    requires Follow(next, i, |next|) == i && Sum(Visits(next, i, |next|)) == Sum(next)
    ensures Follow(next, i, Steps(laps, |next|)) == i
    ensures Sum(Visits(next, i, Steps(laps, |next|))) == Sum(Repeat(next, laps))
  {
    LapAfterLap(next, i, |next|, laps);
    SameRepeatedSum(Visits(next, i, |next|), next, laps);
  }

  /** Any chase adds up to some passes over the array and a rest. */
  lemma {:induction false} ChaseAddsUp(next: seq<int>, i: int, w: nat, laps: nat, rest: nat)
    requires InRange(next) && 0 <= i < |next| && w == Steps(laps, |next|) + rest
    requires Follow(next, i, |next|) == i && Sum(Visits(next, i, |next|)) == Sum(next)
    ensures Sum(Visits(next, i, w)) == Sum(Repeat(next, laps)) + Sum(Visits(next, i, rest))
  {
    LapsSum(next, i, laps);
    SumGoesOn(next, i, Steps(laps, |next|), rest, w);
  }

  lemma {:induction false} PassesSplit(next: seq<int>, iters: nat, laps: nat)
    requires laps <= iters
    ensures Sum(Repeat(next, iters)) == Sum(Repeat(next, iters - laps)) + Sum(Repeat(next, laps))
  {
    RepeatMore(next, iters - laps, laps);
    SumOfParts(Repeat(next, iters - laps), Repeat(next, laps));
  }

  // ---------- The code ----------

  method BuildNext(perm: seq<int>) returns (next: array<int>)
    requires IsPermutation(perm) && perm != []
    ensures Links(next[..], perm)
  {
    var n := |perm|;
    next := new int[n];
    for i := 0 to n - 1
      invariant forall k | 0 <= k < i :: next[perm[k]] == perm[k + 1]
    {
      next[perm[i]] := perm[i + 1];
    }
    next[perm[n - 1]] := perm[0];
  }

  method PtrChase(next: seq<int>, steps: nat) returns (acc: int)
    requires InRange(next) && next != []
    ensures acc == Wrap(Sum(Visits(next, 0, steps)))
  {
    var idx := 0;
    acc := 0;
    for i := 0 to steps
      invariant idx == Follow(next, 0, i) && acc == Wrap(Sum(Visits(next, 0, i)))
    {
      idx := next[idx];
      WrapOfSum(Sum(Visits(next, 0, i)), idx);
      acc := Wrap(acc + idx);
      assert Visits(next, 0, i + 1)[..i] == Visits(next, 0, i);
    }
  }

  method SeqWalk(next: seq<int>, iters: nat) returns (acc: int)
    ensures acc == Wrap(Sum(Repeat(next, iters)))
  {
    acc := 0;
    for it := 0 to iters
      invariant acc == Wrap(Sum(Repeat(next, it)))
    {
      ghost var total := Sum(Repeat(next, it));
      assert next[..0] == [];
      for i := 0 to |next|
        invariant acc == Wrap(total + Sum(next[..i]))
      {
        WrapOfSum(total + Sum(next[..i]), next[i]);
        acc := Wrap(acc + next[i]);
        assert next[..i + 1][..i] == next[..i];
      }
      assert next[..|next|] == next;
      SumOfParts(Repeat(next, it), next);
    }
  }

  // ---------- The two variants ----------

  lemma SameRest(p: int, q: int, a: int, b: int, c: int)
    requires p == a + b && q == b + c
    ensures Wrap(p) == Wrap(q) <==> Wrap(a) == Wrap(c)
  {
    if Wrap(p) == Wrap(q) {
      WrapOfDifference(p, b);
      WrapOfDifference(q, b);
    }
    if Wrap(a) == Wrap(c) {
      WrapOfSum(a, b);
      WrapOfSum(c, b);
    }
  }

  /** A chase of `laps` whole laps and `rest` steps against `iters` passes: the passes that are
      missing add up to what the rest does. */
  ghost predicate MissingDoNotShow(next: seq<int>, iters: nat, laps: nat, rest: nat)
    requires InRange(next) && next != [] && laps <= iters
  {
    Wrap(Sum(Repeat(next, iters - laps))) == Wrap(Sum(Visits(next, 0, rest)))
  }

  lemma {:induction false} AgreeExactlyWhen(next: seq<int>, iters: nat, w: nat, laps: nat, rest: nat)
    requires InRange(next) && next != [] && laps <= iters && w == Steps(laps, |next|) + rest
    requires Follow(next, 0, |next|) == 0 && Sum(Visits(next, 0, |next|)) == Sum(next)
    ensures Wrap(Sum(Repeat(next, iters))) == Wrap(Sum(Visits(next, 0, w))) <==> MissingDoNotShow(next, iters, laps, rest)
  {
    ChaseAddsUp(next, 0, w, laps, rest);
    PassesSplit(next, iters, laps);
    SameRest(Sum(Repeat(next, iters)), Sum(Visits(next, 0, w)),
             Sum(Repeat(next, iters - laps)), Sum(Repeat(next, laps)), Sum(Visits(next, 0, rest)));
  }

  lemma {:induction false} NoneMissing(next: seq<int>, iters: nat)
    requires InRange(next) && next != []
    ensures MissingDoNotShow(next, iters, iters, 0)
  {
  }

  lemma {:induction false} HowFar(iters: nat, w: nat, n: nat)
    requires n > 0 && w <= Steps(iters, n)
    ensures Laps(w, n) <= iters && w == Steps(Laps(w, n), n) + Rest(w, n)
    ensures w == Steps(iters, n) ==> Laps(w, n) == iters && Rest(w, n) == 0
  {
    LapsAndRest(w, n);
    StepsGrow(Laps(w, n), iters, n);
    WholeLaps(iters, n);
  }

  /** When both variants of the benchmark add up to the same.  They do if the step count fits
      a word; if it wraps, exactly when the missing passes do not show in the sum. */
  method RunPtr(perm: seq<int>, iters: nat) returns (good: int, bad: int, ghost next: seq<int>, ghost laps: nat, ghost rest: nat)
    requires IsPermutation(perm) && perm != []
    ensures Links(next, perm) && InRange(next)
    ensures Wrap(|perm| * iters) == Steps(laps, |perm|) + rest && rest < |perm| && laps <= iters
    ensures good == Wrap(Sum(Repeat(next, iters))) && bad == Wrap(Sum(Visits(next, 0, Wrap(|perm| * iters))))
    ensures good == bad <==> MissingDoNotShow(next, iters, laps, rest)
    ensures |perm| * iters < WORD ==> good == bad
  {
    var links := BuildNext(perm);
    var list := links[..];
    next := list;
    NextIsPermutation(next, perm);
    LapSum(next, perm, 0);
    good := SeqWalk(list, iters);
    StepsAre(iters, |list|);
    var steps := Wrap(|list| * iters);
    bad := PtrChase(list, steps);
    laps, rest := Laps(steps, |perm|), Rest(steps, |perm|);
    HowFar(iters, steps, |perm|);
    LapsAndRest(steps, |perm|);
    AgreeExactlyWhen(next, iters, steps, laps, rest);
    NoneMissing(next, iters);
  }

  /** The step count can wrap: over two elements and 2^63 laps no step is left to take, and the
      sums differ. */
  lemma WrappedStepsDiffer(iters: nat)
    requires 2 * iters == WORD
    ensures var next, perm := [1, 0], [0, 1];
            IsPermutation(perm) && Links(next, perm) &&
            Wrap(|next| * iters) == 0 && Wrap(Sum(Repeat(next, iters))) != Wrap(Sum(Visits(next, 0, 0)))
  {
    var next: seq<int> := [1, 0];
    assert next[..1] == [1] && Sum([1]) == Sum([]) + 1;
    RepeatSum(next, iters);
  }

  /** Yet not every wrapped count shows: a single element adds nothing however often it is
      visited. */
  lemma {:induction false} OneElementAgrees(t: nat)
    ensures Sum([0]) == 0 && Sum(Visits([0], 0, t)) == 0
  {
    if t > 0 {
      OneElementAgrees(t - 1);
      assert Visits([0], 0, t)[..t-1] == Visits([0], 0, t - 1);
    }
  }
}
