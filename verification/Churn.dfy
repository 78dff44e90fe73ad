/** The allocation churn of perf_lab/malloc_compare.cpp: one thread fills its live set, then
    allocates in batches and frees random live blocks.

    Every block is freed exactly once and only while it is live, a batch leaves the live
    count where it was, and the count never passes the target by more than a batch.
    */
module Churn {
  import opened Basics

  /** A block, by the number of its allocation. */
  type Block = int

  function Higher(a: int, b: int): int
  {
    if a < b then b else a
  }

  /** No block is freed twice, or before it is handed out. */
  ghost predicate Once(freed: seq<Block>, issued: nat)
  {
    forall p :: multiset(freed)[p] <= if 0 <= p < issued then 1 else 0
  }

  /** Handed out and not freed. */
  predicate IsLive(p: Block, issued: nat, freed: seq<Block>)
  {
    0 <= p < issued && p !in freed
  }

  ghost function LiveBlocks(issued: nat, freed: seq<Block>): set<Block>
  {
    set p | 0 <= p < issued && p !in freed
  }

  lemma Split(s: seq<Block>, front: seq<Block>, last: Block)
    requires s == front + [last]
    ensures forall p :: multiset(s)[p] == multiset(front)[p] + if p == last then 1 else 0
    ensures forall p :: p in s <==> p in front || p == last
  {
    assert multiset(s) == multiset(front) + multiset{last};
    assert s[|front|] == last;
    assert forall i | 0 <= i < |front| :: s[i] == front[i];
  }

  lemma OnceMore(freed: seq<Block>, issued: nat, p: Block)
    requires Once(freed, issued) && IsLive(p, issued, freed)
    ensures Once(freed + [p], issued)
  {
    Split(freed + [p], freed, p);
  }

  /** How many blocks are live. */
  lemma {:induction false} LiveCount(issued: nat, freed: seq<Block>)
    requires Once(freed, issued)
    ensures |LiveBlocks(issued, freed)| == issued - |freed|
  {
    if freed == [] {
      assert LiveBlocks(issued, freed) == UpTo(issued);
    } else {
      var last, front := freed[|freed|-1], freed[..|freed|-1];
      assert freed == front + [last];
      Split(freed, front, last);
      assert multiset(freed)[last] == 1;
      LiveCount(issued, front);
      assert LiveBlocks(issued, front) == LiveBlocks(issued, freed) + {last};
    }
  }

  /** The allocator, with its blocks numbered in the order they are handed out. */
  class Ledger {
    var issued: nat
    ghost var freed: seq<Block>
    ghost var peak: int      // the highest number of live blocks so far

    ghost predicate Valid()
      reads this
    {
      Once(freed, issued) && issued - |freed| <= peak
    }

    method Malloc() returns (p: Block)
      requires Valid()
      modifies this
      ensures Valid() && p == old(issued) && issued == old(issued) + 1 && freed == old(freed)
      ensures peak == Higher(old(peak), issued - |freed|)
    {
      p := issued;
      issued := issued + 1;
      if issued - |freed| > peak {
        peak := issued - |freed|;
      }
    }

    /** Only a live block is freed. */
    method Free(p: Block)
      requires Valid() && IsLive(p, issued, freed)
      modifies this
      ensures Valid() && issued == old(issued) && peak == old(peak) && freed == old(freed) + [p]
    {
      OnceMore(freed, issued, p);
      freed := freed + [p];
    }
  }

  /** The thread holds live blocks, each once, from number `first` on. */
  ghost predicate Holds(held: seq<Block>, first: nat, issued: nat, freed: seq<Block>)
  {
    forall p :: multiset(held)[p] + (if first <= p < issued then multiset(freed)[p] else 1) <= 1
  }

  lemma HoldsMore(held: seq<Block>, first: nat, issued: nat, freed: seq<Block>)
    requires Holds(held, first, issued, freed) && Once(freed, issued) && first <= issued
    ensures Holds(held + [issued], first, issued + 1, freed)
  {
    Split(held + [issued], held, issued);
    assert multiset(freed)[issued] == 0 && multiset(held)[issued] == 0;
  }

  /** The swap with the last block. */
  function Drop(held: seq<Block>, idx: nat): seq<Block>
    requires idx < |held|
  {
    held[idx := held[|held|-1]][..|held|-1]
  }

  lemma SwapOut(a: seq<Block>, p: Block, m: seq<Block>, q: Block)
    ensures multiset(a + [q] + m) + multiset{p} == multiset(a + [p] + m + [q])
  {
  }

  lemma CutAt(held: seq<Block>, idx: nat, last: nat)
    requires idx < last == |held| - 1
    ensures held == held[..idx] + [held[idx]] + held[idx + 1..last] + [held[last]]
  {
    assert held == held[..last] + [held[last]];
    assert held[..last] == held[..idx] + held[idx..last];
    assert held[idx..last] == [held[idx]] + held[idx + 1..last];
    ConcatAssociative(held[..idx], [held[idx]], held[idx + 1..last]);
  }

  lemma DropAt(held: seq<Block>, idx: nat, last: nat)
    requires idx < last == |held| - 1
    ensures Drop(held, idx) == held[..idx] + [held[last]] + held[idx + 1..last]
  {
    var r, t := Drop(held, idx), held[..idx] + [held[last]] + held[idx + 1..last];
    assert |r| == last == |t|;
    forall k | 0 <= k < last ensures r[k] == t[k] {
      assert r[k] == held[idx := held[last]][k];
      assert k > idx ==> t[k] == held[idx + 1..last][k - idx - 1];
    }
  }

  lemma DropTakesOne(held: seq<Block>, idx: nat)
    requires idx < |held|
    ensures multiset(Drop(held, idx)) + multiset{held[idx]} == multiset(held)
  {
    var last := |held| - 1;
    if idx == last {
      assert Drop(held, idx) == held[..last] && held == held[..last] + [held[last]];
    } else {
      CutAt(held, idx, last);
      DropAt(held, idx, last);
      SwapOut(held[..idx], held[idx], held[idx + 1..last], held[last]);
    }
  }

  /** Of the blocks held one is freed. */
  lemma HoldsLess(held: seq<Block>, first: nat, issued: nat, freed: seq<Block>, p: Block, rest: seq<Block>)
    requires Holds(held, first, issued, freed) && multiset(rest) + multiset{p} == multiset(held)
    ensures Holds(rest, first, issued, freed + [p]) && IsLive(p, issued, freed)
  {
    Split(freed + [p], freed, p);
    assert multiset(held)[p] >= 1;
    forall q ensures multiset(rest)[q] == multiset(held)[q] - if q == p then 1 else 0 {
      assert multiset(held)[q] == (multiset(rest) + multiset{p})[q];
    }
  }

  // ---------- Which blocks are freed ----------

  function Lower(a: nat, b: nat): nat
  {
    if a < b then a else b
  }

  /** `held` and then `n` blocks numbered from `from` on. */
  function Extended(held: seq<Block>, from: Block, n: nat): (r: seq<Block>)
    ensures |r| == |held| + n
  {
    if n == 0 then held else Extended(held, from, n - 1) + [from + n - 1]
  }

  lemma {:induction false} ExtendedAt(held: seq<Block>, from: Block, n: nat, j: nat)
    requires j < |held| + n
    ensures Extended(held, from, n)[j] == if j < |held| then held[j] else from + (j - |held|)
  {
    if n > 0 && j < |held| + n - 1 {
      ExtendedAt(held, from, n - 1, j);
    }
  }

  /** What is left of `k` after taking away `n` as often as possible. */
  function Cycle(k: nat, n: nat): (r: nat)
    requires n > 0
    ensures r < n
  {
    if k < n then k else Cycle(k - n, n)
  }

  lemma OneRoundMore(j: nat, n: nat, k: nat)
    requires n > 0 && k == j + n
    ensures k % n == j % n
  {
    var q, r := j / n, j % n;
    assert n * (q + 1) == n * q + n;
    QuotientIs(k, n, q + 1, r);
  }

  lemma {:induction false} CycleIsRemainder(k: nat, n: nat)
    requires n > 0
    ensures Cycle(k, n) == k % n
  {
    if k >= n {
      CycleIsRemainder(k - n, n);
      OneRoundMore(k - n, n, k);
    }
  }

  /** The position that pick number `k` names; the picks are used over and over. */
  function Position(picks: seq<nat>, k: nat, size: nat): (idx: nat)
    requires picks != [] && size > 0
    ensures idx < size
  {
    Cycle(picks[Cycle(k, |picks|)], size)
  }

  lemma PositionIs(picks: seq<nat>, k: nat, size: nat)
    requires picks != [] && size > 0
    ensures Position(picks, k, size) == picks[k % |picks|] % size
  {
    CycleIsRemainder(k, |picks|);
    CycleIsRemainder(picks[k % |picks|], size);
  }

  /** What has been freed so far, in order, and what a thread holds. */
  datatype Churned = Churned(freed: seq<Block>, held: seq<Block>)

  /** One free. */
  function FreedAt(s: Churned, idx: nat): (r: Churned)
    requires idx < |s.held|
    ensures |r.held| == |s.held| - 1 && |r.freed| == |s.freed| + 1
  {
    Churned(s.freed + [s.held[idx]], Drop(s.held, idx))
  }

  /** After `n` frees, by the picks from number `k` on. */
  function Frees(s: Churned, picks: seq<nat>, k: nat, n: nat): (r: Churned)
    requires picks != [] && n <= |s.held|
    ensures |r.held| == |s.held| - n && |r.freed| == |s.freed| + n
    decreases n
  {
    if n == 0 then s
    else Frees(FreedAt(s, Position(picks, k, |s.held|)), picks, k + 1, n - 1)
  }

  /** The last block takes the place of the one that goes; the others stay where they are. */
  lemma DropMoves(held: seq<Block>, idx: nat, j: nat)
    requires idx < |held| && j < |held| - 1
    ensures |Drop(held, idx)| == |held| - 1
    ensures Drop(held, idx)[j] == if j == idx then held[|held|-1] else held[j]
  {
  }

  lemma FreedMoves(s: Churned, idx: nat)
    requires idx < |s.held|
    ensures var r := FreedAt(s, idx);
            s.freed <= r.freed && multiset(r.freed) + multiset(r.held) == multiset(s.freed) + multiset(s.held)
  {
    DropTakesOne(s.held, idx);
    assert multiset(s.freed + [s.held[idx]]) == multiset(s.freed) + multiset{s.held[idx]};
  }

  /** A free takes a block from those held to those freed; none is forgotten and none doubled. */
  lemma {:induction false} FreesMove(s: Churned, picks: seq<nat>, k: nat, n: nat)
    requires picks != [] && n <= |s.held|
    ensures var r := Frees(s, picks, k, n);
            s.freed <= r.freed && multiset(r.freed) + multiset(r.held) == multiset(s.freed) + multiset(s.held)
    decreases n
  {
    if n > 0 {
      hide FreedAt;
      var idx := Position(picks, k, |s.held|);
      FreedMoves(s, idx);
      FreesMove(FreedAt(s, idx), picks, k + 1, n - 1);
    }
  }

  lemma {:induction false} FreeStep(s: Churned, picks: seq<nat>, k: nat, n: nat, left: nat, next: Churned)
    requires picks != [] && 0 < n <= |s.held| && left == n - 1 && next == FreedAt(s, Position(picks, k, |s.held|))
    ensures Frees(s, picks, k, n) == Frees(next, picks, k + 1, left)
  {
  }

  // ---------- The thread ----------

  lemma ExtendOne(held: seq<Block>, from: Block, i: nat, now: seq<Block>, next: seq<Block>)
    requires now == Extended(held, from, i) && next == now + [from + i]
    ensures next == Extended(held, from, i + 1)
  {
  }

  /** One allocation. */
  method AllocOne(ledger: Ledger, held: seq<Block>, ghost first: nat) returns (held': seq<Block>)
    requires ledger.Valid() && Holds(held, first, ledger.issued, ledger.freed) && first <= ledger.issued
    modifies ledger
    ensures ledger.Valid() && Holds(held', first, ledger.issued, ledger.freed) && held' == held + [old(ledger.issued)]
    ensures ledger.issued == old(ledger.issued) + 1 && ledger.freed == old(ledger.freed)
    ensures ledger.peak == Higher(old(ledger.peak), ledger.issued - |ledger.freed|)
  {
    HoldsMore(held, first, ledger.issued, ledger.freed);
    var p := ledger.Malloc();
    held' := held + [p];
  }

  /** The allocations of a batch, and the initial fill. */
  method Grow(ledger: Ledger, held: seq<Block>, n: nat, ghost first: nat) returns (held': seq<Block>)
    requires ledger.Valid() && Holds(held, first, ledger.issued, ledger.freed) && first <= ledger.issued
    modifies ledger
    ensures ledger.Valid() && Holds(held', first, ledger.issued, ledger.freed)
    ensures held' == Extended(held, old(ledger.issued), n)
    ensures ledger.issued == old(ledger.issued) + n && ledger.freed == old(ledger.freed)
    ensures ledger.peak == Higher(old(ledger.peak), ledger.issued - |ledger.freed|)
  {
    held' := held;
    ghost var from := ledger.issued;
    for i := 0 to n
      invariant ledger.Valid() && Holds(held', first, ledger.issued, ledger.freed)
      invariant held' == Extended(held, from, i)
      invariant ledger.issued == from + i && ledger.freed == old(ledger.freed)
      invariant ledger.peak == Higher(old(ledger.peak), ledger.issued - |ledger.freed|)
    {
      ghost var now := held';
      held' := AllocOne(ledger, held', first);
      ExtendOne(held, from, i, now, held');
    }
  }

  /** One free, by the next pick, and the swap with the last block. */
  method FreeOne(ledger: Ledger, held: seq<Block>, picks: seq<nat>, freePick: nat, ghost first: nat)
    returns (held': seq<Block>)
    requires ledger.Valid() && Holds(held, first, ledger.issued, ledger.freed) && picks != [] && held != []
    modifies ledger
    ensures ledger.Valid() && Holds(held', first, ledger.issued, ledger.freed)
    ensures Churned(ledger.freed, held') == FreedAt(Churned(old(ledger.freed), held), Position(picks, freePick, |held|))
    ensures ledger.issued == old(ledger.issued) && ledger.peak == old(ledger.peak)
  {
    var pick := picks[freePick % |picks|];
    var idx := pick % |held|;
    PositionIs(picks, freePick, |held|);
    DropTakesOne(held, idx);
    HoldsLess(held, first, ledger.issued, ledger.freed, held[idx], Drop(held, idx));
    ledger.Free(held[idx]);
    held' := held[idx := held[|held|-1]];
    held' := held'[..|held|-1];
  }

  /** The frees of a batch. */
  method Shrink(ledger: Ledger, held: seq<Block>, n: nat, picks: seq<nat>, freePick: nat, ghost first: nat)
    returns (held': seq<Block>, freePick': nat)
    requires ledger.Valid() && Holds(held, first, ledger.issued, ledger.freed) && picks != [] && n <= |held|
    modifies ledger
    ensures ledger.Valid() && Holds(held', first, ledger.issued, ledger.freed)
    ensures Churned(ledger.freed, held') == Frees(Churned(old(ledger.freed), held), picks, freePick, n)
    ensures freePick' == freePick + n && ledger.issued == old(ledger.issued) && ledger.peak == old(ledger.peak)
  {
    held', freePick' := held, freePick;
    ghost var now, end, left := Churned(ledger.freed, held), Frees(Churned(ledger.freed, held), picks, freePick, n), n;
    for i := 0 to n
      invariant ledger.Valid() && Holds(held', first, ledger.issued, ledger.freed)
      invariant now.freed == ledger.freed && now.held == held' && |held'| == |held| - i
      invariant freePick' == freePick + i && left == n - i && Frees(now, picks, freePick', left) == end
      invariant ledger.issued == old(ledger.issued) && ledger.peak == old(ledger.peak)
    {
      held' := FreeOne(ledger, held', picks, freePick', first);
      ghost var next := Churned(ledger.freed, held');
      FreeStep(now, picks, freePick', left, left - 1, next);
      now, left := next, left - 1;
      freePick' := freePick' + 1;
    }
  }

  /** One batch: as many blocks are freed as allocated, and the picks say which. */
  method Batch(ledger: Ledger, held: seq<Block>, batch: nat, picks: seq<nat>, freePick: nat, ghost first: nat)
    returns (held': seq<Block>, freePick': nat)
    requires ledger.Valid() && Holds(held, first, ledger.issued, ledger.freed) && first <= ledger.issued && picks != []
    modifies ledger
    ensures ledger.Valid() && Holds(held', first, ledger.issued, ledger.freed) && |held'| == |held|
    ensures ledger.issued == old(ledger.issued) + batch && freePick' == freePick + batch
    ensures Churned(ledger.freed, held') ==
            Frees(Churned(old(ledger.freed), Extended(held, old(ledger.issued), batch)), picks, freePick, batch)
    ensures ledger.issued - |ledger.freed| == old(ledger.issued - |ledger.freed|)
    ensures ledger.peak == Higher(old(ledger.peak), old(ledger.issued - |ledger.freed|) + batch)
  {
    held' := Grow(ledger, held, batch, first);
    var frees := if batch < |held'| then batch else |held'|;
    held', freePick' := Shrink(ledger, held', frees, picks, freePick, first);
  }

  /** The frees at the end. */
  method Drain(ledger: Ledger, held: seq<Block>, ghost first: nat)
    requires ledger.Valid() && Holds(held, first, ledger.issued, ledger.freed)
    modifies ledger
    ensures ledger.Valid() && ledger.issued == old(ledger.issued) && ledger.peak == old(ledger.peak)
    ensures ledger.freed == old(ledger.freed) + held
  {
    for i := 0 to |held|
      invariant ledger.Valid() && Holds(held[i..], first, ledger.issued, ledger.freed)
      invariant ledger.issued == old(ledger.issued) && ledger.peak == old(ledger.peak)
      invariant ledger.freed == old(ledger.freed) + held[..i]
    {
      assert held[i..] == [held[i]] + held[i + 1..];
      HoldsLess(held[i..], first, ledger.issued, ledger.freed, held[i], held[i + 1..]);
      OneFreedMore(old(ledger.freed), held, i);
      ledger.Free(held[i]);
    }
  }

  lemma OneFreedMore(freed: seq<Block>, held: seq<Block>, i: nat)
    requires i < |held|
    ensures freed + held[..i + 1] == freed + held[..i] + [held[i]]
  {
  }

  // ---------- Batch after batch ----------

  /** After a thread has allocated `left` more blocks, numbered from `next` on, and freed as many,
      batch by batch. */
  function Churns(s: Churned, next: Block, left: nat, batchSize: nat, picks: seq<nat>, k: nat): (r: Churned)
    requires batchSize > 0 && picks != []
    ensures |r.held| == |s.held| && |r.freed| == |s.freed| + left
    decreases left
  {
    if left == 0 then s
    else
      var batch := Lower(batchSize, left);
      Churns(Frees(Churned(s.freed, Extended(s.held, next, batch)), picks, k, batch), next + batch, left - batch, batchSize,
             picks, k + batch)
  }

  lemma {:induction false} ChurnStep(s: Churned, next: Block, left: nat, batchSize: nat, picks: seq<nat>, k: nat, batch: nat,
      u: Churned, next': Block, left': nat, k': nat)
    requires batchSize > 0 && picks != [] && left > 0 && batch == Lower(batchSize, left)
    requires u == Frees(Churned(s.freed, Extended(s.held, next, batch)), picks, k, batch)
    requires next' == next + batch && left' == left - batch && k' == k + batch
    ensures Churns(s, next, left, batchSize, picks, k) == Churns(u, next', left', batchSize, picks, k')
  {
  }

  function Batches(left: nat, batchSize: nat): nat
    requires batchSize > 0
  {
    if left == 0 then 0 else 1 + Batches(left - Lower(batchSize, left), batchSize)
  }

  predicate Leads(freed: seq<Block>, held: seq<Block>, next: Block, left: nat, batchSize: nat, picks: seq<nat>, k: nat,
      end: Churned)
    requires batchSize > 0 && picks != []
  {
    Churns(Churned(freed, held), next, left, batchSize, picks, k) == end
  }

  /** One round of the loop over batches. */
  method Round(ledger: Ledger, held: seq<Block>, left: nat, batchSize: nat, picks: seq<nat>, freePick: nat, ghost first: nat,
      ghost end: Churned)
    returns (held': seq<Block>, batch: nat, freePick': nat)
    requires ledger.Valid() && Holds(held, first, ledger.issued, ledger.freed) && first <= ledger.issued
    requires picks != [] && batchSize > 0 && left > 0
    requires Leads(ledger.freed, held, ledger.issued, left, batchSize, picks, freePick, end)
    modifies ledger
    ensures ledger.Valid() && Holds(held', first, ledger.issued, ledger.freed)
    ensures batch == Lower(batchSize, left) > 0 && ledger.issued == old(ledger.issued) + batch
    ensures ledger.issued - |ledger.freed| == old(ledger.issued - |ledger.freed|)
    ensures ledger.peak == Higher(old(ledger.peak), old(ledger.issued - |ledger.freed|) + batch)
    ensures Leads(ledger.freed, held', ledger.issued, left - batch, batchSize, picks, freePick', end)
  {
    hide Churns, Frees, Extended;
    batch := if batchSize < left then batchSize else left;
    ghost var now, next := Churned(ledger.freed, held), ledger.issued;
    held', freePick' := Batch(ledger, held, batch, picks, freePick, first);
    ChurnStep(now, next, left, batchSize, picks, freePick, batch, Churned(ledger.freed, held'), ledger.issued, left - batch,
              freePick');
  }

  /** The loop over batches, from allocation number `start` on.  `counts` are the numbers of live
      blocks before it and after every batch. */
  method ChurnOn(ledger: Ledger, held: seq<Block>, start: nat, allocs: nat, batchSize: nat, picks: seq<nat>,
      ghost first: nat)
    returns (held': seq<Block>, ghost counts: seq<int>)
    requires ledger.Valid() && Holds(held, first, ledger.issued, ledger.freed) && first <= ledger.issued
    requires picks != [] && batchSize > 0 && start <= allocs
    modifies ledger
    ensures ledger.Valid() && Holds(held', first, ledger.issued, ledger.freed)
    ensures ledger.issued == old(ledger.issued) + (allocs - start)
    ensures Churned(ledger.freed, held') ==
            Churns(Churned(old(ledger.freed), held), old(ledger.issued), allocs - start, batchSize, picks, 0)
    ensures Counted(counts, old(ledger.issued - |ledger.freed|), allocs - start, 0, batchSize)
    ensures ledger.peak == Higher(old(ledger.peak), old(ledger.issued - |ledger.freed|) + Lower(batchSize, allocs - start))
  {
    hide Churns;
    ghost var base, all, top := ledger.issued - |ledger.freed|, allocs - start, ledger.peak;
    ghost var end, left := Churns(Churned(ledger.freed, held), ledger.issued, all, batchSize, picks, 0), all;
    held', counts := held, [base];
    CountNone(base, all, batchSize);
    var allocIdx, freePick := start, 0;
    while allocIdx < allocs
      invariant start <= allocIdx <= allocs && left == allocs - allocIdx
      invariant ledger.Valid() && Holds(held', first, ledger.issued, ledger.freed)
      invariant ledger.issued == old(ledger.issued) + (allocIdx - start) && ledger.issued - |ledger.freed| == base
      invariant Leads(ledger.freed, held', ledger.issued, left, batchSize, picks, freePick, end)
      invariant Counted(counts, base, all, left, batchSize)
      invariant PeakIs(ledger.peak, top, base, all, left, batchSize)
    {
      ghost var peak := ledger.peak;
      var batch;
      held', batch, freePick := Round(ledger, held', allocs - allocIdx, batchSize, picks, freePick, first, end);
      ghost var live, rest := ledger.issued - |ledger.freed|, left - batch;
      PeakStays(peak, top, base, all, left, batchSize, batch, ledger.peak, rest);
      CountOne(counts, base, all, left, batchSize, batch, rest, live, counts + [live]);
      counts, left := counts + [live], rest;
      allocIdx := allocIdx + batch;
    }
    NoMoreChurns(Churned(ledger.freed, held'), ledger.issued, batchSize, picks, freePick);
  }

  lemma NoMoreChurns(s: Churned, next: Block, batchSize: nat, picks: seq<nat>, k: nat)
    requires batchSize > 0 && picks != []
    ensures Churns(s, next, 0, batchSize, picks, k) == s
  {
  }

  /** The peak after some batches: the first is the largest. */
  predicate PeakIs(peak: int, top: int, base: int, all: nat, left: nat, batchSize: nat)
  {
    base <= top && left <= all && peak == if left == all then top else Higher(top, base + Lower(batchSize, all))
  }

  lemma PeakStays(peak: int, top: int, base: int, all: nat, left: nat, batchSize: nat, batch: nat, peak': int, rest: nat)
    requires PeakIs(peak, top, base, all, left, batchSize) && 0 < left && batch == Lower(batchSize, left) > 0
    requires peak' == Higher(peak, base + batch) && rest == left - batch
    ensures PeakIs(peak', top, base, all, rest, batchSize)
  {
  }

  /** The counts so far are all `base`; so many blocks are still to come, in batches. */
  ghost predicate Counted(counts: seq<int>, base: int, all: nat, left: nat, batchSize: nat)
    requires batchSize > 0
  {
    exists rounds: nat :: CountedTo(counts, base, rounds) && rounds + Batches(left, batchSize) == Batches(all, batchSize)
  }

  predicate CountedTo(counts: seq<int>, base: int, rounds: nat)
  {
    counts == Repeat([base], 1 + rounds)
  }

  lemma CountNone(base: int, all: nat, batchSize: nat)
    requires batchSize > 0
    ensures Counted([base], base, all, all, batchSize)
  {
    assert Repeat([base], 1) == Repeat([base], 0) + [base] && Repeat([base], 0) + [base] == [base];
    assert CountedTo([base], base, 0);
  }

  lemma CountOne(counts: seq<int>, base: int, all: nat, left: nat, batchSize: nat, batch: nat, rest: nat, live: int,
      more: seq<int>)
    requires batchSize > 0 && left > 0 && batch == Lower(batchSize, left) && Counted(counts, base, all, left, batchSize)
    requires rest == left - batch && live == base && more == counts + [live]
    ensures Counted(more, base, all, rest, batchSize)
  {
    var rounds: nat :| CountedTo(counts, base, rounds) && rounds + Batches(left, batchSize) == Batches(all, batchSize);
    assert CountedTo(more, base, rounds + 1);
  }

  lemma CountAll(counts: seq<int>, base: int, all: nat, batchSize: nat)
    requires batchSize > 0 && Counted(counts, base, all, 0, batchSize)
    ensures counts == Repeat([base], 1 + Batches(all, batchSize))
  {
  }

  /** The blocks a thread frees, in order: those its picks choose batch by batch, then the ones it
      holds in the end. */
  function ThreadFrees(freed: seq<Block>, issued: nat, warm: nat, left: nat, batchSize: nat, picks: seq<nat>): seq<Block>
    requires batchSize > 0 && picks != []
  {
    var end := Churns(Churned(freed, Extended([], issued, warm)), issued + warm, left, batchSize, picks, 0);
    end.freed + end.held
  }

  /** What one thread does with the allocator; `warm` blocks are its initial fill. */
  method RunThread(ledger: Ledger, allocs: nat, liveSlots: nat, batchSize: nat, picks: seq<nat>)
    returns (warm: nat, ghost counts: seq<int>)
    requires ledger.Valid() && liveSlots > 0 && batchSize > 0 && |picks| == allocs + liveSlots + batchSize
    modifies ledger
    ensures warm == (if liveSlots < allocs then liveSlots else allocs) && ledger.issued == old(ledger.issued) + allocs
    ensures ledger.Valid()
    ensures forall p :: IsLive(p, ledger.issued, ledger.freed) <==> IsLive(p, old(ledger.issued), old(ledger.freed))
    ensures ledger.freed == ThreadFrees(old(ledger.freed), old(ledger.issued), warm, allocs - warm, batchSize, picks)
    ensures counts == Repeat([old(ledger.issued - |ledger.freed|) + warm], 1 + Batches(allocs - warm, batchSize))
    ensures ledger.peak == Higher(old(ledger.peak), old(ledger.issued - |ledger.freed|) + warm + Lower(batchSize, allocs - warm))
  {
    hide Churns;
    ghost var first, freed := ledger.issued, ledger.freed;
    warm := if liveSlots < allocs then liveSlots else allocs;
    var held := Grow(ledger, [], warm, first);
    ghost var base := ledger.issued - |ledger.freed|;
    held, counts := ChurnOn(ledger, held, warm, allocs, batchSize, picks, first);
    CountAll(counts, base, allocs - warm, batchSize);
    Drain(ledger, held, first);
    OnlyOwnFreed(first, freed, warm, allocs - warm, batchSize, picks, ledger.freed);
    LiveAgain(first, freed, ledger.issued, ledger.freed);
  }

  // ---------- The blocks of others ----------

  predicate AllFrom(s: seq<Block>, first: Block)
  {
    forall p | p in s :: first <= p
  }

  /** Nothing before `first` has been freed since `before`. */
  predicate OwnFreed(before: seq<Block>, s: Churned, first: Block)
  {
    before <= s.freed && AllFrom(s.freed[|before|..], first) && AllFrom(s.held, first)
  }

  lemma {:induction false} ExtendedFrom(held: seq<Block>, from: Block, n: nat, first: Block)
    requires AllFrom(held, first) && first <= from
    ensures AllFrom(Extended(held, from, n), first)
  {
    if n > 0 {
      ExtendedFrom(held, from, n - 1, first);
    }
  }

  lemma OwnFreedOne(before: seq<Block>, s: Churned, idx: nat, next: Churned, first: Block)
    requires idx < |s.held| && next == FreedAt(s, idx) && OwnFreed(before, s, first)
    ensures OwnFreed(before, next, first)
  {
    assert next.freed[|before|..] == s.freed[|before|..] + [s.held[idx]];
    assert s.held[idx] in s.held && s.held[|s.held|-1] in s.held;
    forall p | p in next.held ensures p in s.held {
      var k :| 0 <= k < |next.held| && next.held[k] == p;
      assert p == if k == idx then s.held[|s.held|-1] else s.held[k];
    }
  }

  lemma {:induction false} FreesOwn(before: seq<Block>, s: Churned, picks: seq<nat>, k: nat, n: nat, first: Block)
    requires picks != [] && n <= |s.held| && OwnFreed(before, s, first)
    ensures OwnFreed(before, Frees(s, picks, k, n), first)
    decreases n
  {
    if n > 0 {
      hide FreedAt;
      var idx := Position(picks, k, |s.held|);
      var next := FreedAt(s, idx);
      OwnFreedOne(before, s, idx, next, first);
      FreesOwn(before, next, picks, k + 1, n - 1, first);
    }
  }

  lemma {:induction false} RoundOwn(before: seq<Block>, s: Churned, next: Block, batch: nat, picks: seq<nat>, k: nat,
      first: Block, u: Churned)
    requires picks != [] && OwnFreed(before, s, first) && first <= next
    requires u == Frees(Churned(s.freed, Extended(s.held, next, batch)), picks, k, batch)
    ensures OwnFreed(before, u, first)
  {
    hide Frees, Extended;
    ExtendedFrom(s.held, next, batch, first);
    FreesOwn(before, Churned(s.freed, Extended(s.held, next, batch)), picks, k, batch, first);
  }

  lemma {:induction false} ChurnsOwn(before: seq<Block>, s: Churned, next: Block, left: nat, batchSize: nat, picks: seq<nat>,
      k: nat, first: Block)
    requires batchSize > 0 && picks != [] && OwnFreed(before, s, first) && first <= next
    ensures OwnFreed(before, Churns(s, next, left, batchSize, picks, k), first)
    decreases left
  {
    if left == 0 {
      NoMoreChurns(s, next, batchSize, picks, k);
    } else {
      hide OwnFreed, Frees, Extended, Churns;
      var batch := Lower(batchSize, left);
      var u := Frees(Churned(s.freed, Extended(s.held, next, batch)), picks, k, batch);
      var next', left', k' := next + batch, left - batch, k + batch;
      ChurnStep(s, next, left, batchSize, picks, k, batch, u, next', left', k');
      RoundOwn(before, s, next, batch, picks, k, first, u);
      ChurnsOwn(before, u, next', left', batchSize, picks, k', first);
    }
  }

  lemma {:induction false} OnlyOwnFreed(first: nat, freed: seq<Block>, warm: nat, left: nat, batchSize: nat,
      picks: seq<nat>, after: seq<Block>)
    requires batchSize > 0 && picks != []
    requires after == ThreadFrees(freed, first, warm, left, batchSize, picks)
    ensures freed <= after && AllFrom(after[|freed|..], first) && |after| == |freed| + warm + left
  {
    ExtendedFrom([], first, warm, first);
    ChurnsOwn(freed, Churned(freed, Extended([], first, warm)), first + warm, left, batchSize, picks, 0, first);
    var end := Churns(Churned(freed, Extended([], first, warm)), first + warm, left, batchSize, picks, 0);
    assert after[|freed|..] == end.freed[|freed|..] + end.held;
  }

  /** If as many blocks have been freed as handed out, and only those, what was live is live. */
  lemma LiveAgain(issued: nat, freed: seq<Block>, issued': nat, freed': seq<Block>)
    requires Once(freed, issued) && Once(freed', issued') && issued <= issued'
    requires freed <= freed' && AllFrom(freed'[|freed|..], issued) && |freed'| - |freed| == issued' - issued
    ensures forall p :: IsLive(p, issued', freed') <==> IsLive(p, issued, freed)
  {
    var before, after := LiveBlocks(issued, freed), LiveBlocks(issued', freed');
    LiveCount(issued, freed);
    LiveCount(issued', freed');
    assert freed' == freed + freed'[|freed|..];
    assert before <= after;
    if exists p :: p in after && p !in before {
      var p :| p in after && p !in before;
      MoreElements(before, after, p);
      assert false;
    }
    forall p ensures IsLive(p, issued', freed') <==> IsLive(p, issued, freed) {
      assert p in after <==> p in before;
    }
  }

  lemma MoreElements(a: set<Block>, b: set<Block>, p: Block)
    requires a <= b && p in b && p !in a
    ensures |a| < |b|
  {
    assert a + {p} <= b && |a + {p}| == |a| + 1;
    assert b == a + {p} + (b - (a + {p}));
  }

  // ---------- touch ----------

  const STRIDE := 4096
  const MARK: bv8 := 0xA5

  /** `memset` */
  method Fill64(p: array<bv8>, off: nat, len: nat)
    requires off + len <= p.Length
    modifies p
    ensures forall k | 0 <= k < p.Length :: p[k] == if off <= k < off + len then MARK else old(p[k])
  {
    for i := off to off + len
      invariant forall k | 0 <= k < p.Length :: p[k] == if off <= k < i then MARK else old(p[k])
    {
      p[i] := MARK;
    }
  }

  /** Bytes at the start of their page. */
  predicate AtPageStart(k: nat)
  {
    k % 4096 < 64
  }

  lemma PageStarts(off: nat, k: nat)
    requires off % STRIDE == 0 && off <= k < off + STRIDE
    ensures AtPageStart(k) <==> k < off + 64
    ensures (off + STRIDE) % STRIDE == 0
  {
  }

  /** The first 64 bytes of every page of the block are written, and nothing else. */
  method Touch(p: array<bv8>)
    modifies p
    ensures forall k | 0 <= k < p.Length :: p[k] == if AtPageStart(k) then 0xA5 else old(p[k])
  {
    var size := p.Length;
    if size == 0 {
      return;
    }
    var limit := size;
    if limit > STRIDE {
      limit := STRIDE * ((size + STRIDE - 1) / STRIDE);
    }
    var off := 0;
    while off < limit
      invariant off % STRIDE == 0 && 0 <= off <= size + STRIDE - 1
      invariant forall k | 0 <= k < size :: p[k] == if k < off && AtPageStart(k) then MARK else old(p[k])
    {
      var len := if 64 < size - off then 64 else size - off;
      Fill64(p, off, len);
      forall k | off <= k < off + STRIDE ensures AtPageStart(k) <==> k < off + 64 {
        PageStarts(off, k);
      }
      PageStarts(off, off);
      off := off + STRIDE;
    }
  }
}
