/** Ring indices: counters wrapped by `& (capacity - 1)` when the capacity is a power of two. */
module Wrapping {

  /** Bitwise and. */
  function And(x: nat, y: nat): nat
  {
    if x == 0 || y == 0 then 0 else 2 * And(x / 2, y / 2) + (if x % 2 == 1 && y % 2 == 1 then 1 else 0)
  }

  predicate IsPowerOfTwo(n: nat)
  {
    n == 1 || (n > 0 && n % 2 == 0 && IsPowerOfTwo(n / 2))
  }

  lemma {:induction false} AndSelf(n: nat)
    ensures And(n, n) == n
  {
    if n > 0 {
      AndSelf(n / 2);
    }
  }

  /** The assertion admits the powers of two and no other capacity. */
  lemma {:induction false} AssertionMeansPower(n: nat)
    requires n > 0
    ensures And(n, n - 1) == 0 <==> IsPowerOfTwo(n)
  {
    if n % 2 == 1 {
      AndSelf(n / 2);
      assert n > 1 ==> And(n, n - 1) == 2 * And(n / 2, n / 2);
    } else {
      AssertionMeansPower(n / 2);
      assert And(n, n - 1) == 2 * And(n / 2, n / 2 - 1);
    }
  }

  /** Below twice the capacity the mask subtracts the capacity once if it can. */
  lemma {:induction false} MaskWraps(x: nat, n: nat)
    requires IsPowerOfTwo(n) && x < 2 * n
    ensures And(x, n - 1) == if x < n then x else x - n
  {
    if n > 1 {
      MaskWraps(x / 2, n / 2);
    }
  }

  /** The index of the `i`-th item of a ring of `n` slots. */
  function Slot(i: nat, n: nat): (k: nat)
    requires n > 0
    ensures k < n
  {
    if i == 0 then 0 else if Slot(i - 1, n) + 1 == n then 0 else Slot(i - 1, n) + 1
  }

  lemma NextSlot(i: nat, n: nat)
    requires IsPowerOfTwo(n)
    ensures And(Slot(i, n) + 1, n - 1) == Slot(i + 1, n)
  {
    MaskWraps(Slot(i, n) + 1, n);
  }

  lemma {:induction false} SlotDistance(a: nat, b: nat, n: nat)
    requires n > 0 && a <= b < a + n
    ensures Slot(b, n) == if Slot(a, n) + (b - a) < n then Slot(a, n) + (b - a) else Slot(a, n) + (b - a) - n
    decreases b
  {
    if a < b {
      SlotDistance(a, b - 1, n);
    }
  }

  /** A slot is reused only after `n` items. */
  lemma SlotIsFree(a: nat, b: nat, n: nat)
    requires n > 0 && a < b < a + n
    ensures Slot(a, n) != Slot(b, n)
  {
    SlotDistance(a, b, n);
  }

  /** `next == tail` says that all slots but one are taken. */
  lemma FullTest(a: nat, b: nat, n: nat)
    requires IsPowerOfTwo(n) && a <= b < a + n
    ensures And(Slot(b, n) + 1, n - 1) == Slot(a, n) <==> b - a == n - 1
  {
    NextSlot(b, n);
    SlotDistance(a, b, n);
  }

  /** `tail == head` says that nothing is queued. */
  lemma EmptyTest(a: nat, b: nat, n: nat)
    requires n > 0 && a <= b < a + n
    ensures Slot(a, n) == Slot(b, n) <==> a == b
  {
    SlotDistance(a, b, n);
  }

  /** The number of items between two indices, as both `size` functions compute it. */
  lemma SizeFormulas(a: nat, b: nat, n: nat)
    requires IsPowerOfTwo(n) && a <= b < a + n
    ensures And(Slot(b, n) + n - Slot(a, n), n - 1) == b - a
    ensures (if Slot(b, n) >= Slot(a, n) then Slot(b, n) - Slot(a, n) else n - (Slot(a, n) - Slot(b, n))) == b - a
  {
    SlotDistance(a, b, n);
    MaskWraps(Slot(b, n) + n - Slot(a, n), n);
  }
}
