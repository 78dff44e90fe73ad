/** The treap of treap/treap.hpp as a value: what each recursive routine does to the shape
    of a tree, and what that shape is worth.

    The pointer-manipulating class of TreapMap.dfy is proved to compute exactly these
    functions; this module proves that they keep the search order and the heap order and
    that they implement a map.
    */
module Treap {
  import opened Basics

  /** A value of `std::uniform_int_distribution<std::uint32_t>`. */
  type Priority = p: nat | p < 0x1_0000_0000

  datatype Tree<+V> =
    | Leaf
    | Branch(left: Tree<V>, key: int, value: V, priority: Priority, right: Tree<V>)

  /** What a treap stores under a key. */
  datatype Entry<+V> = Entry(value: V, priority: Priority)

  // ---------- What a tree means ----------

  function Keys<V>(t: Tree<V>): set<int>
  {
    match t
    case Leaf => {}
    case Branch(l, k, _, _, r) => Keys(l) + {k} + Keys(r)
  }

  /** The answer of the search loop in `find`. */
  function Find<V>(t: Tree<V>, key: int): Option<Entry<V>>
  {
    match t
    case Leaf => None
    case Branch(l, k, v, p, r) =>
      if key < k then Find(l, key) else if k < key then Find(r, key) else Some(Entry(v, p))
  }

  ghost predicate SearchOrdered<V>(t: Tree<V>)
  {
    t.Branch? ==>
      && SearchOrdered(t.left) && SearchOrdered(t.right)
      && (forall k | k in Keys(t.left) :: k < t.key)
      && (forall k | k in Keys(t.right) :: t.key < k)
  }

  /** The priority at the root; below every priority for the empty tree. */
  function RootPriority<V>(t: Tree<V>): int
  {
    if t.Leaf? then -1 else t.priority
  }

  predicate HeapOrdered<V>(t: Tree<V>)
  {
    t.Branch? ==>
      && HeapOrdered(t.left) && HeapOrdered(t.right)
      && RootPriority(t.left) <= t.priority
      && RootPriority(t.right) <= t.priority
  }

  ghost predicate IsTreap<V>(t: Tree<V>)
  {
    SearchOrdered(t) && HeapOrdered(t)
  }

  // ---------- The routines ----------

  function RotateLeft<V>(x: Tree<V>): Tree<V>
    requires x.Branch? && x.right.Branch?
  {
    x.right.(left := x.(right := x.right.left))
  }

  function RotateRight<V>(y: Tree<V>): Tree<V>
    requires y.Branch? && y.left.Branch?
  {
    y.left.(right := y.(left := y.left.right))
  }

  function RaiseLeft<V>(t: Tree<V>): Tree<V>
    requires t.Branch?
  {
    if RootPriority(t.left) > t.priority then RotateRight(t) else t
  }

  function RaiseRight<V>(t: Tree<V>): Tree<V>
    requires t.Branch?
  {
    if RootPriority(t.right) > t.priority then RotateLeft(t) else t
  }

  /** `insert_impl`; `priority` is the random draw made when a node is created. */
  function InsertImpl<V>(t: Tree<V>, key: int, value: V, priority: Priority, assign: bool): Tree<V>
  {
    match t
    case Leaf => Branch(Leaf, key, value, priority, Leaf)
    case Branch(l, k, _, p, r) =>
      if key < k then
        RaiseLeft(t.(left := InsertImpl(l, key, value, priority, assign)))
      else if k < key then
        RaiseRight(t.(right := InsertImpl(r, key, value, priority, assign)))
      else if assign then t.(value := value)
      else t
  }

  function Merge<V>(a: Tree<V>, b: Tree<V>): Tree<V>
  {
    if a.Leaf? then b
    else if b.Leaf? then a
    else if a.priority > b.priority then a.(right := Merge(a.right, b))
    else b.(left := Merge(a, b.left))
  }

  function EraseImpl<V>(t: Tree<V>, key: int): Tree<V>
  {
    match t
    case Leaf => Leaf
    case Branch(l, k, _, _, r) =>
      if key < k then t.(left := EraseImpl(l, key))
      else if k < key then t.(right := EraseImpl(r, key))
      else Merge(l, r)
  }

  // ---------- The routines keep the search order ----------

  lemma RotateRightKeys<V>(t: Tree<V>)
    requires SearchOrdered(t) && t.Branch? && t.left.Branch?
    ensures SearchOrdered(RotateRight(t)) && Keys(RotateRight(t)) == Keys(t)
  {
    assert t.left.key in Keys(t.left);
  }

  lemma RotateLeftKeys<V>(t: Tree<V>)
    requires SearchOrdered(t) && t.Branch? && t.right.Branch?
    ensures SearchOrdered(RotateLeft(t)) && Keys(RotateLeft(t)) == Keys(t)
  {
    assert t.right.key in Keys(t.right);
  }

  lemma {:induction false} InsertKeys<V>(t: Tree<V>, key: int, value: V, priority: Priority, assign: bool)
    requires SearchOrdered(t)
    ensures SearchOrdered(InsertImpl(t, key, value, priority, assign))
    ensures Keys(InsertImpl(t, key, value, priority, assign)) == Keys(t) + {key}
  {
    match t
    case Leaf =>
    case Branch(l, k, _, p, r) =>
      if key < k {
        InsertKeys(l, key, value, priority, assign);
        var u := t.(left := InsertImpl(l, key, value, priority, assign));
        if RootPriority(u.left) > p { RotateRightKeys(u); }
      } else if k < key {
        InsertKeys(r, key, value, priority, assign);
        var u := t.(right := InsertImpl(r, key, value, priority, assign));
        if RootPriority(u.right) > p { RotateLeftKeys(u); }
      }
  }

  lemma {:induction false} MergeKeys<V>(a: Tree<V>, b: Tree<V>)
    requires SearchOrdered(a) && SearchOrdered(b)
    requires forall j, k | j in Keys(a) && k in Keys(b) :: j < k
    ensures SearchOrdered(Merge(a, b)) && Keys(Merge(a, b)) == Keys(a) + Keys(b)
    decreases a, b
  {
    if a.Branch? && b.Branch? {
      assert a.key in Keys(a) && b.key in Keys(b);
      if a.priority > b.priority {
        MergeKeys(a.right, b);
      } else {
        MergeKeys(a, b.left);
      }
    }
  }

  lemma {:induction false} EraseKeys<V>(t: Tree<V>, key: int)
    requires SearchOrdered(t)
    ensures SearchOrdered(EraseImpl(t, key)) && Keys(EraseImpl(t, key)) == Keys(t) - {key}
  {
    match t
    case Leaf =>
    case Branch(l, k, _, _, r) =>
      if key < k {
        EraseKeys(l, key);
      } else if k < key {
        EraseKeys(r, key);
      } else {
        MergeKeys(l, r);
      }
  }

  // ---------- The routines implement a map ----------

  lemma {:induction false} FindKeys<V>(t: Tree<V>, key: int)
    requires SearchOrdered(t)
    ensures Find(t, key).Some? <==> key in Keys(t)
  {
    match t
    case Leaf =>
    case Branch(l, k, _, _, r) =>
      FindKeys(l, key);
      FindKeys(r, key);
  }

  /** What an insertion leaves under its own key. */
  function Inserted<V>(before: Option<Entry<V>>, value: V, priority: Priority, assign: bool): Option<Entry<V>>
  {
    match before
    case None => Some(Entry(value, priority))
    case Some(e) => if assign then Some(Entry(value, e.priority)) else before
  }

  lemma {:induction false} InsertFind<V>(t: Tree<V>, key: int, value: V, priority: Priority, assign: bool, j: int)
    requires SearchOrdered(t)
    ensures Find(InsertImpl(t, key, value, priority, assign), j) ==
            if j == key then Inserted(Find(t, key), value, priority, assign) else Find(t, j)
  {
    match t
    case Leaf =>
    case Branch(l, k, _, p, r) =>
      if key < k {
        InsertFind(l, key, value, priority, assign, j);
        InsertKeys(l, key, value, priority, assign);
        assert RootPriority(InsertImpl(l, key, value, priority, assign)) > p ==>
                 InsertImpl(l, key, value, priority, assign).key in Keys(l) + {key};
      } else if k < key {
        InsertFind(r, key, value, priority, assign, j);
        InsertKeys(r, key, value, priority, assign);
        assert RootPriority(InsertImpl(r, key, value, priority, assign)) > p ==>
                 InsertImpl(r, key, value, priority, assign).key in Keys(r) + {key};
      }
  }

  lemma {:induction false} MergeFind<V>(a: Tree<V>, b: Tree<V>, j: int)
    requires SearchOrdered(a) && SearchOrdered(b)
    requires forall i, k | i in Keys(a) && k in Keys(b) :: i < k
    ensures Find(Merge(a, b), j) == if j in Keys(a) then Find(a, j) else Find(b, j)
    decreases a, b
  {
    FindKeys(a, j);
    FindKeys(b, j);
    if a.Branch? && b.Branch? {
      assert a.key in Keys(a) && b.key in Keys(b);
      if a.priority > b.priority {
        MergeFind(a.right, b, j);
      } else {
        MergeFind(a, b.left, j);
      }
    }
  }

  lemma {:induction false} EraseFind<V>(t: Tree<V>, key: int, j: int)
    requires SearchOrdered(t)
    ensures Find(EraseImpl(t, key), j) == if j == key then None else Find(t, j)
  {
    match t
    case Leaf =>
    case Branch(l, k, _, _, r) =>
      if key < k {
        EraseFind(l, key, j);
      } else if k < key {
        EraseFind(r, key, j);
      } else {
        MergeFind(l, r, j);
        FindKeys(l, j);
        FindKeys(r, j);
      }
  }

  // ---------- The routines keep the heap order ----------

  /** Halfway up the recursion only the new node can be out of place: every child of the
      new root is bounded by the old root. */
  lemma {:induction false} InsertHeapOrdered<V>(t: Tree<V>, key: int, value: V, priority: Priority, assign: bool)
    requires HeapOrdered(t)
    ensures var u := InsertImpl(t, key, value, priority, assign);
            && u.Branch? && HeapOrdered(u)
            && RootPriority(u.left) <= RootPriority(t) && RootPriority(u.right) <= RootPriority(t)
            && RootPriority(u) >= RootPriority(t)
  {
    match t
    case Leaf =>
    case Branch(l, k, _, p, r) =>
      if key < k {
        InsertHeapOrdered(l, key, value, priority, assign);
      } else if k < key {
        InsertHeapOrdered(r, key, value, priority, assign);
      }
  }

  lemma {:induction false} MergeHeapOrdered<V>(a: Tree<V>, b: Tree<V>)
    requires HeapOrdered(a) && HeapOrdered(b)
    ensures HeapOrdered(Merge(a, b))
    ensures RootPriority(Merge(a, b)) == if RootPriority(a) > RootPriority(b) then RootPriority(a) else RootPriority(b)
    decreases a, b
  {
    if a.Branch? && b.Branch? {
      if a.priority > b.priority {
        MergeHeapOrdered(a.right, b);
      } else {
        MergeHeapOrdered(a, b.left);
      }
    }
  }

  lemma {:induction false} EraseHeapOrdered<V>(t: Tree<V>, key: int)
    requires HeapOrdered(t)
    ensures HeapOrdered(EraseImpl(t, key)) && RootPriority(EraseImpl(t, key)) <= RootPriority(t)
  {
    match t
    case Leaf =>
    case Branch(l, k, _, _, r) =>
      if key < k {
        EraseHeapOrdered(l, key);
      } else if k < key {
        EraseHeapOrdered(r, key);
      } else {
        MergeHeapOrdered(l, r);
      }
  }
}
