/** Runs of insertions and erasures on the treap of treap/treap.hpp.

    Every run implements the corresponding run on a map.  The shape of the tree is
    independent of the run exactly when equal priorities are kept apart by a higher one,
    and erasing a freshly inserted key gives the old tree back exactly when the search path
    meets no equal priority on the other side of the key.
    */
module TreapHistory {
  import opened Basics
  import opened Treap

  ghost function Entries<V>(t: Tree<V>): map<int, Entry<V>>
  {
    map k | k in Keys(t) && Find(t, k).Some? :: Find(t, k).value
  }

  // ---------- Runs ----------

  datatype Op<+V> =
    | Insert(key: int, value: V, priority: Priority, assign: bool)
    | Erase(key: int)

  function Apply<V>(t: Tree<V>, op: Op<V>): Tree<V>
  {
    match op
    case Insert(k, v, p, assign) => InsertImpl(t, k, v, p, assign)
    case Erase(k) => EraseImpl(t, k)
  }

  function Run<V>(t: Tree<V>, ops: seq<Op<V>>): Tree<V>
    decreases |ops|
  {
    if ops == [] then t else Run(Apply(t, ops[0]), ops[1..])
  }

  /** The same operation on a map. */
  function ApplyToMap<V>(m: map<int, Entry<V>>, op: Op<V>): map<int, Entry<V>>
  {
    match op
    case Insert(k, v, p, assign) =>
      var before := if k in m then Some(m[k]) else None;
      m[k := Inserted(before, v, p, assign).value]
    case Erase(k) => m - {k}
  }

  function RunOnMap<V>(m: map<int, Entry<V>>, ops: seq<Op<V>>): map<int, Entry<V>>
    decreases |ops|
  {
    if ops == [] then m else RunOnMap(ApplyToMap(m, ops[0]), ops[1..])
  }

  lemma EntriesAt<V>(t: Tree<V>, k: int)
    requires SearchOrdered(t)
    ensures k in Entries(t) <==> k in Keys(t)
    ensures k in Keys(t) ==> Find(t, k) == Some(Entries(t)[k])
  {
    FindKeys(t, k);
  }

  /** Two treaps that answer every search alike hold the same entries. */
  lemma SameFinds<V>(t: Tree<V>, m: map<int, Entry<V>>)
    requires SearchOrdered(t)
    requires forall j :: Find(t, j) == if j in m then Some(m[j]) else None
    ensures Entries(t) == m
  {
    forall j
      ensures j in Entries(t) <==> j in m
      ensures j in m ==> Entries(t)[j] == m[j]
    {
      EntriesAt(t, j);
      FindKeys(t, j);
    }
  }

  lemma ApplyRefinesMap<V>(t: Tree<V>, op: Op<V>)
    requires IsTreap(t)
    ensures IsTreap(Apply(t, op))
    ensures Entries(Apply(t, op)) == ApplyToMap(Entries(t), op)
  {
    match op {
      case Insert(k, v, p, assign) =>
        InsertKeys(t, k, v, p, assign);
        InsertHeapOrdered(t, k, v, p, assign);
      case Erase(k) =>
        EraseKeys(t, k);
        EraseHeapOrdered(t, k);
    }
    forall j ensures Find(Apply(t, op), j) == if j in ApplyToMap(Entries(t), op) then Some(ApplyToMap(Entries(t), op)[j]) else None {
      EntriesAt(t, op.key);
      EntriesAt(t, j);
      FindKeys(t, op.key);
      FindKeys(t, j);
      match op {
        case Insert(k, v, p, assign) => InsertFind(t, k, v, p, assign, j);
        case Erase(k) => EraseFind(t, k, j);
      }
    }
    SameFinds(Apply(t, op), ApplyToMap(Entries(t), op));
  }

  /** Every run keeps both orders and refines the run on a map. */
  lemma {:induction false} RunRefinesMap<V>(t: Tree<V>, ops: seq<Op<V>>)
    requires IsTreap(t)
    ensures IsTreap(Run(t, ops))
    ensures Entries(Run(t, ops)) == RunOnMap(Entries(t), ops)
    decreases |ops|
  {
    if ops != [] {
      ApplyRefinesMap(t, ops[0]);
      RunRefinesMap(Apply(t, ops[0]), ops[1..]);
    }
  }

  // ---------- The shape ----------

  ghost predicate Tied<V>(m: map<int, Entry<V>>, a: int, b: int)
  {
    a in m && b in m && a < b && m[a].priority == m[b].priority
  }

  ghost predicate Parted<V>(m: map<int, Entry<V>>, a: int, b: int)
    requires a in m
  {
    exists c :: c in m && a < c < b && m[c].priority > m[a].priority
  }

  /** Between any two keys of equal priority lies a key of higher priority. */
  ghost predicate Separated<V>(m: map<int, Entry<V>>)
  {
    forall a, b | Tied(m, a, b) :: Parted(m, a, b)
  }

  ghost function Below<V>(m: map<int, Entry<V>>, key: int): map<int, Entry<V>>
  {
    map k | k in m && k < key :: m[k]
  }

  ghost function Above<V>(m: map<int, Entry<V>>, key: int): map<int, Entry<V>>
  {
    map k | k in m && key < k :: m[k]
  }

  lemma {:induction false} RootIsMaximal<V>(t: Tree<V>, key: int)
    requires HeapOrdered(t) && Find(t, key).Some?
    ensures Find(t, key).value.priority <= RootPriority(t)
  {
    if key < t.key {
      RootIsMaximal(t.left, key);
    } else if t.key < key {
      RootIsMaximal(t.right, key);
    }
  }

  lemma BranchEntries<V>(t: Tree<V>)
    requires SearchOrdered(t) && t.Branch?
    ensures Entries(t.left) == Below(Entries(t), t.key)
    ensures Entries(t.right) == Above(Entries(t), t.key)
    ensures t.key in Entries(t) && Entries(t)[t.key] == Entry(t.value, t.priority)
  {
    var l, r := t.left, t.right;
    forall k
      ensures k in Entries(l) <==> k in Below(Entries(t), t.key)
      ensures k in Entries(l) ==> Entries(l)[k] == Below(Entries(t), t.key)[k]
      ensures k in Entries(r) <==> k in Above(Entries(t), t.key)
      ensures k in Entries(r) ==> Entries(r)[k] == Above(Entries(t), t.key)[k]
    {
      EntriesAt(t, k);
      EntriesAt(l, k);
      EntriesAt(r, k);
    }
  }

  lemma SeparatedParts<V>(m: map<int, Entry<V>>, key: int)
    requires Separated(m)
    ensures Separated(Below(m, key)) && Separated(Above(m, key))
  {
    var lo, hi := Below(m, key), Above(m, key);
    forall a, b | Tied(lo, a, b) ensures Parted(lo, a, b) {
      assert Tied(m, a, b);
      var c :| c in m && a < c < b && m[c].priority > m[a].priority;
      assert c in lo;
    }
    forall a, b | Tied(hi, a, b) ensures Parted(hi, a, b) {
      assert Tied(m, a, b);
      var c :| c in m && a < c < b && m[c].priority > m[a].priority;
      assert c in hi;
    }
  }

  /** The entries determine the tree. */
  lemma {:induction false} TreapIsUnique<V>(t: Tree<V>, u: Tree<V>)
    requires IsTreap(t) && IsTreap(u) && Entries(t) == Entries(u) && Separated(Entries(t))
    ensures t == u
    decreases t
  {
    if t.Branch? {
      EntriesAt(t, t.key);
      EntriesAt(u, t.key);
    }
    if u.Branch? {
      EntriesAt(t, u.key);
      EntriesAt(u, u.key);
    }
    if t.Branch? && u.Branch? {
      RootIsMaximal(t, u.key);
      RootIsMaximal(u, t.key);
      if t.key != u.key {
        var m := Entries(t);
        var a, b := if t.key < u.key then t.key else u.key, if t.key < u.key then u.key else t.key;
        assert Tied(m, a, b);
        var c :| c in m && a < c < b && m[c].priority > m[a].priority;
        EntriesAt(t, c);
        RootIsMaximal(t, c);
        assert false;
      }
      BranchEntries(t);
      BranchEntries(u);
      SeparatedParts(Entries(t), t.key);
      TreapIsUnique(t.left, u.left);
      TreapIsUnique(t.right, u.right);
    }
  }

  // ---------- Ties make the shape depend on the history ----------

  /** `k` has the highest priority of `m`; among equals it is the last or the first. */
  ghost predicate IsTop<V>(m: map<int, Entry<V>>, k: int, last: bool)
  {
    k in m && forall j | j in m ::
      m[j].priority < m[k].priority || (m[j].priority == m[k].priority && if last then j <= k else k <= j)
  }

  lemma SomeKey<V>(m: map<int, V>) returns (k: int)
    requires m != map[]
    ensures k in m
  {
    if forall j :: j !in m.Keys {
      assert false;
    }
    k :| k in m.Keys;
  }

  lemma {:induction false} TopExists<V>(m: map<int, Entry<V>>, last: bool) returns (k: int)
    requires m != map[]
    ensures IsTop(m, k, last)
    decreases |m|
  {
    k := SomeKey(m);
    var rest := m - {k};
    if rest != map[] {
      assert m.Keys == rest.Keys + {k};
      var j := TopExists(rest, last);
      if m[j].priority > m[k].priority || (m[j].priority == m[k].priority && if last then k < j else j < k) {
        k := j;
      }
    } else {
      forall j | j in m ensures j == k { assert j != k ==> j in rest; }
    }
  }

  /** The treap over `m` that puts the last (or the first) of equal priorities on top. */
  ghost function Build<V>(m: map<int, Entry<V>>, last: bool): Tree<V>
    decreases m.Keys
  {
    if m == map[] then Leaf else
      assert exists k :: IsTop(m, k, last) by { var k := TopExists(m, last); }
      var k :| IsTop(m, k, last);
      assert k in m.Keys && k !in Below(m, k).Keys && k !in Above(m, k).Keys;
      Branch(Build(Below(m, k), last), k, m[k].value, m[k].priority, Build(Above(m, k), last))
  }

  lemma BuildStep<V>(m: map<int, Entry<V>>, last: bool) returns (k: int)
    requires m != map[]
    ensures IsTop(m, k, last) && Below(m, k).Keys < m.Keys && Above(m, k).Keys < m.Keys
    ensures Build(m, last) == Branch(Build(Below(m, k), last), k, m[k].value, m[k].priority, Build(Above(m, k), last))
  {
    k := Build(m, last).key;
    assert IsTop(m, k, last);
    assert k in m.Keys && k !in Below(m, k).Keys && k !in Above(m, k).Keys;
  }

  lemma {:induction false} BuildFind<V>(m: map<int, Entry<V>>, last: bool, j: int)
    ensures j in Keys(Build(m, last)) <==> j in m
    ensures Find(Build(m, last), j) == if j in m then Some(m[j]) else None
    decreases m.Keys
  {
    if m != map[] {
      var k := BuildStep(m, last);
      BuildFind(Below(m, k), last, j);
      BuildFind(Above(m, k), last, j);
    }
  }

  lemma {:induction false} BuildOrdered<V>(m: map<int, Entry<V>>, last: bool)
    ensures SearchOrdered(Build(m, last))
    decreases m.Keys
  {
    if m != map[] {
      var k := BuildStep(m, last);
      BuildOrdered(Below(m, k), last);
      BuildOrdered(Above(m, k), last);
      forall j ensures j in Keys(Build(m, last).left) ==> j < k ensures j in Keys(Build(m, last).right) ==> k < j {
        BuildFind(Below(m, k), last, j);
        BuildFind(Above(m, k), last, j);
      }
    }
  }

  lemma {:induction false} BuildHeapOrdered<V>(m: map<int, Entry<V>>, last: bool)
    ensures HeapOrdered(Build(m, last))
    ensures m != map[] ==>
              && Build(m, last).Branch? && Build(m, last).key in m
              && Build(m, last).priority == m[Build(m, last).key].priority
    decreases m.Keys
  {
    if m != map[] {
      var k := BuildStep(m, last);
      BuildHeapOrdered(Below(m, k), last);
      BuildHeapOrdered(Above(m, k), last);
    }
  }

  lemma BuildIsTreap<V>(m: map<int, Entry<V>>, last: bool)
    ensures IsTreap(Build(m, last)) && Entries(Build(m, last)) == m
  {
    BuildOrdered(m, last);
    BuildHeapOrdered(m, last);
    forall j ensures Find(Build(m, last), j) == if j in m then Some(m[j]) else None {
      BuildFind(m, last, j);
    }
    SameFinds(Build(m, last), m);
  }

  lemma {:induction false} SeparatedByTop<V>(m: map<int, Entry<V>>, k: int)
    requires k in m && forall j | j in m && j != k :: m[j].priority < m[k].priority
    requires Separated(Below(m, k)) && Separated(Above(m, k))
    ensures Separated(m)
  {
    var lo, hi := Below(m, k), Above(m, k);
    forall a, b | Tied(m, a, b) ensures Parted(m, a, b) {
      if b < k {
        assert Tied(lo, a, b);
        var c :| c in lo && a < c < b && lo[c].priority > lo[a].priority;
        assert c in m;
      } else if k < a {
        assert Tied(hi, a, b);
        var c :| c in hi && a < c < b && hi[c].priority > hi[a].priority;
        assert c in m;
      } else {
        assert a < k < b && m[k].priority > m[a].priority;
      }
    }
  }

  lemma {:induction false} TiesGiveTwoTreaps<V>(m: map<int, Entry<V>>)
    requires Build(m, true) == Build(m, false)
    ensures Separated(m)
    decreases m.Keys
  {
    if m != map[] {
      var k := BuildStep(m, true);
      var j := BuildStep(m, false);
      TiesGiveTwoTreaps(Below(m, k));
      TiesGiveTwoTreaps(Above(m, k));
      SeparatedByTop(m, k);
    }
  }

  /** Inserting in preorder meets no rotation. */
  function Preorder<V>(t: Tree<V>): seq<Op<V>>
  {
    match t
    case Leaf => []
    case Branch(l, k, v, p, r) => [Insert(k, v, p, false)] + (Preorder(l) + Preorder(r))
  }

  predicate Fits<V>(ops: seq<Op<V>>, key: int, priority: Priority, left: bool)
  {
    forall i | 0 <= i < |ops| ::
      ops[i].Insert? && ops[i].priority <= priority && if left then ops[i].key < key else key < ops[i].key
  }

  lemma {:induction false} InsertRootPriority<V>(t: Tree<V>, key: int, value: V, priority: Priority, assign: bool,
      bound: int)
    requires HeapOrdered(t) && RootPriority(t) <= bound && priority <= bound
    ensures RootPriority(InsertImpl(t, key, value, priority, assign)) <= bound
  {
    match t
    case Leaf =>
    case Branch(l, k, _, _, r) =>
      if key < k {
        InsertRootPriority(l, key, value, priority, assign, bound);
      } else if k < key {
        InsertRootPriority(r, key, value, priority, assign, bound);
      }
  }

  lemma {:induction false} RunBelowRoot<V>(t: Tree<V>, ops: seq<Op<V>>, left: bool)
    requires HeapOrdered(t) && t.Branch? && Fits(ops, t.key, t.priority, left)
    ensures Run(t, ops) == if left then t.(left := Run(t.left, ops)) else t.(right := Run(t.right, ops))
    decreases |ops|
  {
    if ops != [] {
      var op := ops[0];
      var sub := if left then t.left else t.right;
      InsertRootPriority(sub, op.key, op.value, op.priority, op.assign, t.priority);
      InsertHeapOrdered(sub, op.key, op.value, op.priority, op.assign);
      var u := if left then t.(left := Apply(t.left, op)) else t.(right := Apply(t.right, op));
      assert Apply(t, op) == u;
      RunBelowRoot(u, ops[1..], left);
    }
  }

  lemma {:induction false} RunAppend<V>(t: Tree<V>, a: seq<Op<V>>, b: seq<Op<V>>)
    ensures Run(t, a + b) == Run(Run(t, a), b)
    decreases |a|
  {
    if a == [] {
      assert a + b == b;
    } else {
      assert (a + b)[1..] == a[1..] + b;
      RunAppend(Apply(t, a[0]), a[1..], b);
    }
  }

  lemma {:induction false} PreorderFits<V>(t: Tree<V>, key: int, priority: Priority, left: bool)
    requires HeapOrdered(t) && RootPriority(t) <= priority
    requires forall k | k in Keys(t) :: if left then k < key else key < k
    ensures Fits(Preorder(t), key, priority, left)
  {
    if t.Branch? {
      assert t.key in Keys(t) && Keys(t.left) <= Keys(t) && Keys(t.right) <= Keys(t);
      PreorderFits(t.left, key, priority, left);
      PreorderFits(t.right, key, priority, left);
    }
  }

  /** Every treap is the result of some run of insertions. */
  lemma {:induction false} PreorderRebuilds<V>(t: Tree<V>)
    requires IsTreap(t)
    ensures Run(Leaf, Preorder(t)) == t
  {
    if t.Branch? {
      var root := Branch(Leaf, t.key, t.value, t.priority, Leaf);
      var first := Insert(t.key, t.value, t.priority, false);
      var rest := Preorder(t.left) + Preorder(t.right);
      assert Preorder(t)[0] == first && Preorder(t)[1..] == rest;
      assert Apply(Leaf, first) == root;
      RunAppend(root, Preorder(t.left), Preorder(t.right));
      PreorderFits(t.left, t.key, t.priority, true);
      PreorderFits(t.right, t.key, t.priority, false);
      PreorderRebuilds(t.left);
      PreorderRebuilds(t.right);
      RunBelowRoot(root, Preorder(t.left), true);
      RunBelowRoot(root.(left := t.left), Preorder(t.right), false);
    }
  }

  ghost predicate HistoryIndependent<V(!new)>(m: map<int, Entry<V>>)
  {
    forall h: seq<Op<V>>, g: seq<Op<V>> | RunOnMap(map[], h) == m && RunOnMap(map[], g) == m ::
      Run(Leaf, h) == Run(Leaf, g)
  }

  /** All runs that end with the entries `m` end with the same tree if and only if `m` is
      separated. */
  lemma HistoryIndependentExactly<V(!new)>(m: map<int, Entry<V>>)
    ensures HistoryIndependent(m) <==> Separated(m)
  {
    assert IsTreap(Tree<V>.Leaf) && Entries(Tree<V>.Leaf) == map[];
    if Separated(m) {
      forall h: seq<Op<V>>, g: seq<Op<V>> | RunOnMap(map[], h) == m && RunOnMap(map[], g) == m
        ensures Run(Leaf, h) == Run(Leaf, g)
      {
        RunRefinesMap(Leaf, h);
        RunRefinesMap(Leaf, g);
        TreapIsUnique(Run(Leaf, h), Run(Leaf, g));
      }
    }
    if HistoryIndependent(m) {
      var t, u := Build(m, true), Build(m, false);
      BuildIsTreap(m, true);
      BuildIsTreap(m, false);
      PreorderRebuilds(t);
      PreorderRebuilds(u);
      RunRefinesMap(Leaf, Preorder(t));
      RunRefinesMap(Leaf, Preorder(u));
      assert t == u;
      TiesGiveTwoTreaps(m);
    }
  }

  ghost predicate DistinctPriorities<V>(m: map<int, Entry<V>>)
  {
    forall a, b | a in m && b in m && a != b :: m[a].priority != m[b].priority
  }

  lemma RunTwo<V>(t: Tree<V>, m: map<int, Entry<V>>, a: Op<V>, b: Op<V>)
    ensures Run(t, [a, b]) == Apply(Apply(t, a), b)
    ensures RunOnMap(m, [a, b]) == ApplyToMap(ApplyToMap(m, a), b)
  {
    assert [a, b][1..] == [b];
    assert Run(Apply(t, a), [b]) == Apply(Apply(t, a), b);
    assert RunOnMap(ApplyToMap(m, a), [b]) == ApplyToMap(ApplyToMap(m, a), b);
  }

  /** Two equal priorities next to each other are enough for the order of two insertions to
      show. */
  lemma TieShowsHistory<V>(v: V, p: Priority)
    ensures Run(Leaf, [Insert(1, v, p, false), Insert(2, v, p, false)])
         != Run(Leaf, [Insert(2, v, p, false), Insert(1, v, p, false)])
    ensures RunOnMap(map[], [Insert(1, v, p, false), Insert(2, v, p, false)])
         == RunOnMap(map[], [Insert(2, v, p, false), Insert(1, v, p, false)])
  {
    var one, two := Insert(1, v, p, false), Insert(2, v, p, false);
    assert [one, two][1..] == [two] && [two, one][1..] == [one];
    RunTwo(Leaf, map[], one, two);
    RunTwo(Leaf, map[], two, one);
  }

  // ---------- Erasing a fresh insertion ----------

  /** Cut a tree at a key it does not hold, as the rotations of an insertion do. */
  function Split<V>(t: Tree<V>, key: int): (Tree<V>, Tree<V>)
  {
    match t
    case Leaf => (Leaf, Leaf)
    case Branch(l, k, _, _, r) =>
      if key < k then var (a, b) := Split(l, key); (a, t.(left := b))
      else var (a, b) := Split(r, key); (t.(right := a), b)
  }

  /** The priority of the first key above `key` on the search path. */
  function FirstAbove<V>(t: Tree<V>, key: int): int
  {
    match t
    case Leaf => -1
    case Branch(_, k, _, p, r) => if key < k then p else FirstAbove(r, key)
  }

  /** No key below `key` on the search path is followed by an equal priority above it. */
  predicate NoTieAcross<V>(t: Tree<V>, key: int)
  {
    t.Branch? ==>
      if key < t.key then NoTieAcross(t.left, key)
      else FirstAbove(t.right, key) != t.priority && NoTieAcross(t.right, key)
  }

  /** The same, from the place where a node of this priority comes to rest. */
  predicate NoTieBelow<V>(t: Tree<V>, key: int, priority: Priority)
  {
    t.Branch? ==>
      if priority > t.priority then NoTieAcross(t, key)
      else if key < t.key then NoTieBelow(t.left, key, priority)
      else NoTieBelow(t.right, key, priority)
  }

  lemma {:induction false} SplitRoots<V>(t: Tree<V>, key: int)
    requires HeapOrdered(t)
    ensures RootPriority(Split(t, key).0) <= RootPriority(t) && RootPriority(Split(t, key).1) <= RootPriority(t)
    ensures RootPriority(Split(t, key).1) == FirstAbove(t, key)
    ensures Split(t, key).1.Branch? ==> key < Split(t, key).1.key
  {
    if t.Branch? {
      SplitRoots(if key < t.key then t.left else t.right, key);
    }
  }

  lemma {:induction false} MergeSplit<V>(t: Tree<V>, key: int)
    requires HeapOrdered(t)
    ensures Merge(Split(t, key).0, Split(t, key).1) == t <==> NoTieAcross(t, key)
  {
    if t.Branch? {
      var sub := if key < t.key then t.left else t.right;
      MergeSplit(sub, key);
      SplitRoots(sub, key);
      SplitRoots(t, key);
    }
  }

  /** A fresh node of higher priority than the root ends up above the two halves. */
  lemma {:induction false} InsertSplits<V>(t: Tree<V>, key: int, value: V, priority: Priority)
    requires HeapOrdered(t) && SearchOrdered(t) && key !in Keys(t) && priority > RootPriority(t)
    ensures InsertImpl(t, key, value, priority, false)
         == Branch(Split(t, key).0, key, value, priority, Split(t, key).1)
  {
    if t.Branch? {
      InsertSplits(if key < t.key then t.left else t.right, key, value, priority);
    }
  }

  lemma {:induction false} EraseUndoesInsert<V>(t: Tree<V>, key: int, value: V, priority: Priority)
    requires IsTreap(t) && key !in Keys(t)
    ensures EraseImpl(InsertImpl(t, key, value, priority, false), key) == t <==> NoTieBelow(t, key, priority)
  {
    if t.Branch? {
      if priority > t.priority {
        InsertSplits(t, key, value, priority);
        MergeSplit(t, key);
      } else {
        var sub := if key < t.key then t.left else t.right;
        EraseUndoesInsert(sub, key, value, priority);
        InsertRootPriority(sub, key, value, priority, false, t.priority);
      }
    }
  }

  /** With a tie across the path it need not: the keys 1 and 3 of equal priority change places
      when 2 comes and goes. */
  lemma TieBreaksUndo<V>(v: V, p: Priority, q: Priority)
    requires p < q
    ensures var t := Branch(Leaf, 1, v, p, Branch(Leaf, 3, v, p, Leaf));
            IsTreap(t) && EraseImpl(InsertImpl(t, 2, v, q, false), 2) == Branch(Branch(Leaf, 1, v, p, Leaf), 3, v, p, Leaf)
  {
    var three := Branch(Leaf, 3, v, p, Leaf);
    var t := Branch(Leaf, 1, v, p, three);
    assert InsertImpl(three, 2, v, q, false) == Branch(Leaf, 2, v, q, three);
    var one := Branch(Leaf, 1, v, p, Leaf);
    assert InsertImpl(t, 2, v, q, false) == Branch(one, 2, v, q, three);
    assert Merge(one, Leaf) == one;
    assert Merge(one, three) == three.(left := one);
  }

  /** In particular it does when the priorities are pairwise distinct. */
  lemma EraseUndoesInsertWhenDistinct<V>(t: Tree<V>, key: int, value: V, priority: Priority)
    requires IsTreap(t) && key !in Keys(t) && DistinctPriorities(Entries(t))
    ensures EraseImpl(InsertImpl(t, key, value, priority, false), key) == t
  {
    var u := Apply(t, Insert(key, value, priority, false));
    ApplyRefinesMap(t, Insert(key, value, priority, false));
    ApplyRefinesMap(u, Erase(key));
    EntriesAt(t, key);
    assert Entries(t)[key := Entry(value, priority)] - {key} == Entries(t);
    TreapIsUnique(Apply(u, Erase(key)), t);
  }
}
