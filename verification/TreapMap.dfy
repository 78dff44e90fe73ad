/** The pointer structure of treap/treap.hpp: nodes that are relinked in place, allocated
    and deleted.  Each routine is proved to compute its function of module Treap, and the
    ledger of live nodes shows that nothing leaks and nothing is deleted twice.
    */
module TreapMap {
  import opened Basics
  import opened Treap
  import opened TreapHistory

  class Node<V> {
    const key: int
    var value: V
    const priority: Priority
    var left: Node?<V>
    var right: Node?<V>

    ghost var Model: Tree<V>        // the tree that hangs here
    ghost var Repr: set<Node<V>>    // its nodes

    ghost predicate Valid()
      reads this, Repr
      ensures Valid() ==> this in Repr
      decreases Repr
    {
      && this in Repr
      && (left != null ==> left in Repr && left.Repr <= Repr && this !in left.Repr && left.Valid())
      && (right != null ==> right in Repr && right.Repr <= Repr && this !in right.Repr && right.Valid())
      && ReprOf(left) !! ReprOf(right)
      && Repr == {this} + ReprOf(left) + ReprOf(right)
      && Model == Branch(ModelOf(left), key, value, priority, ModelOf(right))
    }

    constructor (key: int, value: V, priority: Priority)
      ensures Valid() && Repr == {this}
      ensures Model == Branch(Leaf, key, value, priority, Leaf)
    {
      this.key, this.value, this.priority := key, value, priority;
      left, right := null, null;
      Model, Repr := Branch(Leaf, key, value, priority, Leaf), {this};
    }

    method SetValue(value: V)
      requires Valid()
      modifies this`value, this`Model
      ensures Valid() && this.value == value && Model == old(Model).(value := value)
    {
      this.value := value;
      Model := Model.(value := value);
    }

    method SetLeft(sub: Node?<V>)
      requires ValidTree(sub) && ValidTree(right)
      requires this !in ReprOf(sub) && this !in ReprOf(right) && ReprOf(sub) !! ReprOf(right)
      modifies this
      ensures Valid() && left == sub && right == old(right) && value == old(value)
      ensures Repr == {this} + ReprOf(sub) + ReprOf(right)
      ensures Model == Branch(ModelOf(sub), key, value, priority, ModelOf(right))
    {
      left := sub;
      Repr := {this} + ReprOf(sub) + ReprOf(right);
      Model := Branch(ModelOf(sub), key, value, priority, ModelOf(right));
    }

    method SetRight(sub: Node?<V>)
      requires ValidTree(left) && ValidTree(sub)
      requires this !in ReprOf(left) && this !in ReprOf(sub) && ReprOf(left) !! ReprOf(sub)
      modifies this
      ensures Valid() && left == old(left) && right == sub && value == old(value)
      ensures Repr == {this} + ReprOf(left) + ReprOf(sub)
      ensures Model == Branch(ModelOf(left), key, value, priority, ModelOf(sub))
    {
      right := sub;
      Repr := {this} + ReprOf(left) + ReprOf(sub);
      Model := Branch(ModelOf(left), key, value, priority, ModelOf(sub));
    }
  }

  ghost function ReprOf<V>(n: Node?<V>): set<Node<V>>
    reads n
  {
    if n == null then {} else n.Repr
  }

  ghost function ModelOf<V>(n: Node?<V>): Tree<V>
    reads n
  {
    if n == null then Leaf else n.Model
  }

  ghost predicate ValidTree<V>(n: Node?<V>)
    reads n, ReprOf(n)
  {
    n != null ==> n.Valid()
  }

  /** `new` and `delete`, with a ledger of what is allocated. */
  class NodeHeap<V> {
    ghost var live: set<Node<V>>

    constructor ()
      ensures live == {}
    {
      live := {};
    }

    method New(key: int, value: V, priority: Priority) returns (n: Node<V>)
      modifies this
      ensures fresh(n) && n.Valid() && n.Repr == {n}
      ensures n.Model == Branch(Leaf, key, value, priority, Leaf)
      ensures live == old(live) + {n}
    {
      n := new Node(key, value, priority);
      live := live + {n};
    }

    method Delete(n: Node<V>)
      requires n in live
      modifies this
      ensures live == old(live) - {n}
    {
      live := live - {n};
    }
  }

  lemma {:induction false} Turn<T>(x: set<T>, y: set<T>, a: set<T>, b: set<T>, c: set<T>)
    ensures x + a + (y + b + c) == y + (x + a + b) + c
    ensures y + (x + a + b) + c == x + a + (y + b + c)
  {
  }

  method RotateLeftInPlace<V>(x: Node<V>) returns (y: Node<V>)
    requires x.Valid() && x.right != null && x.right.Valid()
    modifies x, x.right
    ensures y.Valid() && y.Repr == old(x.Repr)
    ensures y.Model == RotateLeft(old(x.Model))
  {
    y := x.right;
    ghost var t, a, b, c := x.Model, ReprOf(x.left), ReprOf(y.left), ReprOf(y.right);
    assert y.Repr == {y} + b + c && y !in a && t.right == y.Model;
    x.SetRight(y.left);
    assert ReprOf(y.right) == c && ValidTree(y.right);
    y.SetLeft(x);
    Turn({x}, {y}, a, b, c);
  }

  method RotateRightInPlace<V>(y: Node<V>) returns (x: Node<V>)
    requires y.Valid() && y.left != null && y.left.Valid()
    modifies y, y.left
    ensures x.Valid() && x.Repr == old(y.Repr)
    ensures x.Model == RotateRight(old(y.Model))
  {
    x := y.left;
    ghost var t, a, b, c := y.Model, ReprOf(y.right), ReprOf(x.right), ReprOf(x.left);
    assert x.Repr == {x} + c + b && x !in a && t.left == x.Model;
    y.SetLeft(x.right);
    assert ReprOf(x.left) == c && ValidTree(x.left);
    x.SetRight(y);
    Turn({x}, {y}, c, b, a);
  }

  lemma Regroup<T>(n: set<T>, mine: set<T>, other: set<T>, added: set<T>)
    ensures n + (mine + added) + other == n + mine + other + added
  {
  }

  lemma RegroupRight<T>(n: set<T>, other: set<T>, mine: set<T>, added: set<T>)
    ensures n + other + (mine + added) == n + other + mine + added
  {
  }

  lemma RegroupFront<T>(n: set<T>, added: set<T>, mine: set<T>, other: set<T>)
    ensures n + (added + mine) + other == added + (n + mine + other)
  {
  }

  lemma Ungroup<T>(n: set<T>, mine: set<T>, other: set<T>, gone: set<T>)
    requires gone <= mine && n !! mine && other !! mine
    ensures n + (mine - gone) + other == n + mine + other - gone
    ensures n + other + (mine - gone) == n + other + mine - gone
  {
  }

  method RaiseLeftInPlace<V>(node: Node<V>) returns (root: Node<V>)
    requires node.Valid() && node.left != null && node.left.Valid()
    modifies node, node.left
    ensures root.Valid() && root.Repr == old(node.Repr)
    ensures root.Model == Treap.RaiseLeft(old(node.Model))
  {
    root := node;
    if node.left.priority > node.priority {
      root := RotateRightInPlace(node);
    }
  }

  method RaiseRightInPlace<V>(node: Node<V>) returns (root: Node<V>)
    requires node.Valid() && node.right != null && node.right.Valid()
    modifies node, node.right
    ensures root.Valid() && root.Repr == old(node.Repr)
    ensures root.Model == Treap.RaiseRight(old(node.Model))
  {
    root := node;
    if node.right.priority > node.priority {
      root := RotateLeftInPlace(node);
    }
  }

  /** `node->left = sub` and the rotation that may follow. */
  method AttachLeft<V>(node: Node<V>, sub: Node<V>) returns (root: Node<V>)
    requires sub.Valid() && ValidTree(node.right)
    requires node !in sub.Repr && node !in ReprOf(node.right) && sub.Repr !! ReprOf(node.right)
    modifies node, sub
    ensures root.Valid() && root.Repr == {node} + old(sub.Repr) + old(ReprOf(node.right))
    ensures root.Model == Treap.RaiseLeft(Branch(old(sub.Model), node.key, old(node.value), node.priority, old(ModelOf(node.right))))
  {
    node.SetLeft(sub);
    root := RaiseLeftInPlace(node);
  }

  method AttachRight<V>(node: Node<V>, sub: Node<V>) returns (root: Node<V>)
    requires sub.Valid() && ValidTree(node.left)
    requires node !in sub.Repr && node !in ReprOf(node.left) && sub.Repr !! ReprOf(node.left)
    modifies node, sub
    ensures root.Valid() && root.Repr == {node} + old(ReprOf(node.left)) + old(sub.Repr)
    ensures root.Model == Treap.RaiseRight(Branch(old(ModelOf(node.left)), node.key, old(node.value), node.priority, old(sub.Model)))
  {
    node.SetRight(sub);
    root := RaiseRightInPlace(node);
  }

  method InsertInPlace<V>(heap: NodeHeap<V>, node: Node?<V>, key: int, value: V, priority: Priority, assign: bool)
    returns (root: Node<V>, inserted: bool, ghost added: set<Node<V>>)
    requires ValidTree(node)
    modifies heap, ReprOf(node)
    ensures root.Valid()
    ensures root.Model == InsertImpl(old(ModelOf(node)), key, value, priority, assign)
    ensures inserted <==> Find(old(ModelOf(node)), key).None?
    ensures fresh(added) && root.Repr == old(ReprOf(node)) + added
    ensures heap.live == old(heap.live) + added
    decreases ReprOf(node), 1
  {
    if node == null {
      root := heap.New(key, value, priority);
      inserted, added := true, {root};
    } else if key < node.key {
      root, inserted, added := InsertLeft(heap, node, key, value, priority, assign);
    } else if node.key < key {
      root, inserted, added := InsertRight(heap, node, key, value, priority, assign);
    } else {
      if assign {
        node.SetValue(value);
      }
      root, inserted, added := node, false, {};
    }
  }

  method InsertLeft<V>(heap: NodeHeap<V>, node: Node<V>, key: int, value: V, priority: Priority, assign: bool)
    returns (root: Node<V>, inserted: bool, ghost added: set<Node<V>>)
    requires node.Valid() && key < node.key
    modifies heap, node.Repr
    ensures root.Valid()
    ensures root.Model == InsertImpl(old(node.Model), key, value, priority, assign)
    ensures inserted <==> Find(old(node.Model), key).None?
    ensures fresh(added) && root.Repr == old(node.Repr) + added
    ensures heap.live == old(heap.live) + added
    decreases node.Repr, 0
  {
    ghost var mine, other, t := ReprOf(node.left), ReprOf(node.right), node.Model;
    assert t.left == ModelOf(node.left) && t.right == ModelOf(node.right);
    var sub;
    sub, inserted, added := InsertInPlace(heap, node.left, key, value, priority, assign);
    assert ReprOf(node.right) == other && ValidTree(node.right) && added !! other && node !in added;
    Regroup({node}, mine, other, added);
    root := AttachLeft(node, sub);
  }

  method InsertRight<V>(heap: NodeHeap<V>, node: Node<V>, key: int, value: V, priority: Priority, assign: bool)
    returns (root: Node<V>, inserted: bool, ghost added: set<Node<V>>)
    requires node.Valid() && node.key < key
    modifies heap, node.Repr
    ensures root.Valid()
    ensures root.Model == InsertImpl(old(node.Model), key, value, priority, assign)
    ensures inserted <==> Find(old(node.Model), key).None?
    ensures fresh(added) && root.Repr == old(node.Repr) + added
    ensures heap.live == old(heap.live) + added
    decreases node.Repr, 0
  {
    ghost var mine, other, t := ReprOf(node.right), ReprOf(node.left), node.Model;
    assert t.left == ModelOf(node.left) && t.right == ModelOf(node.right);
    var sub;
    sub, inserted, added := InsertInPlace(heap, node.right, key, value, priority, assign);
    assert ReprOf(node.left) == other && ValidTree(node.left) && added !! other && node !in added;
    RegroupRight({node}, other, mine, added);
    root := AttachRight(node, sub);
  }

  method MergeInPlace<V>(a: Node?<V>, b: Node?<V>) returns (root: Node?<V>)
    requires ValidTree(a) && ValidTree(b) && ReprOf(a) !! ReprOf(b)
    modifies ReprOf(a), ReprOf(b)
    ensures ValidTree(root)
    ensures ModelOf(root) == Merge(old(ModelOf(a)), old(ModelOf(b)))
    ensures ReprOf(root) == old(ReprOf(a)) + old(ReprOf(b))
    decreases ReprOf(a) + ReprOf(b), 1
  {
    if a == null {
      root := b;
    } else if b == null {
      root := a;
    } else if a.priority > b.priority {
      MergeUnderRight(a, b);
      root := a;
    } else {
      MergeUnderLeft(a, b);
      root := b;
    }
  }

  method MergeUnderRight<V>(a: Node<V>, b: Node<V>)
    requires a.Valid() && b.Valid() && a.Repr !! b.Repr
    modifies a.Repr, b.Repr
    ensures a.Valid() && a.Repr == old(a.Repr) + old(b.Repr)
    ensures a.Model == old(a.Model).(right := Merge(old(a.Model).right, old(b.Model)))
    decreases a.Repr + b.Repr, 0
  {
    ghost var t, other, mine, added := a.Model, ReprOf(a.left), ReprOf(a.right), b.Repr;
    assert t.left == ModelOf(a.left) && t.right == ModelOf(a.right);
    assert a in a.Repr + b.Repr && a !in mine + added;
    var sub := MergeInPlace(a.right, b);
    assert ReprOf(a.left) == other && ValidTree(a.left);
    a.SetRight(sub);
    RegroupRight({a}, other, mine, added);
  }

  method MergeUnderLeft<V>(a: Node<V>, b: Node<V>)
    requires a.Valid() && b.Valid() && a.Repr !! b.Repr
    modifies a.Repr, b.Repr
    ensures b.Valid() && b.Repr == old(a.Repr) + old(b.Repr)
    ensures b.Model == old(b.Model).(left := Merge(old(a.Model), old(b.Model).left))
    decreases a.Repr + b.Repr, 0
  {
    ghost var t, other, mine, added := b.Model, ReprOf(b.right), ReprOf(b.left), a.Repr;
    assert t.left == ModelOf(b.left) && t.right == ModelOf(b.right);
    assert b in a.Repr + b.Repr && b !in added + mine;
    var sub := MergeInPlace(a, b.left);
    assert ReprOf(b.right) == other && ValidTree(b.right);
    b.SetLeft(sub);
    RegroupFront({b}, added, mine, other);
  }

  method EraseInPlace<V>(heap: NodeHeap<V>, node: Node?<V>, key: int)
    returns (root: Node?<V>, removed: bool, ghost gone: set<Node<V>>)
    requires ValidTree(node) && ReprOf(node) <= heap.live
    modifies heap, ReprOf(node)
    ensures ValidTree(root)
    ensures ModelOf(root) == EraseImpl(old(ModelOf(node)), key)
    ensures removed <==> Find(old(ModelOf(node)), key).Some?
    ensures ReprOf(root) == old(ReprOf(node)) - gone && gone <= old(ReprOf(node))
    ensures heap.live == old(heap.live) - gone
    decreases ReprOf(node), 1
  {
    if node == null {
      root, removed, gone := null, false, {};
    } else if key < node.key {
      removed, gone := EraseLeft(heap, node, key);
      root := node;
    } else if node.key < key {
      removed, gone := EraseRight(heap, node, key);
      root := node;
    } else {
      removed, gone := true, {node};
      root := MergeInPlace(node.left, node.right);
      heap.Delete(node);
    }
  }

  method EraseLeft<V>(heap: NodeHeap<V>, node: Node<V>, key: int) returns (removed: bool, ghost gone: set<Node<V>>)
    requires node.Valid() && node.Repr <= heap.live && key < node.key
    modifies heap, node.Repr
    ensures node.Valid()
    ensures node.Model == EraseImpl(old(node.Model), key)
    ensures removed <==> Find(old(node.Model), key).Some?
    ensures node.Repr == old(node.Repr) - gone && gone <= old(node.Repr)
    ensures heap.live == old(heap.live) - gone
    decreases node.Repr, 0
  {
    ghost var mine, other, t := ReprOf(node.left), ReprOf(node.right), node.Model;
    assert t.left == ModelOf(node.left) && t.right == ModelOf(node.right);
    var sub;
    sub, removed, gone := EraseInPlace(heap, node.left, key);
    assert ReprOf(node.right) == other && ValidTree(node.right);
    node.SetLeft(sub);
    Ungroup({node}, mine, other, gone);
    assert node.Model == t.(left := ModelOf(sub));
  }

  method EraseRight<V>(heap: NodeHeap<V>, node: Node<V>, key: int) returns (removed: bool, ghost gone: set<Node<V>>)
    requires node.Valid() && node.Repr <= heap.live && node.key < key
    modifies heap, node.Repr
    ensures node.Valid()
    ensures node.Model == EraseImpl(old(node.Model), key)
    ensures removed <==> Find(old(node.Model), key).Some?
    ensures node.Repr == old(node.Repr) - gone && gone <= old(node.Repr)
    ensures heap.live == old(heap.live) - gone
    decreases node.Repr, 0
  {
    ghost var mine, other, t := ReprOf(node.right), ReprOf(node.left), node.Model;
    assert t.left == ModelOf(node.left) && t.right == ModelOf(node.right);
    var sub;
    sub, removed, gone := EraseInPlace(heap, node.right, key);
    assert ReprOf(node.left) == other && ValidTree(node.left);
    node.SetRight(sub);
    Ungroup({node}, mine, other, gone);
    assert node.Model == t.(right := ModelOf(sub));
  }

  method DestroySubtree<V>(heap: NodeHeap<V>, node: Node?<V>)
    requires ValidTree(node) && ReprOf(node) <= heap.live
    modifies heap
    ensures heap.live == old(heap.live) - ReprOf(node)
    decreases ReprOf(node)
  {
    if node == null {
      return;
    }
    DestroySubtree(heap, node.left);
    DestroySubtree(heap, node.right);
    heap.Delete(node);
  }

  /** A well-formed tree of live nodes. */
  ghost predicate Rooted<V>(root: Node?<V>, heap: NodeHeap<V>)
    reads root, ReprOf(root), heap
  {
    ValidTree(root) && ReprOf(root) <= heap.live
  }

  /** A treap of this many keys. */
  ghost predicate Sound<V>(t: Tree<V>, size: nat)
  {
    IsTreap(t) && size == |Keys(t)|
  }

  class Map<V> {
    const heap: NodeHeap<V>
    var root: Node?<V>
    var size: nat

    ghost function Nodes(): set<Node<V>>
      reads this`root, root
    {
      ReprOf(root)
    }

    ghost function Tree(): Tree<V>
      reads this`root, root
    {
      ModelOf(root)
    }

    ghost predicate Linked()
      reads this`root, root, Nodes(), heap
    {
      Rooted(root, heap)
    }

    ghost predicate Valid()
      reads this, root, Nodes(), heap
    {
      Linked() && Sound(Tree(), size)
    }

    constructor (heap: NodeHeap<V>)
      ensures Valid() && this.heap == heap && Tree() == Leaf
    {
      this.heap, root, size := heap, null, 0;
      EmptyIsTreap<V>();
    }

    /** The move constructor. */
    constructor Move(other: Map<V>)
      requires other.Valid()
      modifies other
      ensures Valid() && heap == other.heap && Tree() == old(other.Tree()) && Nodes() == old(other.Nodes())
      ensures other.Valid() && other.Tree() == Leaf
    {
      heap, root, size := other.heap, other.root, other.size;
      new;
      other.root, other.size := null, 0;
    }

    /** `root_ = insert_impl(root_, ...)`. */
    method InsertAtRoot(key: int, value: V, priority: Priority, assign: bool) returns (inserted: bool)
      requires Linked()
      modifies this`root, heap, Nodes()
      ensures Linked()
      ensures Tree() == InsertImpl(old(Tree()), key, value, priority, assign)
      ensures inserted <==> Find(old(Tree()), key).None?
      ensures fresh(Nodes() - old(Nodes())) && heap.live - Nodes() == old(heap.live - Nodes())
    {
      var newRoot;
      ghost var added;
      newRoot, inserted, added := InsertInPlace(heap, root, key, value, priority, assign);
      root := newRoot;
    }

    /** `root_ = erase_impl(root_, ...)`. */
    method EraseAtRoot(key: int) returns (removed: bool)
      requires Linked()
      modifies this`root, heap, Nodes()
      ensures Linked()
      ensures Tree() == EraseImpl(old(Tree()), key)
      ensures removed <==> Find(old(Tree()), key).Some?
      ensures Nodes() <= old(Nodes()) && heap.live - Nodes() == old(heap.live - Nodes())
    {
      var newRoot;
      ghost var gone;
      newRoot, removed, gone := EraseInPlace(heap, root, key);
      root := newRoot;
    }

    /** `insert` and, with `assign`, `insert_or_assign`. */
    method Insert(key: int, value: V, priority: Priority, assign: bool) returns (inserted: bool)
      requires Valid()
      modifies this, heap, Nodes()
      ensures Valid()
      ensures Tree() == InsertImpl(old(Tree()), key, value, priority, assign)
      ensures inserted <==> key !in Keys(old(Tree()))
      ensures Entries(Tree()) == ApplyToMap(old(Entries(Tree())), Op.Insert(key, value, priority, assign))
      ensures fresh(Nodes() - old(Nodes())) && heap.live - Nodes() == old(heap.live - Nodes())
    {
      ghost var before, after := Tree(), InsertImpl(Tree(), key, value, priority, assign);
      InsertFacts(before, size, key, value, priority, assign, after);
      inserted := InsertAtRoot(key, value, priority, assign);
      if inserted {
        size := size + 1;
      }
      assert Rooted(root, heap) && Tree() == after && Sound(after, size);
    }

    method Erase(key: int) returns (removed: bool)
      requires Valid()
      modifies this, heap, Nodes()
      ensures Valid()
      ensures Tree() == EraseImpl(old(Tree()), key)
      ensures removed <==> key in Keys(old(Tree()))
      ensures Entries(Tree()) == old(Entries(Tree())) - {key}
      ensures Nodes() <= old(Nodes()) && heap.live - Nodes() == old(heap.live - Nodes())
    {
      ghost var before, after := Tree(), EraseImpl(Tree(), key);
      EraseFacts(before, size, key, after);
      removed := EraseAtRoot(key);
      if removed {
        size := size - 1;
      }
      assert Rooted(root, heap) && Tree() == after && Sound(after, size);
    }

    /** The node that holds the value, as `find` returns a pointer into the node. */
    method FindNode(key: int) returns (node: Node?<V>)
      requires Valid()
      ensures node != null <==> key in Keys(Tree())
      ensures node != null ==>
                && node in Nodes() && node.key == key
                && Find(Tree(), key) == Some(Entry(node.value, node.priority))
    {
      node := root;
      while node != null && node.key != key
        invariant ValidTree(node) && ReprOf(node) <= Nodes()
        invariant Find(ModelOf(node), key) == Find(Tree(), key)
        decreases ReprOf(node)
      {
        node := if key < node.key then node.left else node.right;
      }
      FindKeys(Tree(), key);
    }

    method Clear()
      requires Valid()
      modifies this, heap
      ensures Valid() && Tree() == Leaf && root == null && size == 0
      ensures heap.live == old(heap.live - Nodes())
    {
      DestroySubtree(heap, root);
      root := null;
      size := 0;
    }

    /** The nodes change owner and the other map is left empty. */
    method Take(other: Map<V>)
      requires Tree() == Leaf && root == null && other.Valid() && other.heap == heap && other != this
      modifies this, other
      ensures Valid() && Tree() == old(other.Tree()) && Nodes() == old(other.Nodes())
      ensures other.Valid() && other.Tree() == Leaf
    {
      ghost var t := other.Tree();
      EmptyIsTreap<V>();
      root, size := other.root, other.size;
      other.root, other.size := null, 0;
      assert Rooted(root, heap) && Tree() == t;
      assert Rooted(other.root, heap) && other.Tree() == Leaf;
    }

    /** The move assignment: the old nodes are deleted, the others change owner. */
    method MoveFrom(other: Map<V>)
      requires Valid() && other.Valid() && other.heap == heap
      requires other != this ==> Nodes() !! other.Nodes()
      modifies this, other, heap
      ensures Valid() && other.Valid() && Tree() == old(other.Tree()) && Nodes() == old(other.Nodes())
      ensures other != this ==> other.Tree() == Leaf && heap.live == old(heap.live - Nodes())
      ensures other == this ==> heap.live == old(heap.live)
    {
      if this == other {
        return;
      }
      Clear();
      Take(other);
    }
  }

  lemma EmptyIsTreap<V>()
    ensures Sound(Tree<V>.Leaf, 0)
  {
  }

  lemma {:induction false} InsertFacts<V>(t: Tree<V>, size: nat, key: int, value: V, priority: Priority, assign: bool,
      u: Tree<V>)
    requires Sound(t, size) && u == InsertImpl(t, key, value, priority, assign)
    ensures Sound(u, if Find(t, key).None? then size + 1 else size)
    ensures Entries(u) == ApplyToMap(Entries(t), Op.Insert(key, value, priority, assign))
    ensures Find(t, key).Some? <==> key in Keys(t)
  {
    FindKeys(t, key);
    ApplyRefinesMap(t, Op.Insert(key, value, priority, assign));
    InsertKeys(t, key, value, priority, assign);
    assert key in Keys(t) ==> Keys(t) + {key} == Keys(t);
  }

  lemma {:induction false} EraseFacts<V>(t: Tree<V>, size: nat, key: int, u: Tree<V>)
    requires Sound(t, size) && u == EraseImpl(t, key)
    ensures Find(t, key).Some? ==> size > 0
    ensures Sound(u, if Find(t, key).Some? then size - 1 else size)
    ensures Entries(u) == Entries(t) - {key}
    ensures Find(t, key).Some? <==> key in Keys(t)
  {
    FindKeys(t, key);
    ApplyRefinesMap(t, Op.Erase(key));
    EraseKeys(t, key);
    assert key !in Keys(t) ==> Keys(t) - {key} == Keys(t);
  }
}
