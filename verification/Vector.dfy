/** The growing array `my_vec` of std_vector/vector_basic.cpp.

    The class owns its block; every operation is proved against a sequence and a capacity,
    and whatever pushes and pops follow each other, the reallocations move fewer than two
    elements per push.  The three-way comparison is a total order that agrees with ==.
    */
module Vector {

  datatype Ordering = Less | Equal | Greater

  // ---------- What pushes and pops do ----------

  /** `moved` counts the elements that reallocations carried over. */
  datatype Shape<T> = Shape(items: seq<T>, cap: nat, moved: nat)

  function Reserved<T>(s: Shape<T>, cap: nat): Shape<T>
  {
    if cap <= s.cap then s else Shape(s.items, cap, s.moved + |s.items|)
  }

  function Pushed<T>(s: Shape<T>, x: T): Shape<T>
  {
    var room := if |s.items| == s.cap then Reserved(s, if s.cap != 0 then s.cap * 2 else 1) else s;
    room.(items := s.items + [x])
  }

  datatype Op<T> = Push(x: T) | Pop

  /** No pop meets an empty vector. */
  predicate Legal<T>(size: nat, ops: seq<Op<T>>)
    decreases |ops|
  {
    ops == [] || if ops[0].Push? then Legal(size + 1, ops[1..]) else size > 0 && Legal(size - 1, ops[1..])
  }

  function Run<T>(s: Shape<T>, ops: seq<Op<T>>): Shape<T>
    requires Legal(|s.items|, ops)
    decreases |ops|
  {
    if ops == [] then s
    else
      match ops[0]
      case Push(x) => Run(Pushed(s, x), ops[1..])
      case Pop => Run(s.(items := s.items[..|s.items|-1]), ops[1..])
  }

  function Pushes<T>(ops: seq<Op<T>>): nat
  {
    if ops == [] then 0 else (if ops[0].Push? then 1 else 0) + Pushes(ops[1..])
  }

  /** The items are those of a plain stack. */
  function Stack<T>(items: seq<T>, ops: seq<Op<T>>): seq<T>
    requires Legal(|items|, ops)
    decreases |ops|
  {
    if ops == [] then items
    else if ops[0].Push? then Stack(items + [ops[0].x], ops[1..])
    else Stack(items[..|items|-1], ops[1..])
  }

  /** The growth so far, from `start` slots and at most `peak` items at any time. */
  predicate Grown<T>(s: Shape<T>, start: nat, peak: nat)
  {
    && |s.items| <= s.cap && |s.items| <= peak
    && start <= s.cap
    && s.moved == (if start == 0 then (if s.cap == 0 then 0 else s.cap - 1) else s.cap - start)
    && (s.cap <= start || s.cap == 1 || s.cap <= 2 * (peak - 1))
  }

  lemma {:induction false} RunGrows<T>(s: Shape<T>, ops: seq<Op<T>>, start: nat, peak: nat)
    requires Legal(|s.items|, ops) && Grown(s, start, peak) && |s.items| + Pushes(ops) <= peak
    ensures Grown(Run(s, ops), start, peak)
    ensures Run(s, ops).items == Stack(s.items, ops)
    decreases |ops|
  {
    if ops != [] {
      match ops[0]
      case Push(x) => RunGrows(Pushed(s, x), ops[1..], start, peak);
      case Pop => RunGrows(s.(items := s.items[..|s.items|-1]), ops[1..], start, peak);
    }
  }

  /** From an empty vector, `p` pushes and any pops move fewer than 2p elements. */
  lemma GrowthIsAmortised<T>(ops: seq<Op<T>>)
    requires Legal(0, ops) && Pushes(ops) >= 1
    ensures var r := Run(Shape([], 0, 0), ops);
            && r.items == Stack([], ops)
            && |r.items| <= r.cap && r.moved < 2 * Pushes(ops)
            && r.moved == if r.cap == 0 then 0 else r.cap - 1
  {
    RunGrows(Shape([], 0, 0), ops, 0, Pushes(ops));
  }

  // ---------- Comparison ----------

  /** `operator<=>`: by size, then at the first difference. */
  function Compare<T(==)>(a: seq<T>, b: seq<T>, cmp: (T, T) -> Ordering): Ordering
  {
    if |a| < |b| then Less else if |a| > |b| then Greater else CompareFrom(a, b, cmp, 0)
  }

  function CompareFrom<T>(a: seq<T>, b: seq<T>, cmp: (T, T) -> Ordering, i: nat): Ordering
    requires |a| == |b| && i <= |a|
    decreases |a| - i
  {
    if i == |a| then Equal else if cmp(a[i], b[i]) != Equal then cmp(a[i], b[i]) else CompareFrom(a, b, cmp, i + 1)
  }

  function Flip(o: Ordering): Ordering
  {
    match o case Less => Greater case Equal => Equal case Greater => Less
  }

  /** A strong ordering of the elements. */
  ghost predicate IsStrongOrder<T(!new)>(cmp: (T, T) -> Ordering)
  {
    && (forall x, y :: cmp(x, y) == Equal <==> x == y)
    && (forall x, y :: cmp(y, x) == Flip(cmp(x, y)))
    && (forall x, y, z :: cmp(x, y) == Less && cmp(y, z) == Less ==> cmp(x, z) == Less)
  }

  /** The first `k` elements agree and the next are ordered. */
  predicate LessAt<T(==)>(a: seq<T>, b: seq<T>, cmp: (T, T) -> Ordering, k: nat)
    requires |a| == |b|
  {
    k < |a| && a[..k] == b[..k] && cmp(a[k], b[k]) == Less
  }

  lemma {:induction false} FirstDifference<T(!new)>(a: seq<T>, b: seq<T>, cmp: (T, T) -> Ordering, i: nat)
    returns (k: nat)
    requires IsStrongOrder(cmp) && |a| == |b| && i <= |a| && a[..i] == b[..i]
    ensures i <= k <= |a| && a[..k] == b[..k]
    ensures k == |a| ==> CompareFrom(a, b, cmp, i) == Equal
    ensures k < |a| ==> a[k] != b[k] && CompareFrom(a, b, cmp, i) == cmp(a[k], b[k])
    decreases |a| - i
  {
    if i == |a| || a[i] != b[i] {
      k := i;
    } else {
      assert a[..i + 1] == a[..i] + [a[i]] && b[..i + 1] == b[..i] + [b[i]];
      k := FirstDifference(a, b, cmp, i + 1);
    }
  }

  /** The order in words: shorter first, else lexicographic. */
  lemma CompareMeans<T(!new)>(a: seq<T>, b: seq<T>, cmp: (T, T) -> Ordering)
    requires IsStrongOrder(cmp)
    ensures Compare(a, b, cmp) == Equal <==> a == b
    ensures Compare(a, b, cmp) == Less <==> |a| < |b| || (|a| == |b| && exists k: nat :: LessAt(a, b, cmp, k))
    ensures Compare(b, a, cmp) == Flip(Compare(a, b, cmp))
  {
    if |a| == |b| {
      var k := FirstDifference(a, b, cmp, 0);
      var k' := FirstDifference(b, a, cmp, 0);
      assert a[..|a|] == a && b[..|b|] == b;
      if k < |a| {
        assert k' == k;
        if cmp(a[k], b[k]) == Less {
          assert LessAt(a, b, cmp, k);
        }
      }
      if j: nat :| LessAt(a, b, cmp, j) {
        assert j < k ==> a[..k][j] == b[..k][j];
        assert k < j ==> a[..j][k] == b[..j][k];
      }
    }
  }

  lemma CompareIsTransitive<T(!new)>(a: seq<T>, b: seq<T>, c: seq<T>, cmp: (T, T) -> Ordering)
    requires IsStrongOrder(cmp) && Compare(a, b, cmp) == Less && Compare(b, c, cmp) == Less
    ensures Compare(a, c, cmp) == Less
  {
    CompareMeans(a, b, cmp);
    CompareMeans(b, c, cmp);
    CompareMeans(a, c, cmp);
    if |a| == |b| == |c| {
      var j: nat :| LessAt(a, b, cmp, j);
      var k: nat :| LessAt(b, c, cmp, k);
      var m := if j < k then j else k;
      assert a[..j][..m] == a[..m] && b[..j][..m] == b[..m] && b[..k][..m] == b[..m] && c[..k][..m] == c[..m];
      assert j < k ==> b[..k][j] == c[..k][j];
      assert k < j ==> a[..j][k] == b[..j][k];
      assert LessAt(a, c, cmp, m);
    }
  }

  // ---------- The class ----------

  ghost function OthersIn<T(0)>(owner: map<array<T>, MyVec<T>>, v: MyVec<T>): map<array<T>, MyVec<T>>
  {
    map b | b in owner && owner[b] != v :: owner[b]
  }

  ghost function OwnedIn<T(0)>(owner: map<array<T>, MyVec<T>>, v: MyVec<T>): set<array<T>>
  {
    set b | b in owner && owner[b] == v
  }

  /** What a null or single block amounts to. */
  ghost function Only<T>(block: array?<T>): set<array<T>>
  {
    if block == null then {} else {block}
  }

  ghost function Without<T(0)>(owner: map<array<T>, MyVec<T>>, block: array?<T>): map<array<T>, MyVec<T>>
  {
    if block == null then owner else owner - {block}
  }

  ghost function With<T(0)>(owner: map<array<T>, MyVec<T>>, block: array?<T>, v: MyVec<T>): map<array<T>, MyVec<T>>
  {
    if block == null then owner else owner[block := v]
  }

  /** A vector gets a new block and gives up the one it had. */
  lemma OwnerReplaces<T(0)>(owner: map<array<T>, MyVec<T>>, v: MyVec<T>, before: array?<T>, after: array<T>)
    requires OwnedIn(owner, v) == Only(before) && after !in owner
    ensures before != null ==> before in owner[after := v]
    ensures OwnedIn(Without(owner[after := v], before), v) == {after}
    ensures OthersIn(Without(owner[after := v], before), v) == OthersIn(owner, v)
  {
    var now := Without(owner[after := v], before);
    assert before != null ==> before in OwnedIn(owner, v);
    assert forall b | b in owner && owner[b] == v :: b in OwnedIn(owner, v);
    assert OthersIn(now, v).Keys == OthersIn(owner, v).Keys;
  }

  /** A block changes hands. */
  lemma OwnerHands<T(0)>(owner: map<array<T>, MyVec<T>>, v: MyVec<T>, o: MyVec<T>, block: array?<T>)
    requires v != o && OwnedIn(owner, v) == {} && OwnedIn(owner, o) == Only(block)
    ensures block != null ==> block in owner
    ensures OwnedIn(With(owner, block, v), v) == Only(block) && OwnedIn(With(owner, block, v), o) == {}
    ensures OthersIn(With(owner, block, v), v) == OthersIn(owner, o)
    ensures OthersIn(owner, o) == OthersIn(owner, v) - Only(block)
  {
    var now := With(owner, block, v);
    assert block != null ==> block in OwnedIn(owner, o);
    assert forall b | b in owner && owner[b] == o :: b in OwnedIn(owner, o);
    assert forall b | b in owner && owner[b] == v :: b in OwnedIn(owner, v);
    assert OthersIn(now, v).Keys == OthersIn(owner, o).Keys;
  }

  lemma OwnerDrops<T(0)>(owner: map<array<T>, MyVec<T>>, v: MyVec<T>, block: array?<T>)
    requires OwnedIn(owner, v) == Only(block)
    ensures block != null ==> block in owner
    ensures OwnedIn(Without(owner, block), v) == {}
    ensures forall o | o != v :: OwnedIn(Without(owner, block), o) == OwnedIn(owner, o)
    ensures OthersIn(Without(owner, block), v) == OthersIn(owner, v)
  {
    var now := Without(owner, block);
    assert block != null ==> block in OwnedIn(owner, v);
    assert forall b | b in owner && owner[b] == v :: b in OwnedIn(owner, v);
    assert OthersIn(now, v).Keys == OthersIn(owner, v).Keys;
  }

  /** `new[]` and `delete[]`, with a ledger of who owns which block. */
  class Blocks<T(0, ==)> {
    ghost var owner: map<array<T>, MyVec<T>>

    constructor ()
      ensures owner == map[]
    {
      owner := map[];
    }

    /** The blocks of everybody else. */
    ghost function Others(v: MyVec<T>): map<array<T>, MyVec<T>>
      reads this
    {
      OthersIn(owner, v)
    }

    /** The blocks of one vector. */
    ghost function Owned(v: MyVec<T>): set<array<T>>
      reads this
    {
      OwnedIn(owner, v)
    }

    method New(n: nat, ghost v: MyVec<T>) returns (block: array<T>)
      modifies this
      ensures fresh(block) && block.Length == n && owner == old(owner)[block := v]
    {
      block := new T[n];
      owner := owner[block := v];
    }

    /** Only a live block is deleted; deleting null does nothing. */
    method Delete(block: array?<T>)
      requires block != null ==> block in owner
      modifies this
      ensures owner == Without(old(owner), block)
    {
      if block != null {
        owner := owner - {block};
      }
    }

    /** A block changes hands. */
    ghost method Hand(block: array?<T>, v: MyVec<T>)
      requires block != null ==> block in owner
      modifies this
      ensures owner == With(old(owner), block, v)
    {
      if block != null {
        owner := owner[block := v];
      }
    }
  }

  class MyVec<T(0, ==)> {
    const blocks: Blocks<T>
    var data: array?<T>
    var size: nat
    var cap: nat
    ghost var moved: nat

    /** The vector owns its block and no other. */
    ghost predicate Valid()
      reads this, blocks
    {
      && size <= cap
      && (if data == null then cap == 0 else data.Length == cap)
      && blocks.Owned(this) == Only(data)
    }

    ghost function View(): Shape<T>
      requires Valid()
      reads this, blocks, data
    {
      Shape(if data == null then [] else data[..size], cap, moved)
    }

    constructor (blocks: Blocks<T>)
      ensures this.blocks == blocks && Valid() && View() == Shape([], 0, 0)
    {
      this.blocks, data, size, cap, moved := blocks, null, 0, 0, 0;
    }

    constructor FromList(blocks: Blocks<T>, il: seq<T>)
      modifies blocks
      ensures this.blocks == blocks && Valid() && View() == Shape(il, |il|, 0) && fresh(data)
      ensures blocks.Others(this) == old(blocks.owner)
    {
      this.blocks, data, size, cap, moved := blocks, null, 0, 0, 0;
      new;
      var block := blocks.New(|il|, this);
      for i := 0 to |il|
        modifies block
        invariant block[..i] == il[..i]
      {
        block[i] := il[i];
      }
      data, size, cap := block, |il|, |il|;
    }

    /** The loop that carries `size` elements to a new block. */
    method CopyOut(from: array?<T>, size: nat, cap: nat) returns (block: array<T>)
      requires size <= cap && if from == null then size == 0 else size <= from.Length
      modifies blocks
      ensures fresh(block) && block.Length == cap && blocks.owner == old(blocks.owner)[block := this]
      ensures block[..size] == if from == null then [] else from[..size]
    {
      block := blocks.New(cap, this);
      if from != null {
        for i := 0 to size
          modifies block
          invariant block[..i] == from[..i]
        {
          block[i] := from[i];
        }
      }
    }

    constructor Copy(o: MyVec<T>)
      requires o.Valid()
      modifies o.blocks
      ensures blocks == o.blocks && Valid() && View() == old(o.View()).(moved := 0) && fresh(data)
      ensures blocks.Others(this) == old(o.blocks.owner)
    {
      blocks, data, size, cap, moved := o.blocks, null, 0, 0, 0;
      new;
      var block := CopyOut(o.data, o.size, o.cap);
      data, size, cap := block, o.size, o.cap;
    }

    /** `delete[] data_`, as the destructor and the move assignment do; the fields are reset, which
        the source leaves to the code that follows. */
    method Release()
      requires Valid()
      modifies this, blocks
      ensures Valid() && View() == Shape([], 0, old(moved)) && data == null
      ensures blocks.Others(this) == old(blocks.Others(this)) && blocks.Owned(this) == {}
      ensures blocks.owner == Without(old(blocks.owner), old(data))
    {
      OwnerDrops(blocks.owner, this, data);
      blocks.Delete(data);
      data, size, cap := null, 0, 0;
    }

    method Assign(o: MyVec<T>)
      requires Valid() && o.Valid() && o.blocks == blocks
      modifies this, blocks
      ensures Valid() && View() == old(o.View()).(moved := old(moved))
      ensures this != o ==> fresh(data)
      ensures blocks.Others(this) == old(blocks.Others(this))
    {
      if this == o {
        return;
      }
      ghost var before := blocks.owner;
      var block := CopyOut(o.data, o.size, o.cap);
      OwnerReplaces(before, this, data, block);
      blocks.Delete(data);
      data, size, cap := block, o.size, o.cap;
    }

    /** The block changes owner and the other vector is left empty. */
    method Steal(o: MyVec<T>)
      requires Valid() && data == null && o.Valid() && o.blocks == blocks && this != o
      modifies this, o, blocks
      ensures Valid() && View() == old(o.View()).(moved := old(moved)) && data == old(o.data)
      ensures o.Valid() && o.View() == Shape([], 0, old(o.moved))
      ensures blocks.Others(this) == old(blocks.Others(o))
    {
      OwnerHands(blocks.owner, this, o, o.data);
      blocks.Hand(o.data, this);
      data, size, cap := o.data, o.size, o.cap;
      o.data := null;
      o.size := 0;
      o.cap := 0;
    }

    constructor Move(o: MyVec<T>)
      requires o.Valid()
      modifies o, o.blocks
      ensures blocks == o.blocks && Valid() && View() == old(o.View()).(moved := 0) && data == old(o.data)
      ensures o.Valid() && o.View() == Shape([], 0, old(o.moved))
      ensures blocks.Others(this) == old(o.blocks.Others(o))
    {
      blocks, data, size, cap, moved := o.blocks, null, 0, 0, 0;
      new;
      Steal(o);
    }

    method MoveAssign(o: MyVec<T>)
      requires Valid() && o.Valid() && o.blocks == blocks
      modifies this, o, blocks
      ensures Valid() && o.Valid()
      ensures this == o ==> View() == old(View()) && blocks.owner == old(blocks.owner)
      ensures this != o ==> View() == old(o.View()).(moved := old(moved)) && o.View() == Shape([], 0, old(o.moved))
      ensures this != o ==> data == old(o.data) && blocks.Others(this) == Without(old(blocks.Others(o)), old(data))
    {
      if this == o {
        return;
      }
      Release();
      Steal(o);
    }

    method Reserve(newCap: nat)
      requires Valid()
      modifies this, blocks
      ensures Valid() && View() == Reserved(old(View()), newCap)
      ensures View().items == old(View().items) && cap == if newCap > old(cap) then newCap else old(cap)
      ensures if newCap <= old(cap) then data == old(data) else fresh(data)
      ensures blocks.Others(this) == old(blocks.Others(this))
    {
      if newCap <= cap {
        return;
      }
      ghost var before := blocks.owner;
      var block := CopyOut(data, size, newCap);
      OwnerReplaces(before, this, data, block);
      blocks.Delete(data);
      data := block;
      cap := newCap;
      moved := moved + size;
    }

    method PushBack(value: T)
      requires Valid()
      modifies this, blocks, data
      ensures Valid() && View() == Pushed(old(View()), value)
      ensures View().items == old(View().items) + [value]
      ensures cap == if old(size) < old(cap) then old(cap) else if old(cap) == 0 then 1 else 2 * old(cap)
      ensures if old(size) < old(cap) then data == old(data) else fresh(data)
      ensures blocks.Others(this) == old(blocks.Others(this))
    {
      var tmp := value;
      if size == cap {
        Reserve(if cap != 0 then cap * 2 else 1);
      }
      data[size] := tmp;
      size := size + 1;
    }

    method PopBack()
      requires Valid() && size > 0
      modifies this
      ensures Valid() && View() == old(View()).(items := old(View().items[..size-1])) && data == old(data)
    {
      size := size - 1;
    }

    method Equals(o: MyVec<T>) returns (r: bool)
      requires Valid() && o.Valid()
      ensures r <==> View().items == o.View().items
    {
      if size != o.size {
        return false;
      }
      for i := 0 to size
        invariant View().items[..i] == o.View().items[..i]
      {
        if data[i] != o.data[i] {
          assert View().items[i] != o.View().items[i];
          return false;
        }
      }
      return true;
    }

    method CompareTo(o: MyVec<T>, cmp: (T, T) -> Ordering) returns (r: Ordering)
      requires Valid() && o.Valid()
      ensures r == Compare(View().items, o.View().items, cmp)
    {
      if size != o.size {
        return if size < o.size then Less else Greater;
      }
      for i := 0 to o.size
        invariant Compare(View().items, o.View().items, cmp) == CompareFrom(View().items, o.View().items, cmp, i)
      {
        var c := cmp(data[i], o.data[i]);
        if c != Equal {
          return c;
        }
      }
      return Equal;
    }
  }

  /** No two vectors share a block. */
  lemma NeverShared<T(0)>(v: MyVec<T>, w: MyVec<T>)
    requires v.blocks == w.blocks && v.Valid() && w.Valid() && v != w && v.data != null
    ensures v.data != w.data
  {
    assert v.data in v.blocks.Owned(v);
  }

  /** What another vector does leaves this one valid: `Valid` depends on the ledger only through
      the blocks this one owns. */
  twostate lemma UntouchedStaysValid<T(0)>(v: MyVec<T>, w: MyVec<T>)
    requires old(v.Valid()) && v != w && v.blocks == w.blocks && unchanged(v)
    requires v.blocks.Others(w) == old(v.blocks.Others(w))
    ensures v.Valid()
  {
    forall b ensures b in v.blocks.Owned(v) <==> b in old(v.blocks.Owned(v)) {
      assert b in v.blocks.Owned(v) ==> b in v.blocks.Others(w);
      assert b in old(v.blocks.Owned(v)) ==> b in old(v.blocks.Others(w));
    }
  }
}
