/** The single-producer single-consumer ring of frame_work/src/spsc_queue.h and
    hft_test/include/spsc_ring.h under arbitrary interleaving.

    Loads, slot accesses and stores are separate steps.  Each index is an atomic variable
    with its whole modification order; an acquire load by the other thread may return any
    value from the one that thread saw last up to the newest, so it may be stale.
    */
module Spsc {
  import opened Basics
  import opened Wrapping

  datatype Producer<+T> =
    | Idle
    | Loaded(item: T, head: nat)      // has its own index
    | HasRoom(item: T, head: nat)     // has seen room; about to write the slot
    | Written(item: T, head: nat)     // about to publish

  datatype Consumer<+T> =
    | Resting
    | Polling(tail: nat)              // has its own index
    | HasItem(tail: nat)              // has seen an item; about to read the slot
    | Taken(tail: nat, value: T)      // about to publish

  datatype Ring<T> = Ring(
    n: nat,
    buffer: seq<T>,
    heads: seq<nat>,        // modification order of head_
    tails: seq<nat>,        // modification order of tail_
    pSeen: nat,             // where in `tails` the producer looked last
    cSeen: nat,             // where in `heads` the consumer looked last
    producer: Producer<T>,
    consumer: Consumer<T>,
    wild: bool,             // a slot outside the buffer has been touched
    pushed: seq<T>,         // what the completed pushes have put in
    popped: seq<T>)         // what the completed pops have given back

  datatype Event<+T> =
    | BeginPush(item: T)
    | LoadTail(k: nat)      // acquire load that reads the k-th value of tail_
    | WriteSlot
    | StoreHead
    | BeginPop
    | LoadHead(k: nat)      // acquire load that reads the k-th value of head_
    | ReadSlot
    | StoreTail

  predicate WellSized<T>(s: Ring<T>)
  {
    IsPowerOfTwo(s.n) && |s.buffer| == s.n && s.heads != [] && s.tails != []
  }

  predicate Enabled<T>(s: Ring<T>, e: Event<T>)
    requires WellSized(s)
  {
    match e
    case BeginPush(_) => s.producer.Idle?
    case LoadTail(k) => s.producer.Loaded? && s.pSeen <= k < |s.tails|
    case WriteSlot => s.producer.HasRoom?
    case StoreHead => s.producer.Written?
    case BeginPop => s.consumer.Resting?
    case LoadHead(k) => s.consumer.Polling? && s.cSeen <= k < |s.heads|
    case ReadSlot => s.consumer.HasItem?
    case StoreTail => s.consumer.Taken?
  }

  function Apply<T(==)>(s: Ring<T>, e: Event<T>): Ring<T>
    requires WellSized(s) && Enabled(s, e)
  {
    match e
    case BeginPush(item) => s.(producer := Loaded(item, s.heads[|s.heads|-1]))
    case LoadTail(k) =>
      var p := s.producer;
      var full := And(p.head + 1, s.n - 1) == s.tails[k];
      s.(pSeen := k, producer := if full then Idle else HasRoom(p.item, p.head))
    case WriteSlot =>
      var p := s.producer;
      if p.head < |s.buffer| then s.(buffer := s.buffer[p.head := p.item], producer := Written(p.item, p.head))
      else s.(wild := true)
    case StoreHead =>
      var p := s.producer;
      s.(heads := s.heads + [And(p.head + 1, s.n - 1)], pushed := s.pushed + [p.item], producer := Idle)
    case BeginPop => s.(consumer := Polling(s.tails[|s.tails|-1]))
    case LoadHead(k) =>
      var c := s.consumer;
      var empty := c.tail == s.heads[k];
      s.(cSeen := k, consumer := if empty then Resting else HasItem(c.tail))
    case ReadSlot =>
      var c := s.consumer;
      if c.tail < |s.buffer| then s.(consumer := Taken(c.tail, s.buffer[c.tail]))
      else s.(wild := true)
    case StoreTail =>
      var c := s.consumer;
      s.(tails := s.tails + [And(c.tail + 1, s.n - 1)], popped := s.popped + [c.value], consumer := Resting)
  }

  predicate Initial<T>(s: Ring<T>)
  {
    && WellSized(s)
    && s.heads == [0] && s.tails == [0] && s.pSeen == 0 && s.cSeen == 0
    && s.producer == Idle && s.consumer == Resting && !s.wild
    && s.pushed == [] && s.popped == []
  }

  // ---------- The invariant ----------

  /** The items published and not yet given back. */
  function Queued<T>(s: Ring<T>): seq<T>
    requires |s.popped| <= |s.pushed|
  {
    s.pushed[|s.popped|..]
  }

  /** The modification order of an index: it starts at slot 0 and goes round. */
  predicate InOrder(order: seq<nat>, n: nat)
    requires n > 0
  {
    forall i | 0 <= i < |order| :: order[i] == Slot(i, n)
  }

  lemma OrderGoesOn(order: seq<nat>, n: nat, last: nat)
    requires IsPowerOfTwo(n) && order != [] && InOrder(order, n) && last == Slot(|order| - 1, n)
    ensures InOrder(order + [And(last + 1, n - 1)], n)
  {
    NextSlot(|order| - 1, n);
  }

  predicate Indices<T>(s: Ring<T>)
  {
    && IsPowerOfTwo(s.n) && |s.buffer| == s.n && !s.wild
    && |s.heads| == |s.pushed| + 1 && |s.tails| == |s.popped| + 1
    && InOrder(s.heads, s.n) && InOrder(s.tails, s.n)
    && s.pSeen <= |s.popped| <= s.cSeen <= |s.pushed| < s.pSeen + s.n
  }

  predicate Threads<T(==)>(s: Ring<T>)
    requires Indices(s)
  {
    && (!s.producer.Idle? ==> s.producer.head == Slot(|s.pushed|, s.n))
    && (s.producer.HasRoom? || s.producer.Written? ==> |s.pushed| + 1 < s.pSeen + s.n)
    && (s.producer.Written? ==> s.buffer[s.producer.head] == s.producer.item)
    && (!s.consumer.Resting? ==> s.consumer.tail == Slot(|s.popped|, s.n))
    && (s.consumer.HasItem? || s.consumer.Taken? ==> |s.popped| < s.cSeen)
    && (s.consumer.Taken? ==> s.consumer.value == s.pushed[|s.popped|])
  }

  predicate Stored<T(==)>(s: Ring<T>)
    requires Indices(s)
  {
    && s.popped <= s.pushed
    && (forall i | |s.popped| <= i < |s.pushed| :: s.buffer[Slot(i, s.n)] == s.pushed[i])
  }

  predicate Inv<T(==)>(s: Ring<T>)
  {
    Indices(s) && Threads(s) && Stored(s)
  }

  lemma InitialInv<T>(s: Ring<T>)
    requires Initial(s)
    ensures Inv(s)
  {
  }

  lemma WriteSlotKeepsInv<T>(s: Ring<T>)
    requires Inv(s) && Enabled(s, WriteSlot)
    ensures Inv(Apply(s, WriteSlot))
  {
    forall i | |s.popped| <= i < |s.pushed| ensures Slot(i, s.n) != s.producer.head {
      SlotIsFree(i, |s.pushed|, s.n);
    }
  }

  lemma StoreHeadKeepsInv<T>(s: Ring<T>)
    requires Inv(s) && Enabled(s, StoreHead)
    ensures Inv(Apply(s, StoreHead))
  {
    OrderGoesOn(s.heads, s.n, s.producer.head);
  }

  lemma LoadTailKeepsInv<T>(s: Ring<T>, k: nat)
    requires Inv(s) && Enabled(s, LoadTail(k))
    ensures Inv(Apply(s, LoadTail(k)))
    ensures Apply(s, LoadTail(k)).producer.Idle? <==> |s.pushed| - k == s.n - 1
  {
    FullTest(k, |s.pushed|, s.n);
  }

  lemma ReadSlotKeepsInv<T>(s: Ring<T>)
    requires Inv(s) && Enabled(s, ReadSlot)
    ensures Inv(Apply(s, ReadSlot))
  {
    assert s.buffer[Slot(|s.popped|, s.n)] == s.pushed[|s.popped|];
  }

  lemma StoreTailKeepsInv<T>(s: Ring<T>)
    requires Inv(s) && Enabled(s, StoreTail)
    ensures Inv(Apply(s, StoreTail))
  {
    var s' := Apply(s, StoreTail);
    OrderGoesOn(s.tails, s.n, s.consumer.tail);
    assert s.popped == s.pushed[..|s.popped|];
    assert s'.popped == s.pushed[..|s.popped| + 1];
  }

  lemma LoadHeadKeepsInv<T>(s: Ring<T>, k: nat)
    requires Inv(s) && Enabled(s, LoadHead(k))
    ensures Inv(Apply(s, LoadHead(k)))
    ensures Apply(s, LoadHead(k)).consumer.Resting? <==> |s.popped| == k
  {
    EmptyTest(|s.popped|, k, s.n);
  }

  lemma StepKeepsInv<T>(s: Ring<T>, e: Event<T>)
    requires Inv(s) && Enabled(s, e)
    ensures Inv(Apply(s, e))
  {
    match e
    case LoadTail(k) => LoadTailKeepsInv(s, k);
    case LoadHead(k) => LoadHeadKeepsInv(s, k);
    case BeginPush(_) =>
    case WriteSlot => WriteSlotKeepsInv(s);
    case StoreHead => StoreHeadKeepsInv(s);
    case BeginPop =>
    case ReadSlot => ReadSlotKeepsInv(s);
    case StoreTail => StoreTailKeepsInv(s);
  }

  // ---------- Runs ----------

  /** The two threads can go from `s` to `t` by these steps. */
  predicate Run<T(==)>(s: Ring<T>, events: seq<Event<T>>, t: Ring<T>)
    decreases |events|
  {
    if events == [] then s == t
    else WellSized(s) && Enabled(s, events[0]) && Run(Apply(s, events[0]), events[1..], t)
  }

  lemma {:induction false} RunKeepsInv<T>(s: Ring<T>, events: seq<Event<T>>, t: Ring<T>)
    requires Inv(s) && Run(s, events, t)
    ensures Inv(t)
    decreases |events|
  {
    if events != [] {
      StepKeepsInv(s, events[0]);
      RunKeepsInv(Apply(s, events[0]), events[1..], t);
    }
  }

  // ---------- What the calls were ----------

  /** The item of the last call to `push` that began, if any did. */
  function LastOffered<T>(events: seq<Event<T>>, before: Option<T>): Option<T>
    decreases |events|
  {
    if events == [] then before
    else LastOffered(events[1..], if events[0].BeginPush? then Some(events[0].item) else before)
  }

  /** The arguments of the calls to `push` that published: for every store to `head_` the item of
      the last call that began before it. */
  function Published<T>(events: seq<Event<T>>, before: Option<T>): seq<T>
    decreases |events|
  {
    if events == [] then []
    else match events[0]
      case BeginPush(item) => Published(events[1..], Some(item))
      case StoreHead => (if before.Some? then [before.value] else []) + Published(events[1..], before)
      case _ => Published(events[1..], before)
  }

  /** How many calls to `pop` have given an item back. */
  function Returned<T>(events: seq<Event<T>>): nat
  {
    if events == [] then 0 else (if events[0].StoreTail? then 1 else 0) + Returned(events[1..])
  }

  /** A push in progress works on the item `o`. */
  predicate WorksOn<T(==)>(s: Ring<T>, o: Option<T>)
  {
    s.producer.Idle? || o == Some(s.producer.item)
  }

  lemma {:induction false} RunPublishes<T>(s: Ring<T>, events: seq<Event<T>>, t: Ring<T>, before: Option<T>)
    requires Inv(s) && Run(s, events, t) && WorksOn(s, before)
    ensures t.pushed == s.pushed + Published(events, before)
    ensures |t.popped| == |s.popped| + Returned(events)
    ensures WorksOn(t, LastOffered(events, before))
    decreases |events|
  {
    if events == [] {
      assert s.pushed + [] == s.pushed;
    } else {
      var u := Apply(s, events[0]);
      var now := if events[0].BeginPush? then Some(events[0].item) else before;
      StepKeepsInv(s, events[0]);
      RunPublishes(u, events[1..], t, now);
      if events[0].StoreHead? {
        ConcatAssociative(s.pushed, [before.value], Published(events[1..], before));
      }
    }
  }

  /** First in, first out, as the callers see it: what has been popped is the first so many of
      the arguments that were published, and never more than `n - 1` of them wait. */
  lemma FifoSafety<T>(s: Ring<T>, events: seq<Event<T>>, t: Ring<T>)
    requires Initial(s) && Run(s, events, t)
    ensures Returned(events) <= |Published(events, None)| <= Returned(events) + t.n - 1
    ensures t.pushed == Published(events, None)
    ensures t.popped == Published(events, None)[..Returned(events)]
  {
    InitialInv(s);
    RunKeepsInv(s, events, t);
    RunPublishes(s, events, t, None);
    assert [] + Published(events, None) == Published(events, None);
  }

  /** No step of a run touches a slot outside the buffer, nor is one about to. */
  lemma SlotsAreInRange<T>(s: Ring<T>, events: seq<Event<T>>, t: Ring<T>)
    requires Initial(s) && Run(s, events, t)
    ensures !t.wild
    ensures t.producer.HasRoom? ==> t.producer.head < |t.buffer|
    ensures t.consumer.HasItem? ==> t.consumer.tail < |t.buffer|
  {
    InitialInv(s);
    RunKeepsInv(s, events, t);
  }

  /** The slot accesses never race: the two threads are never about to touch the same slot,
      the producer has seen the consumer give its slot back, and the consumer has seen the
      producer publish its item. */
  lemma SlotsDoNotRace<T>(s: Ring<T>, events: seq<Event<T>>, t: Ring<T>)
    requires Initial(s) && Run(s, events, t)
    ensures Inv(t)
    ensures t.producer.HasRoom? && t.consumer.HasItem? ==> t.producer.head != t.consumer.tail
    ensures t.producer.HasRoom? ==>
              && |t.pushed| - t.n < t.pSeen
              && forall i | t.pSeen <= i < |t.pushed| :: Slot(i, t.n) != t.producer.head
    ensures t.consumer.HasItem? ==> |t.popped| < t.cSeen && t.buffer[t.consumer.tail] == t.pushed[|t.popped|]
  {
    InitialInv(s);
    RunKeepsInv(s, events, t);
    if t.producer.HasRoom? {
      forall i | t.pSeen <= i < |t.pushed| ensures Slot(i, t.n) != t.producer.head {
        SlotIsFree(i, |t.pushed|, t.n);
      }
    }
  }

  /** Both `size` functions count the queued items when nothing happens between their two
      loads. */
  lemma SizesAreExact<T>(s: Ring<T>, events: seq<Event<T>>, t: Ring<T>)
    requires Initial(s) && Run(s, events, t)
    ensures Inv(t)
    ensures var head, tail := t.heads[|t.heads|-1], t.tails[|t.tails|-1];
            && And(head + t.n - tail, t.n - 1) == |t.pushed| - |t.popped|
            && (if head >= tail then head - tail else t.n - (tail - head)) == |t.pushed| - |t.popped|
  {
    InitialInv(s);
    RunKeepsInv(s, events, t);
    SizeFormulas(|t.popped|, |t.pushed|, t.n);
  }

  // ---------- The ring refines an atomic bounded queue ----------

  lemma QueueGrows<T>(pushed: seq<T>, popped: nat, item: T)
    requires popped <= |pushed|
    ensures (pushed + [item])[popped..] == pushed[popped..] + [item]
  {
  }

  lemma QueueShrinks<T>(pushed: seq<T>, popped: nat)
    requires popped < |pushed|
    ensures pushed[popped..] == [pushed[popped]] + pushed[popped + 1..]
  {
  }

  lemma StepRefinesFifo<T>(s: Ring<T>, e: Event<T>)
    requires Inv(s) && Enabled(s, e)
    ensures Inv(Apply(s, e))
    ensures var q, q' := Queued(s), Queued(Apply(s, e));
            && (e.StoreHead? ==> |q| < s.n - 1 && q' == q + [s.producer.item])
            && (e.StoreTail? ==> q == [s.consumer.value] + q')
            && (!e.StoreHead? && !e.StoreTail? ==> q' == q)
    ensures e.LoadTail? ==> (Apply(s, e).producer.Idle? <==> |s.pushed[e.k..]| == s.n - 1)
    ensures e.LoadHead? ==> (Apply(s, e).consumer.Resting? <==> e.k == |s.popped|)
  {
    StepKeepsInv(s, e);
    match e
    case StoreHead => QueueGrows(s.pushed, |s.popped|, s.producer.item);
    case StoreTail => QueueShrinks(s.pushed, |s.popped|);
    case LoadTail(k) => LoadTailKeepsInv(s, k);
    case LoadHead(k) => LoadHeadKeepsInv(s, k);
    case _ =>
  }

  /** After any run, the next step is a step of the queue or leaves it alone: a store to `head_`
      puts the argument of the push in progress at the end, a store to `tail_` takes the front
      item, which is what the pop returns.  A push returns false only when the queue held
      `n - 1` items at the load it made; with an up-to-date load it does so exactly when the
      queue is full.  The same holds for a pop and emptiness. */
  lemma StepRefinesQueue<T>(s: Ring<T>, events: seq<Event<T>>, t: Ring<T>, e: Event<T>)
    requires Initial(s) && Run(s, events, t) && WellSized(t) && Enabled(t, e)
    ensures Inv(t) && Inv(Apply(t, e)) && Returned(events) <= |Published(events, None)|
    ensures var q, q' := Queued(t), Queued(Apply(t, e));
            && q == Published(events, None)[Returned(events)..]
            && (e.StoreHead? ==> |q| < t.n - 1 && LastOffered(events, None).Some? && q' == q + [LastOffered(events, None).value])
            && (e.StoreTail? ==> q == [t.consumer.value] + q')
            && (!e.StoreHead? && !e.StoreTail? ==> q' == q)
    ensures e.LoadTail? ==> (Apply(t, e).producer.Idle? <==> |t.pushed[e.k..]| == t.n - 1)
    ensures e.LoadTail? && e.k == |t.tails| - 1 ==> (Apply(t, e).producer.Idle? <==> |Queued(t)| == t.n - 1)
    ensures e.LoadHead? ==> (Apply(t, e).consumer.Resting? <==> e.k == |t.popped|)
    ensures e.LoadHead? && e.k == |t.heads| - 1 ==> (Apply(t, e).consumer.Resting? <==> Queued(t) == [])
  {
    InitialInv(s);
    RunKeepsInv(s, events, t);
    RunPublishes(s, events, t, None);
    FifoSafety(s, events, t);
    StepRefinesFifo(t, e);
  }

  // ---------- Calls run to their end ----------

  lemma {:induction false} RunFour<T>(s: Ring<T>, a: Event<T>, b: Event<T>, c: Event<T>, d: Event<T>)
    requires WellSized(s) && Enabled(s, a)
    requires var s1 := Apply(s, a); WellSized(s1) && Enabled(s1, b)
    requires var s2 := Apply(Apply(s, a), b); WellSized(s2) && Enabled(s2, c)
    requires var s3 := Apply(Apply(Apply(s, a), b), c); WellSized(s3) && Enabled(s3, d)
    ensures Run(s, [a, b, c, d], Apply(Apply(Apply(Apply(s, a), b), c), d))
  {
    var s1 := Apply(s, a);
    var s2 := Apply(s1, b);
    var s3 := Apply(s2, c);
    var s4 := Apply(s3, d);
    assert [d][1..] == [] && Run(s4, [], s4) && Run(s3, [d], s4);
    assert [c, d][1..] == [d] && Run(s2, [c, d], s4);
    assert [b, c, d][1..] == [c, d] && Run(s1, [b, c, d], s4);
    assert [a, b, c, d][1..] == [b, c, d];
  }

  /** Whatever has happened, a producer that is idle and finds room can push any item, whatever
      the consumer is in the middle of. */
  lemma PushCompletes<T>(s: Ring<T>, item: T) returns (t: Ring<T>)
    requires Inv(s) && s.producer.Idle? && |Queued(s)| < s.n - 1
    ensures Run(s, [BeginPush(item), LoadTail(|s.tails| - 1), WriteSlot, StoreHead], t)
    ensures Inv(t) && Queued(t) == Queued(s) + [item] && t.producer.Idle? && t.consumer == s.consumer
    ensures t.pSeen == |s.tails| - 1 && t.tails == s.tails && t.n == s.n
  {
    var load: Event<T> := LoadTail(|s.tails| - 1);
    var s1 := Apply(s, BeginPush(item));
    StepRefinesFifo(s, BeginPush(item));
    var s2 := Apply(s1, load);
    StepRefinesFifo(s1, load);
    var s3 := Apply(s2, WriteSlot);
    StepRefinesFifo(s2, WriteSlot);
    t := Apply(s3, StoreHead);
    StepRefinesFifo(s3, StoreHead);
    RunFour(s, BeginPush(item), load, WriteSlot, StoreHead);
  }

  /** So can a consumer that finds an item pop it. */
  lemma PopCompletes<T>(s: Ring<T>) returns (t: Ring<T>)
    requires Inv(s) && s.consumer.Resting? && Queued(s) != []
    ensures Run(s, [BeginPop, LoadHead(|s.heads| - 1), ReadSlot, StoreTail], t)
    ensures Inv(t) && |t.popped| == |s.popped| + 1 && Queued(s) == [t.popped[|s.popped|]] + Queued(t)
    ensures t.consumer.Resting? && t.producer == s.producer
    ensures t.pSeen == s.pSeen && |t.tails| == |s.tails| + 1 && t.n == s.n
  {
    var load: Event<T> := LoadHead(|s.heads| - 1);
    var s1 := Apply(s, BeginPop);
    StepRefinesFifo(s, BeginPop);
    var s2 := Apply(s1, load);
    StepRefinesFifo(s1, load);
    var s3 := Apply(s2, ReadSlot);
    StepRefinesFifo(s2, ReadSlot);
    t := Apply(s3, StoreTail);
    StepRefinesFifo(s3, StoreTail);
    RunFour(s, BeginPop, load, ReadSlot, StoreTail);
  }

  /** A stale load makes a push fail although the ring is empty: two slots, an item pushed and
      popped, and a second push that still sees the old `tail_`. */
  lemma StalePushFails<T>(s: Ring<T>, x: T, y: T) returns (t: Ring<T>)
    requires Initial(s) && s.n == 2
    ensures Run(s, [BeginPush(x), LoadTail(0), WriteSlot, StoreHead] + [BeginPop, LoadHead(1), ReadSlot, StoreTail]
                   + [BeginPush(y), LoadTail(0)], t)
    ensures Inv(t) && Queued(t) == [] && t.producer.Idle?
  {
    InitialInv(s);
    var pushed := PushCompletes(s, x);
    var popped := PopCompletes(pushed);
    t := StaleLoad(popped, y);
    var push: seq<Event<T>> := [BeginPush(x), LoadTail(0), WriteSlot, StoreHead];
    var pop: seq<Event<T>> := [BeginPop, LoadHead(1), ReadSlot, StoreTail];
    RunsOn(s, push, pushed, pop, popped);
    RunsOn(s, push + pop, popped, [BeginPush(y), LoadTail(0)], t);
  }

  lemma StaleLoad<T>(s: Ring<T>, y: T) returns (t: Ring<T>)
    requires Inv(s) && s.producer.Idle? && s.n == 2 && |s.pushed| == 1 && s.pSeen == 0 && Queued(s) == []
    ensures Run(s, [BeginPush(y), LoadTail(0)], t)
    ensures Inv(t) && Queued(t) == [] && t.producer.Idle?
  {
    var loading := Apply(s, BeginPush(y));
    StepRefinesFifo(s, BeginPush(y));
    t := Apply(loading, LoadTail(0));
    StepRefinesFifo(loading, LoadTail(0));
    assert loading.pushed[0..] == loading.pushed;
    var both: seq<Event<T>> := [BeginPush(y), LoadTail(0)];
    assert both[1..] == [LoadTail(0)] && both[1..][1..] == [];
    assert Run(t, [], t) && Run(loading, both[1..], t);
  }

  lemma {:induction false} RunsOn<T>(s: Ring<T>, a: seq<Event<T>>, t: Ring<T>, b: seq<Event<T>>, u: Ring<T>)
    requires Run(s, a, t) && Run(t, b, u)
    ensures Run(s, a + b, u)
    decreases |a|
  {
    if a == [] {
      assert a + b == b;
    } else {
      assert (a + b)[1..] == a[1..] + b;
      RunsOn(Apply(s, a[0]), a[1..], t, b, u);
    }
  }

  // ---------- The class, one call at a time ----------

  /** The items number `from` to `to` of a ring buffer. */
  function Window<T>(buffer: seq<T>, from: nat, to: nat): (q: seq<T>)
    requires |buffer| > 0 && from <= to
    ensures |q| == to - from
  {
    seq(to - from, i requires 0 <= i < to - from => buffer[Slot(from + i, |buffer|)])
  }

  lemma WindowPush<T>(buffer: seq<T>, from: nat, to: nat, item: T)
    requires |buffer| > 0 && from <= to && to - from < |buffer| - 1
    ensures Window(buffer[Slot(to, |buffer|) := item], from, to + 1) == Window(buffer, from, to) + [item]
  {
    forall i | from <= i < to ensures Slot(i, |buffer|) != Slot(to, |buffer|) {
      SlotIsFree(i, to, |buffer|);
    }
  }

  lemma WindowPop<T>(buffer: seq<T>, from: nat, to: nat)
    requires |buffer| > 0 && from < to
    ensures Window(buffer, from, to) == [buffer[Slot(from, |buffer|)]] + Window(buffer, from + 1, to)
  {
  }

  class SpscQueue<T(0)> {
    const buffer: array<T>
    var head: nat
    var tail: nat
    ghost var pushes: nat      // completed pushes
    ghost var pops: nat        // completed pops

    ghost predicate Valid()
      reads this, buffer
    {
      && IsPowerOfTwo(buffer.Length)
      && pops <= pushes < pops + buffer.Length
      && head == Slot(pushes, buffer.Length) && tail == Slot(pops, buffer.Length)
    }

    ghost function Contents(): (q: seq<T>)
      requires Valid()
      reads this, buffer
      ensures |q| == pushes - pops
    {
      Window(buffer[..], pops, pushes)
    }

    constructor (capacity: nat)
      requires IsPowerOfTwo(capacity)
      ensures Valid() && fresh(buffer) && buffer.Length == capacity && Contents() == []
    {
      buffer := new T[capacity];
      head, tail, pushes, pops := 0, 0, 0, 0;
    }

    method Push(item: T) returns (ok: bool)
      requires Valid()
      modifies this, buffer
      ensures Valid()
      ensures ok <==> |old(Contents())| < buffer.Length - 1
      ensures Contents() == if ok then old(Contents()) + [item] else old(Contents())
    {
      ghost var n, before := buffer.Length, buffer[..];
      FullTest(pops, pushes, n);
      NextSlot(pushes, n);
      var next := And(head + 1, buffer.Length - 1);
      if next == tail {
        return false;
      }
      buffer[head] := item;
      assert buffer[..] == before[head := item];
      WindowPush(before, pops, pushes, item);
      head := next;
      pushes := pushes + 1;
      return true;
    }

    method Pop() returns (ok: bool, out: T)
      requires Valid()
      modifies this
      ensures Valid()
      ensures ok <==> old(Contents()) != []
      ensures ok ==> old(Contents()) == [out] + Contents()
      ensures !ok ==> Contents() == old(Contents())
    {
      ghost var n := buffer.Length;
      EmptyTest(pops, pushes, n);
      NextSlot(pops, n);
      out := buffer[tail];
      if tail == head {
        return false, out;
      }
      tail := And(tail + 1, buffer.Length - 1);
      WindowPop(buffer[..], pops, pushes);
      pops := pops + 1;
      ok := true;
    }

    method Size() returns (size: nat)
      requires Valid()
      ensures size == |Contents()|
    {
      SizeFormulas(pops, pushes, buffer.Length);
      size := And(head + buffer.Length - tail, buffer.Length - 1);
    }

    /** `SPSCRing::size` */
    method RingSize() returns (size: nat)
      requires Valid()
      ensures size == |Contents()|
    {
      SizeFormulas(pops, pushes, buffer.Length);
      size := if head >= tail then head - tail else buffer.Length - (tail - head);
    }
  }
}
