/** The two ways of counting in `run_lock` of perf_lab/perf_lab.cpp: threads that increment one
    counter under a mutex, in any interleaving, and threads that count for themselves.

    The increment of the shared counter is a load and a store of its own.
    */
module LockCounter {
  import opened Basics
  import opened Words

  /** Where a thread is in its loop; `done` increments are behind it. */
  datatype Thread =
    | Outside(done: nat)
    | Locked(done: nat)                 // holds the mutex; about to load
    | Loaded(done: nat, value: int)     // about to store
    | Stored(done: nat)                 // about to unlock

  datatype State = State(holder: Option<nat>, shared: int, threads: seq<Thread>)

  datatype Step =
    | Lock(t: nat)
    | Load(t: nat)
    | Store(t: nat)
    | Unlock(t: nat)

  predicate Enabled(s: State, step: Step, iters: nat)
  {
    && step.t < |s.threads|
    && var thread := s.threads[step.t];
       match step
       case Lock(_) => thread.Outside? && thread.done < iters && s.holder.None?
       case Load(_) => thread.Locked?
       case Store(_) => thread.Loaded?
       case Unlock(_) => thread.Stored?
  }

  function Apply(s: State, step: Step): State
    requires step.t < |s.threads|
  {
    var thread := s.threads[step.t];
    match step
    case Lock(t) => s.(holder := Some(t), threads := s.threads[t := Locked(thread.done)])
    case Load(t) => s.(threads := s.threads[t := Loaded(thread.done, s.shared)])
    case Store(t) =>
      s.(shared := if thread.Loaded? then Wrap(thread.value + 1) else s.shared,
         threads := s.threads[t := Stored(thread.done + 1)])
    case Unlock(t) => s.(holder := None, threads := s.threads[t := Outside(thread.done)])
  }

  predicate Run(s: State, steps: seq<Step>, t: State, iters: nat)
    decreases |steps|
  {
    if steps == [] then s == t
    else Enabled(s, steps[0], iters) && Run(Apply(s, steps[0]), steps[1..], t, iters)
  }

  predicate Initial(s: State)
  {
    s.holder == None && s.shared == 0 && forall i | 0 <= i < |s.threads| :: s.threads[i] == Outside(0)
  }

  /** All threads have left their loops. */
  predicate Finished(s: State, iters: nat)
  {
    forall i | 0 <= i < |s.threads| :: s.threads[i] == Outside(iters)
  }

  // ---------- The invariant ----------

  function Done(threads: seq<Thread>): int
  {
    if threads == [] then 0 else Done(threads[..|threads|-1]) + threads[|threads|-1].done
  }

  lemma {:induction false} DoneUpdate(threads: seq<Thread>, t: nat, thread: Thread)
    requires t < |threads|
    ensures Done(threads[t := thread]) == Done(threads) - threads[t].done + thread.done
  {
    var last := |threads| - 1;
    if t < last {
      DoneUpdate(threads[..last], t, thread);
      assert threads[t := thread][..last] == threads[..last][t := thread];
    } else {
      assert threads[t := thread][..last] == threads[..last];
    }
  }

  lemma {:induction false} DoneWhenEqual(threads: seq<Thread>, n: nat)
    requires forall i | 0 <= i < |threads| :: threads[i].done == n
    ensures Done(threads) == Sum(Repeat([n], |threads|))
  {
    if threads != [] {
      DoneWhenEqual(threads[..|threads|-1], n);
      SumOfParts(Repeat([n], |threads| - 1), [n]);
      SumOfOne(n);
    }
  }

  /** Only the holder is inside, and what it has loaded is still the counter. */
  predicate Exclusive(s: State)
  {
    forall i | 0 <= i < |s.threads| ::
      && (!s.threads[i].Outside? <==> s.holder == Some(i))
      && (s.threads[i].Loaded? ==> s.threads[i].value == s.shared)
  }

  /** No increment has been lost. */
  predicate Inv(s: State)
  {
    Exclusive(s) && s.shared == Wrap(Done(s.threads)) && (s.holder.Some? ==> s.holder.value < |s.threads|)
  }

  lemma {:induction false} InitialInv(s: State)
    requires Initial(s)
    ensures Inv(s)
  {
    DoneWhenEqual(s.threads, 0);
    RepeatSum([0], |s.threads|);
    SumOfOne(0);
  }

  lemma {:induction false} StepKeepsInv(s: State, step: Step, iters: nat, u: State)
    requires Inv(s) && Enabled(s, step, iters) && u == Apply(s, step)
    ensures Inv(u)
  {
    DoneUpdate(s.threads, step.t, u.threads[step.t]);
    if step.Store? {
      WrapOfSum(Done(s.threads), 1);
    }
  }

  lemma {:induction false} RunKeepsInv(s: State, steps: seq<Step>, t: State, iters: nat)
    requires Inv(s) && Run(s, steps, t, iters)
    ensures Inv(t) && |t.threads| == |s.threads|
    decreases |steps|
  {
    if steps != [] {
      StepKeepsInv(s, steps[0], iters, Apply(s, steps[0]));
      RunKeepsInv(Apply(s, steps[0]), steps[1..], t, iters);
    }
  }

  /** No thread counts too far. */
  predicate Bounded(s: State, iters: nat)
  {
    forall i | 0 <= i < |s.threads| ::
      s.threads[i].done <= iters && (s.threads[i].Locked? || s.threads[i].Loaded? ==> s.threads[i].done < iters)
  }

  lemma {:induction false} RunKeepsBounds(s: State, steps: seq<Step>, t: State, iters: nat)
    requires Bounded(s, iters) && Run(s, steps, t, iters)
    ensures Bounded(t, iters)
    decreases |steps|
  {
    if steps != [] {
      RunKeepsBounds(Apply(s, steps[0]), steps[1..], t, iters);
    }
  }

  /** The increments stored in a run. */
  function Stores(steps: seq<Step>): nat
  {
    if steps == [] then 0 else (if steps[0].Store? then 1 else 0) + Stores(steps[1..])
  }

  lemma {:induction false} RunStores(s: State, steps: seq<Step>, t: State, iters: nat)
    requires Run(s, steps, t, iters)
    ensures Done(t.threads) == Done(s.threads) + Stores(steps)
    decreases |steps|
  {
    if steps != [] {
      var u := Apply(s, steps[0]);
      DoneUpdate(s.threads, steps[0].t, u.threads[steps[0].t]);
      RunStores(u, steps[1..], t, iters);
    }
  }

  // ---------- The results ----------

  /** At every moment of every run the counter is the number of increments stored, at most one
      thread is inside, and it has loaded the current value. */
  lemma {:induction false} NothingIsLost(s: State, steps: seq<Step>, t: State, iters: nat)
    requires Initial(s) && Run(s, steps, t, iters)
    ensures t.shared == Wrap(Stores(steps)) && Done(t.threads) == Stores(steps) && Exclusive(t)
  {
    InitialInv(s);
    RunKeepsInv(s, steps, t, iters);
    RunStores(s, steps, t, iters);
    NothingDone(s.threads);
  }

  lemma {:induction false} NothingDone(threads: seq<Thread>)
    requires forall i | 0 <= i < |threads| :: threads[i] == Outside(0)
    ensures Done(threads) == 0
  {
    if threads != [] {
      NothingDone(threads[..|threads|-1]);
    }
  }

  /** When all threads are done the counter is their number times their iterations. */
  lemma {:induction false} LockedTotal(s: State, steps: seq<Step>, t: State, iters: nat)
    requires Initial(s) && Run(s, steps, t, iters) && Finished(t, iters)
    ensures t.shared == Wrap(|s.threads| * iters) && Stores(steps) == |s.threads| * iters
  {
    NothingIsLost(s, steps, t, iters);
    InitialInv(s);
    RunKeepsInv(s, steps, t, iters);
    DoneWhenEqual(t.threads, iters);
    RepeatSum([iters], |t.threads|);
    SumOfOne(iters);
  }

  /** The mutex cannot be held for ever: as long as a thread is not done, some step is enabled. */
  lemma {:induction false} NeverStuck(s: State, steps: seq<Step>, t: State, iters: nat) returns (next: Step)
    requires Initial(s) && Run(s, steps, t, iters) && !Finished(t, iters)
    ensures Enabled(t, next, iters)
  {
    InitialInv(s);
    RunKeepsInv(s, steps, t, iters);
    RunKeepsBounds(s, steps, t, iters);
    match t.holder
    case Some(h) =>
      next := match t.threads[h] case Locked(_) => Load(h) case Loaded(_, _) => Store(h) case _ => Unlock(h);
    case None =>
      var i :| 0 <= i < |t.threads| && t.threads[i] != Outside(iters);
      next := Lock(i);
  }

  /** The other variant: each thread counts in a local, the locals are added up. */
  method CountLocally(threads: nat, iters: nat) returns (total: int)
    requires iters < WORD
    ensures total == Wrap(threads * iters)
  {
    var locals: seq<int> := [];
    for tid := 0 to threads
      invariant locals == Repeat([iters], tid)
    {
      var x := 0;
      for i := 0 to iters
        invariant x == i
      {
        x := Wrap(x + 1);
      }
      locals := locals + [x];
    }
    total := 0;
    for k := 0 to |locals|
      invariant total == Wrap(Sum(locals[..k]))
    {
      WrapOfSum(Sum(locals[..k]), locals[k]);
      total := Wrap(total + locals[k]);
      assert locals[..k + 1][..k] == locals[..k];
    }
    assert locals[..|locals|] == locals;
    RepeatSum([iters], threads);
    SumOfOne(iters);
  }
}
