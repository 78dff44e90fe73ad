/** The interpreter of others/brain_fuck.cpp: a jump table built with a stack drives a flat
    machine over an instruction pointer.

    The reference is a structured language: a program is a tree of commands and loops, its
    text is what the tree renders to, and a loop means `while (memory[dp]) body`.  The
    table builder accepts exactly the texts of such trees, and the flat machine agrees with
    the tree after every number of steps.
    */
module BrainFuck {
  import opened Basics

  // ---------- Programs and their text ----------

  type Symbol = c: char | c != '[' && c != ']' witness ' '

  datatype Program =
    | End
    | Command(symbol: Symbol, rest: Program)
    | Loop(body: Program, rest: Program)

  function Render(p: Program): string
  {
    match p
    case End => ""
    case Command(c, rest) => [c] + Render(rest)
    case Loop(body, rest) => "[" + Render(body) + "]" + Render(rest)
  }

  ghost predicate Balanced(text: string)
  {
    exists p :: Render(p) == text
  }

  function Append(p: Program, q: Program): Program
  {
    match p
    case End => q
    case Command(c, rest) => Command(c, Append(rest, q))
    case Loop(body, rest) => Loop(body, Append(rest, q))
  }

  lemma {:induction false} RenderAppend(p: Program, q: Program)
    ensures Render(Append(p, q)) == Render(p) + Render(q)
  {
    match p
    case End =>
    case Command(c, rest) =>
      RenderAppend(rest, q);
      ConcatAssociative([c], Render(rest), Render(q));
    case Loop(body, rest) =>
      RenderAppend(rest, q);
      ConcatAssociative("[" + Render(body) + "]", Render(rest), Render(q));
  }

  lemma EmptyIsBalanced()
    ensures Balanced("")
  {
    assert Render(End) == "";
  }

  lemma CommandKeepsBalance(s: string, c: Symbol)
    requires Balanced(s)
    ensures Balanced(s + [c])
  {
    var p :| Render(p) == s;
    RenderAppend(p, Command(c, End));
    assert Render(Command(c, End)) == [c] + Render(End) == [c];
  }

  lemma LoopKeepsBalance(s: string, body: string)
    requires Balanced(s) && Balanced(body)
    ensures Balanced(s + ("[" + body + "]"))
  {
    var p :| Render(p) == s;
    var b :| Render(b) == body;
    RenderAppend(p, Loop(b, End));
    assert Render(Loop(b, End)) == "[" + body + "]" + "" == "[" + body + "]";
  }

  // ---------- Nesting depth ----------

  function Weight(c: char): int
  {
    if c == '[' then 1 else if c == ']' then -1 else 0
  }

  function Depth(s: string): int
  {
    if s == "" then 0 else Weight(s[0]) + Depth(s[1..])
  }

  lemma {:induction false} DepthConcat(s: string, t: string)
    ensures Depth(s + t) == Depth(s) + Depth(t)
  {
    if s == "" {
      assert s + t == t;
    } else {
      assert (s + t)[1..] == s[1..] + t;
      DepthConcat(s[1..], t);
    }
  }

  lemma DepthSplit(text: string, i: nat, j: nat, k: nat)
    requires i <= j <= k <= |text|
    ensures Depth(text[i..k]) == Depth(text[i..j]) + Depth(text[j..k])
  {
    assert text[i..k] == text[i..j] + text[j..k];
    DepthConcat(text[i..j], text[j..k]);
  }

  lemma DepthOfOne(text: string, i: nat)
    requires i < |text|
    ensures Depth(text[i..i+1]) == Weight(text[i])
  {
    assert text[i..i+1] == [text[i]];
    assert [text[i]][1..] == "";
    assert Depth([text[i]]) == Weight([text[i]][0]) + Depth([text[i]][1..]);
  }

  ghost predicate NeverDips(s: string)
  {
    forall k | 0 <= k <= |s| :: Depth(s[..k]) >= 0
  }

  lemma NeverDipsConcat(s: string, t: string)
    requires NeverDips(s) && NeverDips(t)
    ensures NeverDips(s + t)
  {
    forall k | 0 <= k <= |s + t| ensures Depth((s + t)[..k]) >= 0 {
      if k <= |s| {
        assert (s + t)[..k] == s[..k];
      } else {
        assert (s + t)[..k] == s[..|s|] + t[..k-|s|];
        DepthConcat(s[..|s|], t[..k-|s|]);
      }
    }
  }

  lemma LoopDepth(b: string)
    requires Depth(b) == 0 && NeverDips(b)
    ensures Depth("[" + b + "]") == 0 && NeverDips("[" + b + "]")
  {
    var s := "[" + b + "]";
    forall k | 0 < k <= |b| + 1 ensures Depth(s[..k]) == 1 + Depth(b[..k-1]) {
      assert s[..k][0] == '[' && s[..k][1..] == b[..k-1];
    }
    assert b[..|b|] == b;
    assert s[..|b|+1] + "]" == s == s[..|s|];
    DepthConcat(s[..|b|+1], "]");
    assert Depth("]") == -1 + Depth("]"[1..]);
  }

  lemma {:induction false} RenderDepth(p: Program)
    ensures Depth(Render(p)) == 0 && NeverDips(Render(p))
  {
    match p
    case End =>
    case Command(c, rest) =>
      RenderDepth(rest);
      assert Render(p)[1..] == Render(rest);
      forall k | 0 < k <= |Render(p)| ensures Depth(Render(p)[..k]) >= 0 {
        assert Render(p)[..k][1..] == Render(rest)[..k-1];
      }
    case Loop(body, rest) =>
      RenderDepth(body);
      RenderDepth(rest);
      LoopDepth(Render(body));
      NeverDipsConcat("[" + Render(body) + "]", Render(rest));
      DepthConcat("[" + Render(body) + "]", Render(rest));
  }

  /** A balanced stretch of the text has depth zero and never dips below it. */
  lemma BalancedDepth(text: string, i: nat, j: nat, k: nat)
    requires i <= k <= j <= |text| && Balanced(text[i..j])
    ensures Depth(text[i..j]) == 0 && Depth(text[i..k]) >= 0
  {
    var p :| Render(p) == text[i..j];
    RenderDepth(p);
    assert text[i..j][..k-i] == text[i..k];
  }

  // ---------- Matching brackets ----------

  /** The bracket at `i` is closed at `j`: what they enclose is balanced. */
  ghost predicate Match(text: string, i: int, j: int)
  {
    && 0 <= i < j < |text|
    && text[i] == '[' && text[j] == ']'
    && Balanced(text[i+1..j])
  }

  lemma MatchIsUnique(text: string, i: int, j: int, k: int)
    requires Match(text, i, j) && Match(text, i, k)
    ensures j == k
  {
    if j < k {
      BalancedDepth(text, i + 1, j, j);
      BalancedDepth(text, i + 1, k, j + 1);
      DepthSplit(text, i + 1, j, j + 1);
      DepthOfOne(text, j);
    } else if k < j {
      MatchIsUnique(text, i, k, j);
    }
  }

  /** Inside the pair at `i` and `j`, the text after an opening bracket at `k` has to close
      it. */
  lemma OpenedInside(text: string, i: int, j: int, k: int)
    requires Match(text, i, j) && i < k < j && text[k] == '['
    ensures Depth(text[k+1..j]) <= -1
  {
    BalancedDepth(text, i + 1, j, k);
    DepthSplit(text, i + 1, k, j);
    DepthSplit(text, k, k + 1, j);
    DepthOfOne(text, k);
  }

  /** Pairs are nested or apart. */
  lemma MatchesDoNotCross(text: string, i: int, j: int, k: int, l: int)
    requires Match(text, i, j) && Match(text, k, l) && i < k < j
    ensures l < j
  {
    if j <= l {
      OpenedInside(text, i, j, k);
      BalancedDepth(text, k + 1, l, j);
      assert false;
    }
  }

  /** Both maps hold exactly the matching pairs, each bracket in one pair. */
  ghost predicate JumpTable(text: string, forward: map<int, int>, backward: map<int, int>)
  {
    && (forall i | i in forward :: Match(text, i, forward[i]) && forward[i] in backward && backward[forward[i]] == i)
    && (forall j | j in backward :: Match(text, backward[j], j) && backward[j] in forward && forward[backward[j]] == j)
    && (forall i | 0 <= i < |text| && text[i] == '[' :: i in forward)
    && (forall j | 0 <= j < |text| && text[j] == ']' :: j in backward)
  }

  /** Where the `m`-th balanced stretch between the open brackets begins and ends. */
  function StretchStart(stack: seq<int>, m: nat): int
    requires m <= |stack|
  {
    if m == 0 then 0 else stack[m-1] + 1
  }

  function StretchEnd(stack: seq<int>, m: nat, i: int): int
    requires m <= |stack|
  {
    if m == |stack| then i else stack[m]
  }

  /** The open brackets up to `i`, with balanced text before, between and after them. */
  ghost predicate OpenBrackets(text: string, stack: seq<int>, i: nat)
    requires i <= |text|
  {
    && (forall m | 0 <= m < |stack| :: 0 <= stack[m] < i && text[stack[m]] == '[')
    && (forall m | 0 <= m <= |stack| ::
          && 0 <= StretchStart(stack, m) <= StretchEnd(stack, m, i) <= i
          && Balanced(text[StretchStart(stack, m)..StretchEnd(stack, m, i)]))
  }

  lemma PushBracket(text: string, stack: seq<int>, i: nat)
    requires i < |text| && text[i] == '[' && OpenBrackets(text, stack, i)
    ensures OpenBrackets(text, stack + [i], i + 1)
  {
    var next := stack + [i];
    EmptyIsBalanced();
    forall m | 0 <= m <= |next|
      ensures 0 <= StretchStart(next, m) <= StretchEnd(next, m, i + 1) <= i + 1
      ensures Balanced(text[StretchStart(next, m)..StretchEnd(next, m, i + 1)])
    {
      if m <= |stack| {
        assert StretchStart(next, m) == StretchStart(stack, m) && StretchEnd(next, m, i + 1) == StretchEnd(stack, m, i);
      } else {
        assert text[i+1..i+1] == "";
      }
    }
  }

  lemma PopBracket(text: string, stack: seq<int>, i: nat)
    requires i < |text| && text[i] == ']' && OpenBrackets(text, stack, i) && stack != []
    ensures Match(text, stack[|stack|-1], i)
    ensures OpenBrackets(text, stack[..|stack|-1], i + 1)
  {
    var n := |stack| - 1;
    var top, next := stack[n], stack[..n];
    var start := StretchStart(stack, n);
    assert StretchStart(stack, n + 1) == top + 1 && StretchEnd(stack, n + 1, i) == i;
    assert StretchEnd(stack, n, i) == top;
    LoopKeepsBalance(text[start..top], text[top+1..i]);
    assert text[top..i+1] == "[" + text[top+1..i] + "]";
    assert text[start..i+1] == text[start..top] + text[top..i+1];
    forall m | 0 <= m <= |next|
      ensures 0 <= StretchStart(next, m) <= StretchEnd(next, m, i + 1) <= i + 1
      ensures Balanced(text[StretchStart(next, m)..StretchEnd(next, m, i + 1)])
    {
      assert StretchStart(next, m) == StretchStart(stack, m);
      if m < n {
        assert StretchEnd(next, m, i + 1) == StretchEnd(stack, m, i);
      }
    }
  }

  lemma PassCommand(text: string, stack: seq<int>, i: nat)
    requires i < |text| && text[i] != '[' && text[i] != ']' && OpenBrackets(text, stack, i)
    ensures OpenBrackets(text, stack, i + 1)
  {
    var start := StretchStart(stack, |stack|);
    CommandKeepsBalance(text[start..i], text[i]);
    assert text[start..i+1] == text[start..i] + [text[i]];
    forall m | 0 <= m <= |stack|
      ensures 0 <= StretchStart(stack, m) <= StretchEnd(stack, m, i + 1) <= i + 1
      ensures Balanced(text[StretchStart(stack, m)..StretchEnd(stack, m, i + 1)])
    {
      assert m < |stack| ==> StretchEnd(stack, m, i + 1) == StretchEnd(stack, m, i);
    }
  }

  /** The maps pair off exactly the closed brackets before `i`. */
  ghost predicate PairedUpTo(text: string, stack: seq<int>, forward: map<int, int>, backward: map<int, int>, i: nat)
    requires i <= |text|
  {
    && (forall k | k in forward :: k < i && Match(text, k, forward[k]) && forward[k] in backward && backward[forward[k]] == k)
    && (forall k | k in backward :: k < i && Match(text, backward[k], k) && backward[k] in forward && forward[backward[k]] == k)
    && (forall k | 0 <= k < i && text[k] == '[' :: k in forward || k in stack)
    && (forall k | 0 <= k < i && text[k] == ']' :: k in backward)
    && (forall k | k in stack :: k !in forward)
    && (forall m, n | 0 <= m < n < |stack| :: stack[m] < stack[n])
  }

  lemma PairOff(text: string, stack: seq<int>, forward: map<int, int>, backward: map<int, int>, i: nat)
    requires i < |text| && text[i] == ']' && stack != []
    requires PairedUpTo(text, stack, forward, backward, i) && Match(text, stack[|stack|-1], i)
    ensures PairedUpTo(text, stack[..|stack|-1], forward[stack[|stack|-1] := i], backward[i := stack[|stack|-1]], i + 1)
  {
    var top, next := stack[|stack|-1], stack[..|stack|-1];
    assert stack == next + [top];
    assert top !in next;
    assert top !in forward && i !in backward;
  }

  lemma NotBalanced(text: string, k: nat)
    requires k <= |text| && (Depth(text[0..k]) < 0 || (k == |text| && Depth(text[0..k]) != 0))
    ensures !Balanced(text)
  {
    assert text[0..|text|] == text;
    if Balanced(text) {
      BalancedDepth(text, 0, |text|, k);
      assert false;
    }
  }

  /** What the scan of the program knows at position `i`. */
  ghost predicate Scanned(text: string, stack: seq<int>, forward: map<int, int>, backward: map<int, int>, i: nat)
    requires i <= |text|
  {
    && OpenBrackets(text, stack, i)
    && PairedUpTo(text, stack, forward, backward, i)
    && Depth(text[0..i]) == |stack|
  }

  lemma ScanNothing(text: string)
    ensures Scanned(text, [], map[], map[], 0)
  {
    EmptyIsBalanced();
    assert text[0..0] == "";
  }

  lemma ScanOpen(text: string, stack: seq<int>, forward: map<int, int>, backward: map<int, int>, i: nat)
    requires i < |text| && text[i] == '[' && Scanned(text, stack, forward, backward, i)
    ensures Scanned(text, stack + [i], forward, backward, i + 1)
  {
    DepthSplit(text, 0, i, i + 1);
    DepthOfOne(text, i);
    PushBracket(text, stack, i);
  }

  lemma ScanClose(text: string, stack: seq<int>, forward: map<int, int>, backward: map<int, int>, i: nat)
    requires i < |text| && text[i] == ']' && Scanned(text, stack, forward, backward, i)
    ensures stack == [] ==> !Balanced(text)
    ensures stack != [] ==>
              Scanned(text, stack[..|stack|-1], forward[stack[|stack|-1] := i], backward[i := stack[|stack|-1]], i + 1)
  {
    DepthSplit(text, 0, i, i + 1);
    DepthOfOne(text, i);
    if stack == [] {
      NotBalanced(text, i + 1);
    } else {
      PopBracket(text, stack, i);
      PairOff(text, stack, forward, backward, i);
    }
  }

  lemma ScanCommand(text: string, stack: seq<int>, forward: map<int, int>, backward: map<int, int>, i: nat)
    requires i < |text| && text[i] != '[' && text[i] != ']' && Scanned(text, stack, forward, backward, i)
    ensures Scanned(text, stack, forward, backward, i + 1)
  {
    DepthSplit(text, 0, i, i + 1);
    DepthOfOne(text, i);
    PassCommand(text, stack, i);
  }

  lemma ScanEnd(text: string, stack: seq<int>, forward: map<int, int>, backward: map<int, int>)
    requires Scanned(text, stack, forward, backward, |text|)
    ensures stack == [] <==> Balanced(text)
    ensures stack == [] ==> JumpTable(text, forward, backward)
  {
    if stack == [] {
      assert StretchStart(stack, 0) == 0 && StretchEnd(stack, 0, |text|) == |text|;
      assert text[0..|text|] == text;
    } else {
      NotBalanced(text, |text|);
    }
  }

  method PrepareJumpTable(text: string) returns (ok: bool, forward: map<int, int>, backward: map<int, int>)
    ensures ok <==> Balanced(text)
    ensures ok ==> JumpTable(text, forward, backward)
  {
    forward, backward := map[], map[];
    var stack: seq<int> := [];
    ScanNothing(text);
    for i := 0 to |text|
      invariant Scanned(text, stack, forward, backward, i)
    {
      var ch := text[i];
      if ch == '[' {
        ScanOpen(text, stack, forward, backward, i);
        stack := stack + [i];
      }
      if ch == ']' {
        ScanClose(text, stack, forward, backward, i);
        if stack == [] {
          return false, forward, backward;
        }
        var top := stack[|stack|-1];
        forward := forward[top := i];
        backward := backward[i := top];
        stack := stack[..|stack|-1];
      }
      if ch != '[' && ch != ']' {
        ScanCommand(text, stack, forward, backward, i);
      }
    }
    ScanEnd(text, stack, forward, backward);
    ok := stack == [];
  }
}
