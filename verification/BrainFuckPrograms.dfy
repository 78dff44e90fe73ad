/** What programs of others/brain_fuck.cpp do: programs whose output, memory and status are
    known for every input.

    How a command is performed is not mentioned here; the laws are about the meaning of
    pieces of program, so each of them would fail if a command did something else.
    */
module BrainFuckPrograms {
  import opened BrainFuck
  import opened FlatCode
  import opened BrainFuckMachine

  /** Run a piece of program from a store. */
  function Do(p: Program, s: Store, steps: nat): Outcome<Store>
  {
    Exec(BrainFuckMachine.Language(), p, s, steps)
  }

  /** Run `[body]` from a store. */
  function Rounds(body: Program, s: Store, steps: nat): Outcome<Store>
  {
    While(BrainFuckMachine.Language(), body, s, steps)
  }

  /** `s` with `x` in the current cell. */
  function Put(s: Store, x: Cell): Store
  {
    s.(memory := s.memory[s.dp := x])
  }

  function MoveTo(s: Store, dp: nat): Store
    requires dp < 30000
  {
    s.(dp := dp)
  }

  /** `n` times the same command before the rest. */
  function Times(c: Symbol, n: nat, rest: Program): Program
  {
    if n == 0 then rest else Command(c, Times(c, n - 1, rest))
  }

  function Repeated(c: char, n: nat): string
  {
    if n == 0 then "" else [c] + Repeated(c, n - 1)
  }

  lemma {:induction false} RenderTimes(c: Symbol, n: nat, rest: Program)
    ensures Render(Times(c, n, rest)) == Repeated(c, n) + Render(rest)
  {
    if n > 0 {
      RenderTimes(c, n - 1, rest);
    }
  }

  lemma OneCommand(c: Symbol, rest: Program, s: Store, steps: nat)
    requires steps > 0
    ensures Do(Command(c, rest), s, steps) ==
              match Perform(c, s) case Go(s') => Do(rest, s', steps - 1) case Halt(status, s') => Stopped(status, s')
  {
  }

  // ---------- Output ----------

  /** Nothing printed is taken back while a piece of program runs. */
  lemma {:induction false} OutputGrows(p: Program, s: Store, steps: nat)
    ensures s.output <= Do(p, s, steps).state.output
    decreases steps, p, 0
  {
    match p
    case End =>
    case Command(c, rest) =>
      if steps > 0 && Perform(c, s).Go? {
        OutputGrows(rest, Perform(c, s).state, steps - 1);
      }
    case Loop(body, rest) =>
      LoopOutputGrows(body, s, steps);
      var o := Rounds(body, s, steps);
      if o.Passed? {
        OutputGrows(rest, o.state, o.steps);
      }
  }

  lemma {:induction false} LoopOutputGrows(body: Program, s: Store, steps: nat)
    ensures s.output <= Rounds(body, s, steps).state.output
    decreases steps, body, 1
  {
    if steps > 0 && s.memory[s.dp] != 0 {
      OutputGrows(body, s, steps - 1);
      var o := Do(body, s, steps - 1);
      if o.Passed? {
        LoopOutputGrows(body, o.state, o.steps);
      }
    }
  }

  /** What has been printed after some steps is a prefix of what has been after more. */
  lemma {:induction false} OutputIsPrefix(p: Program, s: Store, steps: nat, extra: nat)
    ensures Do(p, s, steps).state.output <= Do(p, s, steps + extra).state.output
    decreases steps, p, 0
  {
    match p
    case End =>
    case Command(c, rest) =>
      if steps == 0 {
        OutputGrows(p, s, extra);
      } else if Perform(c, s).Go? {
        OutputIsPrefix(rest, Perform(c, s).state, steps - 1, extra);
      }
    case Loop(body, rest) =>
      LoopOutputIsPrefix(body, s, steps, extra);
      MoreRounds(BrainFuckMachine.Language(), body, s, steps, extra);
      var o, o' := Rounds(body, s, steps), Rounds(body, s, steps + extra);
      if o.Passed? {
        OutputIsPrefix(rest, o.state, o.steps, extra);
      } else if o'.Passed? {
        OutputGrows(rest, o'.state, o'.steps);
      }
  }

  lemma {:induction false} LoopOutputIsPrefix(body: Program, s: Store, steps: nat, extra: nat)
    ensures Rounds(body, s, steps).state.output <= Rounds(body, s, steps + extra).state.output
    decreases steps, body, 1
  {
    if steps == 0 {
      LoopOutputGrows(body, s, extra);
    } else if s.memory[s.dp] != 0 {
      OutputIsPrefix(body, s, steps - 1, extra);
      MoreSteps(BrainFuckMachine.Language(), body, s, steps - 1, extra);
      var o, o' := Do(body, s, steps - 1), Do(body, s, steps - 1 + extra);
      if o.Passed? {
        LoopOutputIsPrefix(body, o.state, o.steps, extra);
      } else if o'.Passed? {
        LoopOutputGrows(body, o'.state, o'.steps);
      }
    }
  }

  /** The output at any moment of a run is a prefix of the output at any later one. */
  lemma NothingIsUnprinted(p: Program, steps: nat, extra: nat)
    ensures Meaning(p, steps).1.output <= Meaning(p, steps + extra).1.output
  {
    OutputIsPrefix(p, Initial(), steps, extra);
  }

  // ---------- White space and other characters ----------

  predicate IsBlank(c: char)
  {
    c in {' ', '\t', '\n'}
  }

  predicate IsCommand(c: char)
  {
    c in {'+', '-', '<', '>', '.'}
  }

  /** The text without its white space. */
  function Squeezed(text: string): string
  {
    if text == "" then "" else (if IsBlank(text[0]) then "" else [text[0]]) + Squeezed(text[1..])
  }

  function Squeeze(p: Program): Program
  {
    match p
    case End => End
    case Command(c, rest) => if IsBlank(c) then Squeeze(rest) else Command(c, Squeeze(rest))
    case Loop(body, rest) => Loop(Squeeze(body), Squeeze(rest))
  }

  lemma {:induction false} SqueezedParts(a: string, b: string)
    ensures Squeezed(a + b) == Squeezed(a) + Squeezed(b)
  {
    if a == "" {
      assert a + b == b;
    } else {
      assert (a + b)[1..] == a[1..] + b;
      SqueezedParts(a[1..], b);
    }
  }

  lemma SqueezedOne(c: char)
    ensures Squeezed([c]) == if IsBlank(c) then "" else [c]
  {
    assert [c][1..] == "" && Squeezed("") == "";
  }

  lemma {:induction false} RenderSqueeze(p: Program)
    ensures Render(Squeeze(p)) == Squeezed(Render(p))
  {
    match p
    case End =>
    case Command(c, rest) =>
      RenderSqueeze(rest);
      SqueezedOne(c);
      SqueezedParts([c], Render(rest));
    case Loop(body, rest) =>
      RenderSqueeze(body);
      RenderSqueeze(rest);
      SqueezedOne('[');
      SqueezedOne(']');
      SqueezedParts("[", Render(body));
      SqueezedParts("[" + Render(body), "]");
      SqueezedParts("[" + Render(body) + "]", Render(rest));
  }

  /** The second run ends as the first, with no fewer steps to spare, unless the first was cut
      short. */
  predicate EndsAlike(o: Outcome<Store>, o': Outcome<Store>)
  {
    && (o.Passed? ==> o'.Passed? && o'.state == o.state && o'.steps >= o.steps)
    && (o.Stopped? && o.status != OutOfSteps ==> o' == o)
  }

  lemma {:induction false} SqueezedRuns(p: Program, s: Store, steps: nat, more: nat)
    requires steps <= more
    ensures EndsAlike(Do(p, s, steps), Do(Squeeze(p), s, more))
    decreases steps, p, 0
  {
    match p
    case End =>
    case Command(c, rest) =>
      if steps > 0 {
        if IsBlank(c) {
          SqueezedRuns(rest, s, steps - 1, more);
        } else if Perform(c, s).Go? {
          SqueezedRuns(rest, Perform(c, s).state, steps - 1, more - 1);
        }
      }
    case Loop(body, rest) =>
      SqueezedLoops(body, s, steps, more);
      var o, o' := Rounds(body, s, steps), Rounds(Squeeze(body), s, more);
      if o.Passed? {
        SqueezedRuns(rest, o.state, o.steps, o'.steps);
      }
  }

  lemma {:induction false} SqueezedLoops(body: Program, s: Store, steps: nat, more: nat)
    requires steps <= more
    ensures EndsAlike(Rounds(body, s, steps), Rounds(Squeeze(body), s, more))
    decreases steps, body, 1
  {
    if steps > 0 && s.memory[s.dp] != 0 {
      SqueezedRuns(body, s, steps - 1, more - 1);
      var o, o' := Do(body, s, steps - 1), Do(Squeeze(body), s, more - 1);
      if o.Passed? {
        SqueezedLoops(body, o.state, o.steps, o'.steps);
      }
    }
  }

  /** White space changes nothing: without it the same program leaves the same store. */
  lemma WhiteSpaceIsIgnored(p: Program, steps: nat)
    ensures Render(Squeeze(p)) == Squeezed(Render(p))
    ensures Meaning(p, steps).0 != OutOfSteps ==> Meaning(Squeeze(p), steps) == Meaning(p, steps)
  {
    RenderSqueeze(p);
    SqueezedRuns(p, Initial(), steps, steps);
  }

  /** Only commands, brackets and white space. */
  predicate IsClean(text: string)
  {
    forall i | 0 <= i < |text| :: IsCommand(text[i]) || IsBlank(text[i]) || text[i] in {'[', ']'}
  }

  predicate IsCleanProgram(p: Program)
  {
    match p
    case End => true
    case Command(c, rest) => (IsCommand(c) || IsBlank(c)) && IsCleanProgram(rest)
    case Loop(body, rest) => IsCleanProgram(body) && IsCleanProgram(rest)
  }

  lemma CleanParts(a: string, b: string)
    ensures IsClean(a + b) <==> IsClean(a) && IsClean(b)
  {
    if IsClean(a + b) {
      assert forall i | 0 <= i < |a| :: a[i] == (a + b)[i];
      assert forall i | 0 <= i < |b| :: b[i] == (a + b)[|a| + i];
    }
  }

  lemma {:induction false} RenderClean(p: Program)
    ensures IsClean(Render(p)) <==> IsCleanProgram(p)
  {
    match p
    case End =>
    case Command(c, rest) =>
      RenderClean(rest);
      CleanParts([c], Render(rest));
      assert [c][0] == c;
    case Loop(body, rest) =>
      RenderClean(body);
      RenderClean(rest);
      CleanParts("[", Render(body));
      CleanParts("[" + Render(body), "]");
      CleanParts("[" + Render(body) + "]", Render(rest));
  }

  lemma {:induction false} CleanRuns(p: Program, s: Store, steps: nat)
    requires IsCleanProgram(p)
    ensures Do(p, s, steps).Stopped? ==> Do(p, s, steps).status in {OutOfSteps, Underflow, Overflow}
    decreases steps, p, 0
  {
    match p
    case End =>
    case Command(c, rest) =>
      if steps > 0 && Perform(c, s).Go? {
        CleanRuns(rest, Perform(c, s).state, steps - 1);
      }
    case Loop(body, rest) =>
      CleanLoops(body, s, steps);
      var o := Rounds(body, s, steps);
      if o.Passed? {
        CleanRuns(rest, o.state, o.steps);
      }
  }

  lemma {:induction false} CleanLoops(body: Program, s: Store, steps: nat)
    requires IsCleanProgram(body)
    ensures Rounds(body, s, steps).Stopped? ==> Rounds(body, s, steps).status in {OutOfSteps, Underflow, Overflow}
    decreases steps, body, 1
  {
    if steps > 0 && s.memory[s.dp] != 0 {
      CleanRuns(body, s, steps - 1);
      var o := Do(body, s, steps - 1);
      if o.Passed? {
        CleanLoops(body, o.state, o.steps);
      }
    }
  }

  /** A program of commands, brackets and white space is never called invalid. */
  lemma CleanIsValid(p: Program, steps: nat)
    requires IsClean(Render(p))
    ensures Meaning(p, steps).0 in {Finished, OutOfSteps, Underflow, Overflow}
  {
    RenderClean(p);
    CleanRuns(p, Initial(), steps);
  }

  /** What comes first runs first. */
  lemma {:induction false} DoAppend(p: Program, q: Program, s: Store, steps: nat)
    ensures var o := Do(p, s, steps);
            Do(Append(p, q), s, steps) == if o.Passed? then Do(q, o.state, o.steps) else o
    decreases p, steps
  {
    match p
    case End =>
    case Command(c, rest) =>
      if steps > 0 && Perform(c, s).Go? {
        DoAppend(rest, q, Perform(c, s).state, steps - 1);
      }
    case Loop(body, rest) =>
      var o := Rounds(body, s, steps);
      if o.Passed? {
        DoAppend(rest, q, o.state, o.steps);
      }
  }

  /** Any other character stops the run where it is met, `,` among them, and leaves the store
      as it is. */
  lemma OthersAreInvalid(p: Program, c: Symbol, q: Program, steps: nat)
    requires !IsCommand(c) && !IsBlank(c)
    requires Do(p, Initial(), steps).Passed? && Do(p, Initial(), steps).steps > 0
    ensures Render(Append(p, Command(c, q))) == Render(p) + [c] + Render(q)
    ensures Meaning(Append(p, Command(c, q)), steps) == (InvalidProgram, Do(p, Initial(), steps).state)
  {
    RenderAppend(p, Command(c, q));
    assert Render(p) + ([c] + Render(q)) == Render(p) + [c] + Render(q);
    DoAppend(p, Command(c, q), Initial(), steps);
  }

  // ---------- Moves ----------

  lemma {:induction false} MovesRight(s: Store, n: nat, rest: Program, steps: nat)
    ensures Do(Times('>', n, rest), s, n + steps) ==
              if s.dp + n < 30000 then Do(rest, MoveTo(s, s.dp + n), steps) else Stopped(Overflow, MoveTo(s, 29999))
    decreases n
  {
    if n > 0 && s.dp + 1 < 30000 {
      MovesRight(MoveTo(s, s.dp + 1), n - 1, rest, steps);
    }
  }

  lemma {:induction false} MovesLeft(s: Store, n: nat, rest: Program, steps: nat)
    ensures Do(Times('<', n, rest), s, n + steps) ==
              if n <= s.dp then Do(rest, MoveTo(s, s.dp - n), steps) else Stopped(Underflow, MoveTo(s, 0))
    decreases n
  {
    if n > 0 && s.dp > 0 {
      MovesLeft(MoveTo(s, s.dp - 1), n - 1, rest, steps);
    }
  }

  /** Nothing but zeros, and the pointer at `dp`. */
  function Blank(dp: nat): Store
    requires dp < 30000
  {
    Store(seq(30000, _ => 0), dp, [])
  }

  lemma RightThenLeft(n: nat, m: nat, extra: nat)
    ensures Do(Times('>', n, Times('<', m, End)), Initial(), n + (m + extra)) ==
              if n >= 30000 then Stopped(Overflow, MoveTo(Initial(), 29999))
              else if m > n then Stopped(Underflow, MoveTo(Initial(), 0))
              else Passed(MoveTo(Initial(), n - m), extra)
  {
    hide Times;
    MovesRight(Initial(), n, Times('<', m, End), m + extra);
    if n < 30000 {
      MovesLeft(MoveTo(Initial(), n), m, End, extra);
    }
  }

  lemma BlankIs(dp: nat)
    requires dp < 30000
    ensures MoveTo(Initial(), dp) == Blank(dp)
  {
  }

  lemma RenderMoves(n: nat, m: nat)
    ensures Render(Times('>', n, Times('<', m, End))) == Repeated('>', n) + Repeated('<', m)
  {
    RenderTimes('>', n, Times('<', m, End));
    RenderTimes('<', m, End);
    assert Repeated('<', m) + "" == Repeated('<', m);
  }

  /** `n` moves to the right and `m` to the left: past the last cell the run overflows, past the
      first it underflows, otherwise it ends at n - m. */
  lemma Moves(n: nat, m: nat, extra: nat)
    ensures Render(Times('>', n, Times('<', m, End))) == Repeated('>', n) + Repeated('<', m)
    ensures Meaning(Times('>', n, Times('<', m, End)), n + m + extra) ==
              if n >= 30000 then (Overflow, Blank(29999))
              else if m > n then (Underflow, Blank(0))
              else (Finished, Blank(n - m))
  {
    hide Times, Exec, MoveTo, Blank, Initial, Render, Repeated;
    RenderMoves(n, m);
    RightThenLeft(n, m, extra);
    assert n + (m + extra) == n + m + extra;
    BlankIs(if n >= 30000 then 29999 else if m > n then 0 else n - m);
  }

  // ---------- Loops that clear and loops that add ----------

  /** `[-]` clears the current cell in two steps for each unit and one for the last test. */
  lemma {:induction false} ClearLoop(s: Store, extra: nat)
    ensures Rounds(Command('-', End), s, 2 * s.memory[s.dp] + 1 + extra) == Passed(Put(s, 0), extra)
    decreases s.memory[s.dp]
  {
    var k := s.memory[s.dp];
    if k == 0 {
      assert Put(s, 0) == s;
    } else {
      var next := Put(s, k - 1);
      OneCommand('-', End, s, 2 * k + extra);
      assert Do(Command('-', End), s, 2 * k + extra) == Passed(next, 2 * (k - 1) + 1 + extra);
      ClearLoop(next, extra);
      assert Put(next, 0) == Put(s, 0);
    }
  }

  /** So does `[+]`, as a cell wraps around after 255. */
  lemma {:induction false} ClearByWrapping(s: Store, extra: nat)
    ensures var rounds := if s.memory[s.dp] == 0 then 0 else 256 - s.memory[s.dp];
            Rounds(Command('+', End), s, 2 * rounds + 1 + extra) == Passed(Put(s, 0), extra)
    decreases if s.memory[s.dp] == 0 then 0 else 256 - s.memory[s.dp]
  {
    var k := s.memory[s.dp];
    if k == 0 {
      assert Put(s, 0) == s;
    } else {
      var next := Put(s, if k == 255 then 0 else k + 1);
      OneCommand('+', End, s, 2 * (256 - k) + extra);
      assert Do(Command('+', End), s, 2 * (256 - k) + extra) == Passed(next, 2 * (255 - k) + 1 + extra);
      ClearByWrapping(next, extra);
      assert Put(next, 0) == Put(s, 0);
    }
  }

  /** The sum of two cells, which wraps around. */
  function Plus(x: Cell, y: Cell): (z: Cell)
    ensures z == (x + y) % 256
  {
    if x + y < 256 then x + y else x + y - 256
  }

  /** The loop that moves a cell to its neighbour on the right, or on the left. */
  function Transfer(right: bool): Program
  {
    var there: Symbol := if right then '>' else '<';
    var back: Symbol := if right then '<' else '>';
    Command('-', Command(there, Command('+', Command(back, End))))
  }

  /** The neighbour of the current cell. */
  function Neighbour(dp: int, right: bool): int
  {
    if right then dp + 1 else dp - 1
  }

  predicate HasNeighbour(dp: int, right: bool)
  {
    0 <= Neighbour(dp, right) < 30000
  }

  /** `s` with `x` in the current cell and `y` next to it. */
  function PutBoth(s: Store, x: Cell, y: Cell, right: bool): Store
    requires HasNeighbour(s.dp, right)
  {
    s.(memory := s.memory[s.dp := x][Neighbour(s.dp, right) := y])
  }

  lemma RenderTransfer(right: bool)
    ensures Render(Loop(Transfer(right), End)) == if right then "[->+<]" else "[-<+>]"
  {
    var c: Symbol := if right then '>' else '<';
    var d: Symbol := if right then '<' else '>';
    assert Render(Command(d, End)) == [d] + Render(End) == [d];
    assert Render(Command('+', Command(d, End))) == ['+', d];
    assert Render(Command(c, Command('+', Command(d, End)))) == [c, '+', d];
    assert Render(Transfer(right)) == ['-', c, '+', d];
    assert Render(Loop(Transfer(right), End)) == "[" + ['-', c, '+', d] + "]" + Render(End);
  }

  lemma {:induction false} TransferOne(s: Store, right: bool, steps: nat)
    requires HasNeighbour(s.dp, right) && s.memory[s.dp] > 0
    ensures Do(Transfer(right), s, 4 + steps) ==
              Passed(PutBoth(s, s.memory[s.dp] - 1, Plus(s.memory[Neighbour(s.dp, right)], 1), right), steps)
  {
    var c: Symbol := if right then '>' else '<';
    var d: Symbol := if right then '<' else '>';
    var k, next := s.memory[s.dp], Neighbour(s.dp, right);
    var s1 := Put(s, k - 1);
    var s2 := MoveTo(s1, next);
    var s3 := Put(s2, Plus(s.memory[next], 1));
    OneCommand('-', Command(c, Command('+', Command(d, End))), s, 4 + steps);
    OneCommand(c, Command('+', Command(d, End)), s1, 3 + steps);
    OneCommand('+', Command(d, End), s2, 2 + steps);
    OneCommand(d, End, s3, 1 + steps);
    assert MoveTo(s3, s.dp) == PutBoth(s, k - 1, Plus(s.memory[next], 1), right);
  }

  lemma OneUnit(x: Cell, y: Cell)
    requires x > 0
    ensures Plus(x - 1, Plus(y, 1)) == Plus(x, y) && Plus(0, y) == y
  {
  }

  /** `[->+<]` adds the current cell to its neighbour modulo 256 and clears it, in five steps for
      each unit and one for the last test; `[-<+>]` does so to the left. */
  lemma {:induction false} TransferLoop(s: Store, right: bool, extra: nat)
    requires HasNeighbour(s.dp, right)
    ensures Rounds(Transfer(right), s, 5 * s.memory[s.dp] + 1 + extra) ==
              Passed(PutBoth(s, 0, Plus(s.memory[s.dp], s.memory[Neighbour(s.dp, right)]), right), extra)
    decreases s.memory[s.dp]
  {
    var k, y := s.memory[s.dp], s.memory[Neighbour(s.dp, right)];
    if k == 0 {
      assert PutBoth(s, 0, y, right) == s;
    } else {
      var next := PutBoth(s, k - 1, Plus(y, 1), right);
      TransferOne(s, right, 5 * (k - 1) + 1 + extra);
      TransferLoop(next, right, extra);
      OneUnit(k, y);
      assert PutBoth(next, 0, Plus(k, y), right) == PutBoth(s, 0, Plus(k, y), right);
    }
  }

  // ---------- Printing any bytes ----------

  /** Clear the cell, count up to the byte, print it; and so on. */
  function Printing(bytes: seq<Cell>): Program
  {
    if bytes == [] then End
    else Loop(Command('-', End), Times('+', bytes[0], Command('.', Printing(bytes[1..]))))
  }

  function PrintingText(bytes: seq<Cell>): string
  {
    if bytes == [] then "" else "[-]" + (Repeated('+', bytes[0]) + ("." + PrintingText(bytes[1..])))
  }

  lemma {:induction false} RenderPrinting(bytes: seq<Cell>)
    ensures Render(Printing(bytes)) == PrintingText(bytes)
  {
    if bytes != [] {
      var rest := Command('.', Printing(bytes[1..]));
      RenderPrinting(bytes[1..]);
      RenderTimes('+', bytes[0], rest);
      assert Render(rest) == "." + PrintingText(bytes[1..]);
      assert Render(Command('-', End)) == "-" + Render(End) == "-";
    }
  }

  /** The steps it takes when the cell holds `x` before. */
  function PrintingSteps(x: Cell, bytes: seq<Cell>): nat
    decreases |bytes|
  {
    if bytes == [] then 0 else 2 * x + 1 + bytes[0] + 1 + PrintingSteps(bytes[0], bytes[1..])
  }

  lemma {:induction false} CountsUp(s: Store, n: nat, rest: Program, steps: nat)
    requires s.memory[s.dp] + n < 256
    ensures Do(Times('+', n, rest), s, n + steps) == Do(rest, Put(s, s.memory[s.dp] + n), steps)
    decreases n
  {
    if n == 0 {
      assert Put(s, s.memory[s.dp]) == s;
    } else {
      var next := Put(s, s.memory[s.dp] + 1);
      CountsUp(next, n - 1, rest, steps);
      assert Put(next, s.memory[s.dp] + n) == Put(s, s.memory[s.dp] + n);
    }
  }

  lemma {:induction false} PrintsOne(s: Store, b: Cell, rest: Program, steps: nat)
    ensures Do(Loop(Command('-', End), Times('+', b, Command('.', rest))), s, 2 * s.memory[s.dp] + 1 + b + 1 + steps)
         == Do(rest, Put(s, b).(output := s.output + [b]), steps)
  {
    ClearLoop(s, b + 1 + steps);
    CountsUp(Put(s, 0), b, Command('.', rest), 1 + steps);
    assert Put(Put(s, 0), b) == Put(s, b);
  }

  lemma {:induction false} Prints(bytes: seq<Cell>, s: Store, extra: nat)
    ensures var o := Do(Printing(bytes), s, PrintingSteps(s.memory[s.dp], bytes) + extra);
            o.Passed? && o.state.output == s.output + bytes
    decreases |bytes|
  {
    if bytes != [] {
      var next := Put(s, bytes[0]).(output := s.output + [bytes[0]]);
      PrintsOne(s, bytes[0], Printing(bytes[1..]), PrintingSteps(bytes[0], bytes[1..]) + extra);
      Prints(bytes[1..], next, extra);
      assert s.output + [bytes[0]] + bytes[1..] == s.output + bytes;
    }
  }

  /** For any bytes at all, the program that sets the cell to each in turn and prints it prints
      exactly these bytes. */
  lemma AnyOutput(bytes: seq<Cell>, extra: nat)
    ensures Render(Printing(bytes)) == PrintingText(bytes)
    ensures var (status, s) := Meaning(Printing(bytes), PrintingSteps(0, bytes) + extra);
            status == Finished && s.output == bytes
  {
    RenderPrinting(bytes);
    Prints(bytes, Initial(), extra);
  }
}
