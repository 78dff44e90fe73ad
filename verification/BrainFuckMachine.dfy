/** The interpreter of others/brain_fuck.cpp: 30000 cells, a data pointer and the output,
    driven by the flat machine of FlatCode.dfy.
    */
module BrainFuckMachine {
  import opened BrainFuck
  import opened FlatCode

  const MEM_SIZE := 30000

  /** A `char` as its eight bits; `++` and `--` wrap around. */
  type Cell = c: nat | c < 256

  datatype RawStore = Store(memory: seq<Cell>, dp: int, output: seq<Cell>)

  /** A store whose data pointer is inside the memory. */
  type Store = s: RawStore | |s.memory| == MEM_SIZE && 0 <= s.dp < MEM_SIZE
    witness Store(seq(MEM_SIZE, _ => 0), 0, [])

  predicate IsWhiteSpace(ch: char)
  {
    ch == ' ' || ch == '\t' || ch == '\n'
  }

  function Incremented(c: Cell): Cell
  {
    if c == 255 then 0 else c + 1
  }

  function Decremented(c: Cell): Cell
  {
    if c == 0 then 255 else c - 1
  }

  /** One command that is not a bracket.  A move out of the memory stops the machine; `,` is
      not among the keywords. */
  function Perform(c: Symbol, s: Store): Effect<Store>
  {
    if IsWhiteSpace(c) then Go(s)
    else match c
      case '+' => Go(s.(memory := s.memory[s.dp := Incremented(s.memory[s.dp])]))
      case '-' => Go(s.(memory := s.memory[s.dp := Decremented(s.memory[s.dp])]))
      case '<' => if s.dp == 0 then Halt(Underflow, s) else Go(s.(dp := s.dp - 1))
      case '>' => if s.dp + 1 == MEM_SIZE then Halt(Overflow, s) else Go(s.(dp := s.dp + 1))
      case '.' => Go(s.(output := s.output + [s.memory[s.dp]]))
      case _ => Halt(InvalidProgram, s)
  }

  function Language(): Language<Store>
  {
    FlatCode.Language(Perform, (s: Store) => s.memory[s.dp] != 0)
  }

  function Initial(): Store
  {
    Store(seq(MEM_SIZE, _ => 0), 0, [])
  }

  /** The meaning of a whole program: run its tree for at most `steps` steps. */
  function Meaning(p: Program, steps: nat): (Status, Store)
  {
    var o := Exec(Language(), p, Initial(), steps);
    if o.Passed? then (Finished, o.state) else (o.status, o.state)
  }

  /** Where the code has left `dp` when it gives up a move. */
  function PointerLeft(status: Status, s: Store): int
  {
    if status == Underflow then s.dp - 1 else if status == Overflow then s.dp + 1 else s.dp
  }

  /** Every bracket has a target in its map. */
  predicate HasTargets(code: Code)
  {
    forall i: nat | i < |code.text| ::
      && (code.text[i] == '[' ==> i in code.forward && code.forward[i] >= 0)
      && (code.text[i] == ']' ==> i in code.backward && code.backward[i] >= 0)
  }

  /** The loop of `interpreter`, for at most `steps` rounds. */
  method RunCode(code: Code, steps: nat, memory: array<Cell>) returns (status: Status, dp: int, output: seq<Cell>)
    requires HasTargets(code) && memory[..] == Initial().memory
    modifies memory
    ensures var (st, s) := Flat(Language(), code, 0, Initial(), steps);
            status == st && memory[..] == s.memory && dp == PointerLeft(st, s) && output == s.output
    ensures if status == Underflow then dp == -1 else if status == Overflow then dp == MEM_SIZE else 0 <= dp < MEM_SIZE
  {
    dp, output := 0, [];
    ghost var final := Flat(Language(), code, 0, Initial(), steps);
    var ip, left := 0, steps;
    while ip < |code.text|
      invariant memory.Length == MEM_SIZE && 0 <= dp < MEM_SIZE && ip >= 0
      invariant Flat(Language(), code, ip, Store(memory[..], dp, output), left) == final
      decreases left
    {
      if left == 0 {
        return OutOfSteps, dp, output;
      }
      left := left - 1;
      ghost var before: Store := Store(memory[..], dp, output);
      ghost var next := Step(Language(), code, ip, before);
      assert final == match next case At(i, s) => Flat(Language(), code, i, s, left) case Halted(st, s) => (st, s);
      var ch := code.text[ip];
      if IsWhiteSpace(ch) {
        ip := ip + 1;
        assert next == At(ip, before);
        continue;
      }
      if ch !in {'+', '-', '>', '<', '.', '[', ']'} {
        return InvalidProgram, dp, output;
      }
      match ch {
        case '+' =>
          memory[dp] := Incremented(memory[dp]);
          assert memory[..] == before.memory[dp := Incremented(before.memory[dp])];
        case '-' =>
          memory[dp] := Decremented(memory[dp]);
          assert memory[..] == before.memory[dp := Decremented(before.memory[dp])];
        case '<' =>
          dp := dp - 1;
          if dp < 0 {
            return Underflow, dp, output;
          }
        case '>' =>
          dp := dp + 1;
          if dp >= MEM_SIZE {
            return Overflow, dp, output;
          }
        case '.' =>
          output := output + [memory[dp]];
        case '[' =>
          if memory[dp] == 0 {
            ip := code.forward[ip];
          }
        case ']' =>
          if memory[dp] != 0 {
            ip := code.backward[ip];
          }
      }
      ip := ip + 1;
      assert next == At(ip, Store(memory[..], dp, output));
    }
    status := Finished;
  }

  /** `interpreter`: it refuses a text without a tree and otherwise does what the tree
      means. */
  method Interpreter(text: string, steps: nat) returns (status: Status, memory: array<Cell>, dp: int, output: seq<Cell>)
    ensures !Balanced(text) ==> status == Unmatched && output == []
    ensures forall p | Render(p) == text ::
              var (st, s) := Meaning(p, steps);
              status == st && memory[..] == s.memory && dp == PointerLeft(st, s) && output == s.output
    ensures if status == Underflow then dp == -1 else if status == Overflow then dp == MEM_SIZE else 0 <= dp < MEM_SIZE
  {
    memory := new Cell[MEM_SIZE](_ => 0);
    dp, output := 0, [];
    var ok, forward, backward := PrepareJumpTable(text);
    if !ok {
      assert forall p :: Render(p) != text;
      return Unmatched, memory, dp, output;
    }
    assert memory[..] == Initial().memory;
    var code := Code(text, forward, backward);
    status, dp, output := RunCode(code, steps, memory);
    forall p | Render(p) == text ensures Flat(Language(), code, 0, Initial(), steps) == Meaning(p, steps) {
      FlatIsStructured(Language(), p, code, Initial(), steps);
    }
  }

  /** A program that stops on its own has one result: every larger bound gives it too. */
  lemma ResultIsStable(p: Program, steps: nat, extra: nat)
    requires Meaning(p, steps).0 != OutOfSteps
    ensures Meaning(p, steps + extra) == Meaning(p, steps)
  {
    MoreSteps(Language(), p, Initial(), steps, extra);
  }
}
