/** Why the jump table of others/brain_fuck.cpp is enough: for every set of commands, the
    flat machine that follows the table does what the tree of commands and while loops
    says, step for step.

    A command set is a parameter here; BrainFuckMachine.dfy supplies the one of the
    interpreter.
    */
module FlatCode {
  import opened BrainFuck

  datatype Status = OutOfSteps | Finished | InvalidProgram | Underflow | Overflow | Unmatched

  /** The effect of one command: go on, or stop the machine. */
  datatype Effect<+S> = Go(state: S) | Halt(status: Status, state: S)

  /** What commands do, and when a loop goes on. */
  datatype Language<!S> = Language(perform: (Symbol, S) -> Effect<S>, test: S -> bool)

  /** How running a piece of program for some steps ends: it is passed with steps to spare,
      or the machine stops inside it. */
  datatype Outcome<+S> =
    | Passed(state: S, steps: nat)
    | Stopped(status: Status, state: S)

  // ---------- The structured meaning ----------

  /** Run a program tree for at most `steps` steps; every command and every test of a loop
      takes one. */
  function Exec<S>(lang: Language<S>, p: Program, s: S, steps: nat): (o: Outcome<S>)
    ensures o.Passed? ==> o.steps <= steps
    decreases steps, p, 0
  {
    match p
    case End => Passed(s, steps)
    case Command(c, rest) =>
      if steps == 0 then Stopped(OutOfSteps, s)
      else (match lang.perform(c, s)
            case Go(s') => Exec(lang, rest, s', steps - 1)
            case Halt(status, s') => Stopped(status, s'))
    case Loop(body, rest) =>
      var o := While(lang, body, s, steps);
      if o.Passed? then Exec(lang, rest, o.state, o.steps) else o
  }

  /** `while (test) body` */
  function While<S>(lang: Language<S>, body: Program, s: S, steps: nat): (o: Outcome<S>)
    ensures o.Passed? ==> o.steps <= steps
    decreases steps, body, 1
  {
    if steps == 0 then Stopped(OutOfSteps, s)
    else if !lang.test(s) then Passed(s, steps - 1)
    else
      var o := Exec(lang, body, s, steps - 1);
      if o.Passed? then While(lang, body, o.state, o.steps) else o
  }

  // ---------- The flat machine ----------

  datatype Code = Code(text: string, forward: map<int, int>, backward: map<int, int>)

  /** `jumps[ip]` on an `unordered_map`: a missing key reads as 0. */
  function Jump(jumps: map<int, int>, ip: nat): nat
  {
    if ip in jumps && jumps[ip] >= 0 then jumps[ip] else 0
  }

  datatype Config<+S> =
    | At(ip: nat, state: S)
    | Halted(status: Status, state: S)

  /** One round of the interpreter's loop. */
  function Step<S>(lang: Language<S>, code: Code, ip: nat, s: S): Config<S>
    requires ip < |code.text|
  {
    var ch := code.text[ip];
    if ch == '[' then At((if !lang.test(s) then Jump(code.forward, ip) else ip) + 1, s)
    else if ch == ']' then At((if lang.test(s) then Jump(code.backward, ip) else ip) + 1, s)
    else match lang.perform(ch, s)
      case Go(s') => At(ip + 1, s')
      case Halt(status, s') => Halted(status, s')
  }

  function Flat<S>(lang: Language<S>, code: Code, ip: nat, s: S, steps: nat): (Status, S)
    decreases steps
  {
    if ip >= |code.text| then (Finished, s)
    else if steps == 0 then (OutOfSteps, s)
    else match Step(lang, code, ip, s)
      case At(ip', s') => Flat(lang, code, ip', s', steps - 1)
      case Halted(status, s') => (status, s')
  }

  // ---------- Where a tree stands in the text ----------

  /** The length of the text of `p`. */
  function Length(p: Program): nat
  {
    match p
    case End => 0
    case Command(_, rest) => 1 + Length(rest)
    case Loop(body, rest) => 2 + Length(body) + Length(rest)
  }

  lemma {:induction false} RenderLength(p: Program)
    ensures |Render(p)| == Length(p)
  {
    match p
    case End =>
    case Command(_, rest) => RenderLength(rest);
    case Loop(body, rest) => RenderLength(body); RenderLength(rest);
  }

  /** The text of `p` stands at position `at`. */
  ghost predicate StandsAt(text: string, at: nat, p: Program)
    decreases p
  {
    match p
    case End => at <= |text|
    case Command(c, rest) => at < |text| && text[at] == c && StandsAt(text, at + 1, rest)
    case Loop(body, rest) =>
      var close := at + 1 + Length(body);
      && close < |text| && text[at] == '[' && text[close] == ']'
      && StandsAt(text, at + 1, body) && StandsAt(text, close + 1, rest)
  }

  /** The text `s` stands at position `at`. */
  predicate Holds(text: string, at: nat, s: string)
  {
    at + |s| <= |text| && text[at..at + |s|] == s
  }

  lemma CommandSplits(text: string, at: nat, c: char, rest: string)
    requires Holds(text, at, [c] + rest)
    ensures text[at] == c && Holds(text, at + 1, rest)
  {
    var s := [c] + rest;
    assert forall k | 0 <= k < |s| :: text[at + k] == text[at..at+|s|][k] == s[k];
    assert forall k | 0 <= k < |rest| :: rest[k] == s[k+1];
  }

  lemma LoopSplits(text: string, at: nat, body: string, rest: string)
    requires Holds(text, at, "[" + body + "]" + rest)
    ensures text[at] == '[' && Holds(text, at + 1, body)
    ensures text[at+1+|body|] == ']' && Holds(text, at + 2 + |body|, rest)
  {
    var s := "[" + body + "]" + rest;
    assert forall k | 0 <= k < |s| :: text[at + k] == text[at..at+|s|][k] == s[k];
    assert forall k | 0 <= k < |body| :: body[k] == s[k+1];
    assert forall k | 0 <= k < |rest| :: rest[k] == s[k+2+|body|];
  }

  /** Where the parts of a program are. */
  lemma {:induction false} CommandParts(text: string, at: nat, p: Program)
    requires p.Command? && Holds(text, at, Render(p))
    ensures text[at] == p.symbol && Holds(text, at + 1, Render(p.rest))
  {
    var c: char := p.symbol;
    assert Render(p) == [c] + Render(p.rest);
    CommandSplits(text, at, c, Render(p.rest));
  }

  lemma {:induction false} LoopParts(text: string, at: nat, p: Program, close: nat)
    requires p.Loop? && Holds(text, at, Render(p)) && close == at + 1 + Length(p.body)
    ensures close < |text| && text[at] == '[' && text[close] == ']'
    ensures Holds(text, at + 1, Render(p.body)) && Holds(text, close + 1, Render(p.rest))
  {
    RenderLength(p.body);
    LoopSplits(text, at, Render(p.body), Render(p.rest));
  }

  lemma {:induction false} CommandStands(text: string, at: nat, p: Program)
    requires p.Command? && at < |text| && text[at] == p.symbol && StandsAt(text, at + 1, p.rest)
    ensures StandsAt(text, at, p)
  {
  }

  lemma {:induction false} LoopStands(text: string, at: nat, p: Program, close: nat)
    requires p.Loop? && close == at + 1 + Length(p.body) && close < |text| && text[at] == '[' && text[close] == ']'
    requires StandsAt(text, at + 1, p.body) && StandsAt(text, close + 1, p.rest)
    ensures StandsAt(text, at, p)
  {
  }

  lemma {:induction false} RenderStands(text: string, at: nat, p: Program)
    requires Holds(text, at, Render(p))
    ensures StandsAt(text, at, p)
    decreases p
  {
    if p.Command? {
      CommandParts(text, at, p);
      RenderStands(text, at + 1, p.rest);
      CommandStands(text, at, p);
    } else if p.Loop? {
      var close := at + 1 + Length(p.body);
      LoopParts(text, at, p, close);
      RenderStands(text, at + 1, p.body);
      RenderStands(text, close + 1, p.rest);
      LoopStands(text, at, p, close);
    }
  }

  lemma HoldsCommand(text: string, at: nat, c: char, rest: string)
    requires at < |text| && text[at] == c && Holds(text, at + 1, rest)
    ensures Holds(text, at, [c] + rest)
  {
  }

  lemma HoldsLoop(text: string, at: nat, body: string, rest: string)
    requires at < |text| && text[at] == '[' && Holds(text, at + 1, body)
    requires at + 1 + |body| < |text| && text[at + 1 + |body|] == ']' && Holds(text, at + 2 + |body|, rest)
    ensures Holds(text, at, "[" + body + "]" + rest)
  {
    var close := at + 1 + |body|;
    assert text[at..close + 1 + |rest|] == text[at..at+1] + text[at+1..close] + text[close..close+1] + text[close+1..close+1+|rest|];
  }

  lemma {:induction false} CommandHolds(text: string, at: nat, p: Program)
    requires p.Command? && at < |text| && text[at] == p.symbol && Holds(text, at + 1, Render(p.rest))
    ensures Holds(text, at, Render(p))
  {
    HoldsCommand(text, at, p.symbol, Render(p.rest));
  }

  lemma {:induction false} LoopHolds(text: string, at: nat, p: Program, close: nat)
    requires p.Loop? && close == at + 1 + Length(p.body) && close < |text| && text[at] == '[' && text[close] == ']'
    requires Holds(text, at + 1, Render(p.body)) && Holds(text, close + 1, Render(p.rest))
    ensures Holds(text, at, Render(p))
  {
    RenderLength(p.body);
    HoldsLoop(text, at, Render(p.body), Render(p.rest));
  }

  /** What stands in the text is the text of the tree. */
  lemma {:induction false} StandsRender(text: string, at: nat, p: Program)
    requires StandsAt(text, at, p)
    ensures Holds(text, at, Render(p))
    decreases p
  {
    if p.Command? {
      StandsRender(text, at + 1, p.rest);
      CommandHolds(text, at, p);
    } else if p.Loop? {
      var close := at + 1 + Length(p.body);
      StandsRender(text, at + 1, p.body);
      StandsRender(text, close + 1, p.rest);
      LoopHolds(text, at, p, close);
    }
  }

  /** The brackets of a loop match. */
  lemma {:induction false} LoopMatches(text: string, at: nat, close: nat, body: Program)
    requires close == at + 1 + Length(body) && close < |text| && text[at] == '[' && text[close] == ']'
    requires StandsAt(text, at + 1, body)
    ensures Match(text, at, close)
  {
    RenderLength(body);
    StandsRender(text, at + 1, body);
  }

  lemma {:induction false} SameLength(text: string, at: nat, p: Program, q: Program)
    requires p.Loop? && q.Loop? && StandsAt(text, at, p) && StandsAt(text, at, q)
    ensures Length(p.body) == Length(q.body)
  {
    var close, close' := at + 1 + Length(p.body), at + 1 + Length(q.body);
    LoopMatches(text, at, close, p.body);
    LoopMatches(text, at, close', q.body);
    MatchIsUnique(text, at, close, close');
  }

  lemma {:induction false} TreeIsUnique(text: string, at: nat, p: Program, q: Program)
    requires StandsAt(text, at, p) && StandsAt(text, at, q) && Length(p) == Length(q)
    ensures p == q
    decreases p
  {
    if p.Command? && q.Command? {
      TreeIsUnique(text, at + 1, p.rest, q.rest);
    } else if p.Loop? && q.Loop? {
      SameLength(text, at, p, q);
      TreeIsUnique(text, at + 1, p.body, q.body);
      TreeIsUnique(text, at + 1 + Length(p.body) + 1, p.rest, q.rest);
    }
  }

  /** A text has one tree. */
  lemma RenderIsInjective(p: Program, q: Program)
    requires Render(p) == Render(q)
    ensures p == q
  {
    var text := Render(p);
    assert text[0..|text|] == text;
    RenderStands(text, 0, p);
    RenderStands(text, 0, q);
    RenderLength(p);
    RenderLength(q);
    TreeIsUnique(text, 0, p, q);
  }

  /** The code at `at` is that of `p`, with the jumps of its loops. */
  predicate Wired(code: Code, at: nat, p: Program)
    decreases p
  {
    match p
    case End => at <= |code.text|
    case Command(c, rest) => at < |code.text| && code.text[at] == c && Wired(code, at + 1, rest)
    case Loop(body, rest) =>
      var close := at + 1 + Length(body);
      WiredLoop(code, at, close) && Wired(code, at + 1, body) && Wired(code, close + 1, rest)
  }

  predicate WiredLoop(code: Code, at: nat, close: nat)
  {
    && at < close < |code.text| && code.text[at] == '[' && code.text[close] == ']'
    && Jump(code.forward, at) == close && Jump(code.backward, close) == at
  }

  /** The maps jump between matching brackets. */
  ghost predicate Jumps(code: Code)
  {
    forall i: nat, j: nat {:trigger Match(code.text, i, j)} | Match(code.text, i, j) :: WiredLoop(code, i, j)
  }

  lemma {:induction false} Partner(text: string, forward: map<int, int>, backward: map<int, int>, i: int, j: int)
    requires JumpTable(text, forward, backward) && Match(text, i, j)
    ensures i in forward && forward[i] == j && j in backward && backward[j] == i
  {
    assert i in forward;
    MatchIsUnique(text, i, j, forward[i]);
  }

  lemma {:induction false} PartnerWires(code: Code, i: nat, j: nat)
    requires JumpTable(code.text, code.forward, code.backward) && Match(code.text, i, j)
    ensures WiredLoop(code, i, j)
  {
    Partner(code.text, code.forward, code.backward, i, j);
  }

  lemma {:induction false} TableJumps(code: Code)
    requires JumpTable(code.text, code.forward, code.backward)
    ensures Jumps(code)
  {
    forall i: nat, j: nat | Match(code.text, i, j) ensures WiredLoop(code, i, j) {
      PartnerWires(code, i, j);
    }
  }

  lemma {:induction false} LoopIsWired(code: Code, at: nat, close: nat, body: Program)
    requires Jumps(code) && close == at + 1 + Length(body) && close < |code.text|
    requires code.text[at] == '[' && code.text[close] == ']' && StandsAt(code.text, at + 1, body)
    ensures WiredLoop(code, at, close)
  {
    LoopMatches(code.text, at, close, body);
  }

  lemma {:induction false} CommandIsWired(code: Code, at: nat, p: Program)
    requires p.Command? && at < |code.text| && code.text[at] == p.symbol && Wired(code, at + 1, p.rest)
    ensures Wired(code, at, p)
  {
  }

  lemma {:induction false} PartsAreWired(code: Code, at: nat, p: Program, close: nat)
    requires p.Loop? && close == at + 1 + Length(p.body) && WiredLoop(code, at, close)
    requires Wired(code, at + 1, p.body) && Wired(code, close + 1, p.rest)
    ensures Wired(code, at, p)
  {
  }

  lemma {:induction false} TableWires(code: Code, at: nat, p: Program)
    requires Jumps(code) && StandsAt(code.text, at, p)
    ensures Wired(code, at, p)
    decreases p
  {
    if p.Command? {
      TableWires(code, at + 1, p.rest);
      CommandIsWired(code, at, p);
    } else if p.Loop? {
      var close := at + 1 + Length(p.body);
      LoopIsWired(code, at, close, p.body);
      TableWires(code, at + 1, p.body);
      TableWires(code, close + 1, p.rest);
      PartsAreWired(code, at, p, close);
    }
  }

  // ---------- The two agree ----------

  /** From `ip` the machine does what `o` says and then goes on at `end`. */
  predicate Runs<S(==)>(lang: Language<S>, code: Code, ip: nat, s: S, steps: nat, end: nat, o: Outcome<S>)
  {
    Flat(lang, code, ip, s, steps) == if o.Passed? then Flat(lang, code, end, o.state, o.steps) else (o.status, o.state)
  }

  /** The flat machine passes a piece of text exactly as its tree is run. */
  lemma {:induction false} FlatRunsTree<S>(lang: Language<S>, code: Code, at: nat, p: Program, s: S, steps: nat, end: nat)
    requires Wired(code, at, p) && end == at + Length(p)
    ensures Runs(lang, code, at, s, steps, end, Exec(lang, p, s, steps))
    decreases steps, p, 0
  {
    match p
    case End =>
    case Command(c, rest) =>
      if steps > 0 && lang.perform(c, s).Go? {
        FlatRunsTree(lang, code, at + 1, rest, lang.perform(c, s).state, steps - 1, end);
      }
    case Loop(body, rest) =>
      var close := at + 1 + Length(body);
      FlatRunsLoop(lang, code, at, body, at, s, steps, close);
      var o, all := While(lang, body, s, steps), Exec(lang, p, s, steps);
      if o.Passed? {
        FlatRunsTree(lang, code, close + 1, rest, o.state, o.steps, end);
        RunsFurther(lang, code, at, s, steps, close + 1, o.state, o.steps, end, all);
      }
  }

  lemma {:induction false} EntersLoop<S>(lang: Language<S>, code: Code, open: nat, close: nat, ip: nat, s: S, steps: nat)
    requires WiredLoop(code, open, close) && (ip == open || ip == close)
    requires steps > 0 && lang.test(s)
    ensures Flat(lang, code, ip, s, steps) == Flat(lang, code, open + 1, s, steps - 1)
  {
    assert Step(lang, code, ip, s) == At(open + 1, s);
  }

  lemma {:induction false} LeavesLoop<S>(lang: Language<S>, code: Code, open: nat, close: nat, body: Program,
      ip: nat, s: S, steps: nat)
    requires WiredLoop(code, open, close) && (ip == open || ip == close)
    requires steps == 0 || !lang.test(s)
    ensures Runs(lang, code, ip, s, steps, close + 1, While(lang, body, s, steps))
  {
    assert steps > 0 ==> Step(lang, code, ip, s) == At(close + 1, s);
  }

  lemma {:induction false} RunsFurther<S>(lang: Language<S>, code: Code, ip: nat, s: S, steps: nat,
      ip': nat, s': S, steps': nat, end: nat, o: Outcome<S>)
    requires Flat(lang, code, ip, s, steps) == Flat(lang, code, ip', s', steps') && Runs(lang, code, ip', s', steps', end, o)
    ensures Runs(lang, code, ip, s, steps, end, o)
  {
  }

  /** One round of a loop and what follows it. */
  lemma {:induction false} RunsRound<S>(lang: Language<S>, code: Code, ip: nat, s: S, steps: nat,
      inside: nat, close: nat, end: nat, body: Program, o: Outcome<S>)
    requires steps > 0 && lang.test(s) && o == Exec(lang, body, s, steps - 1)
    requires Flat(lang, code, ip, s, steps) == Flat(lang, code, inside, s, steps - 1)
    requires Runs(lang, code, inside, s, steps - 1, close, o)
    requires o.Passed? ==> Runs(lang, code, close, o.state, o.steps, end, While(lang, body, o.state, o.steps))
    ensures Runs(lang, code, ip, s, steps, end, While(lang, body, s, steps))
  {
  }

  /** Standing on either bracket of a loop, the machine makes the test of the loop. */
  lemma {:induction false} FlatRunsLoop<S>(lang: Language<S>, code: Code, open: nat, body: Program, ip: nat, s: S,
      steps: nat, close: nat)
    requires close == open + 1 + Length(body) && WiredLoop(code, open, close) && Wired(code, open + 1, body)
    requires ip == open || ip == close
    ensures Runs(lang, code, ip, s, steps, close + 1, While(lang, body, s, steps))
    decreases steps, body, 1
  {
    if steps == 0 || !lang.test(s) {
      LeavesLoop(lang, code, open, close, body, ip, s, steps);
    } else {
      EntersLoop(lang, code, open, close, ip, s, steps);
      FlatRunsTree(lang, code, open + 1, body, s, steps - 1, close);
      var o := Exec(lang, body, s, steps - 1);
      if o.Passed? {
        FlatRunsLoop(lang, code, open, body, close, o.state, o.steps, close);
      }
      RunsRound(lang, code, ip, s, steps, open + 1, close, close + 1, body, o);
    }
  }

  /** On a whole program the flat machine and the tree agree. */
  lemma FlatIsStructured<S>(lang: Language<S>, p: Program, code: Code, s: S, steps: nat)
    requires code.text == Render(p) && JumpTable(code.text, code.forward, code.backward)
    ensures var o := Exec(lang, p, s, steps);
            Flat(lang, code, 0, s, steps) == if o.Passed? then (Finished, o.state) else (o.status, o.state)
  {
    assert code.text[0..|code.text|] == code.text;
    RenderStands(code.text, 0, p);
    RenderLength(p);
    TableJumps(code);
    TableWires(code, 0, p);
    FlatRunsTree(lang, code, 0, p, s, steps, Length(p));
  }

  // ---------- The step bound only cuts runs short ----------

  /** A run that ends on its own ends the same way under every larger bound. */
  lemma {:induction false} MoreSteps<S>(lang: Language<S>, p: Program, s: S, steps: nat, extra: nat)
    ensures var o, o' := Exec(lang, p, s, steps), Exec(lang, p, s, steps + extra);
            && (o.Passed? ==> o' == Passed(o.state, o.steps + extra))
            && (o.Stopped? && o.status != OutOfSteps ==> o' == o)
    decreases steps, p, 0
  {
    match p
    case End =>
    case Command(c, rest) =>
      if steps > 0 && lang.perform(c, s).Go? {
        MoreSteps(lang, rest, lang.perform(c, s).state, steps - 1, extra);
      }
    case Loop(body, rest) =>
      MoreRounds(lang, body, s, steps, extra);
      var o := While(lang, body, s, steps);
      if o.Passed? { MoreSteps(lang, rest, o.state, o.steps, extra); }
  }

  lemma {:induction false} MoreRounds<S>(lang: Language<S>, body: Program, s: S, steps: nat, extra: nat)
    ensures var o, o' := While(lang, body, s, steps), While(lang, body, s, steps + extra);
            && (o.Passed? ==> o' == Passed(o.state, o.steps + extra))
            && (o.Stopped? && o.status != OutOfSteps ==> o' == o)
    decreases steps, body, 1
  {
    if steps > 0 && lang.test(s) {
      MoreSteps(lang, body, s, steps - 1, extra);
      var o := Exec(lang, body, s, steps - 1);
      if o.Passed? { MoreRounds(lang, body, o.state, o.steps, extra); }
    }
  }
}
