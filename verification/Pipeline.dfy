/** The four-stage pipeline of frame_work/src: feed handler, strategy shards, OMS with a
    risk check, and trade sink, each a thread of its own, joined by SPSC queues.

    A queue appears here as the bounded FIFO that the ring of Spsc.dfy refines; as the ring
    may see a stale index, a push may fail although a slot is free and is then dropped.
    Between popping and pushing a thread holds one item.
    */
module Pipeline {
  import opened Basics
  import opened Wrapping

  const CAPACITY := 1024

  datatype MarketEvent = MarketEvent(symbol: string, bid: real, ask: real, size: real, seqNo: int)

  /** Also the shape of an order command: the OMS copies every field. */
  datatype Decision = Decision(symbol: string, buy: bool, price: real, qty: real, seqNo: int)

  /** One shard: its market queue, what its thread holds, and its decision queue. */
  datatype Lane = Lane(market: seq<MarketEvent>, held: Option<Decision>, decisions: seq<Decision>)

  /** The wiring: symbols fed in turn and the shard of each symbol. */
  datatype Config = Config(symbols: seq<string>, shardOf: string -> nat, shards: nat)

  datatype State = State(
    turn: nat,                      // position in the symbol list
    seqs: map<string, int>,
    feed: Option<MarketEvent>,      // made, not yet pushed
    lanes: seq<Lane>,
    oms: Option<Decision>,          // popped, not yet pushed
    orders: seq<Decision>,
    sent: seq<Decision>,            // what TradeIo logged
    dropped: nat,
    rejected: nat,
    history: seq<MarketEvent>)      // every event made

  datatype Step =
    | FeedMake(bid: real, ask: real)
    | FeedPush(accepted: bool)
    | StrategyPop(shard: nat)
    | StrategyPush(shard: nat, accepted: bool)
    | OmsPop(shard: nat)
    | OmsReject
    | OmsPush(accepted: bool)
    | TradePop

  ghost predicate ValidConfig(c: Config)
  {
    c.symbols != [] && c.shards > 0 && forall symbol :: ShardFor(c, symbol) < c.shards
  }

  function ShardFor(c: Config, symbol: string): nat
  {
    c.shardOf(symbol)
  }

  /** `shard_for_symbol`: whatever the hash, the wiring is one of the above. */
  function HashConfig(symbols: seq<string>, hash: string -> nat, shards: nat): (c: Config)
    requires symbols != [] && shards > 0
    ensures ValidConfig(c) && c.symbols == symbols && c.shards == shards
    ensures forall symbol :: ShardFor(c, symbol) == hash(symbol) % shards
  {
    Config(symbols, symbol => hash(symbol) % shards, shards)
  }

  /** What a strategy makes of an event. */
  function Decide(e: MarketEvent): Decision
  {
    var mid := (e.bid + e.ask) * 0.5;
    var buy := e.seqNo % 2 == 0;
    Decision(e.symbol, buy, if buy then mid - 0.05 else mid + 0.05, e.size * 0.8, e.seqNo)
  }

  predicate RiskPasses(d: Decision)
  {
    d.qty <= 1.5
  }

  predicate HasRoom<T>(q: seq<T>)
  {
    |q| < CAPACITY - 1
  }

  ghost predicate Enabled(c: Config, s: State, step: Step)
    requires ValidConfig(c)
  {
    && |s.lanes| == c.shards && s.turn < |c.symbols|
    && match step
       case FeedMake(_, _) => s.feed.None?
       case FeedPush(accepted) => s.feed.Some? && (accepted ==> HasRoom(s.lanes[ShardFor(c, s.feed.value.symbol)].market))
       case StrategyPop(i) => i < c.shards && s.lanes[i].held.None? && s.lanes[i].market != []
       case StrategyPush(i, accepted) => i < c.shards && s.lanes[i].held.Some? && (accepted ==> HasRoom(s.lanes[i].decisions))
       case OmsPop(i) => i < c.shards && s.oms.None? && s.lanes[i].decisions != []
       case OmsReject => s.oms.Some? && !RiskPasses(s.oms.value)
       case OmsPush(accepted) => s.oms.Some? && RiskPasses(s.oms.value) && (accepted ==> HasRoom(s.orders))
       case TradePop => s.orders != []
  }

  function CountIf(b: bool): nat
  {
    if b then 1 else 0
  }

  ghost function Apply(c: Config, s: State, step: Step): State
    requires ValidConfig(c) && Enabled(c, s, step)
  {
    match step
    case FeedMake(bid, ask) =>
      var symbol := c.symbols[s.turn];
      var seqNo := (if symbol in s.seqs then s.seqs[symbol] else 0) + 1;
      var e := MarketEvent(symbol, bid, ask, 0.5, seqNo);
      s.(seqs := s.seqs[symbol := seqNo], feed := Some(e), history := s.history + [e])
    case FeedPush(accepted) =>
      var e := s.feed.value;
      var i := ShardFor(c, e.symbol);
      var lane := s.lanes[i];
      s.(feed := None, turn := if s.turn + 1 == |c.symbols| then 0 else s.turn + 1,
         lanes := s.lanes[i := if accepted then lane.(market := lane.market + [e]) else lane],
         dropped := s.dropped + CountIf(!accepted))
    case StrategyPop(i) =>
      var lane := s.lanes[i];
      s.(lanes := s.lanes[i := lane.(market := lane.market[1..], held := Some(Decide(lane.market[0])))])
    case StrategyPush(i, accepted) =>
      var lane := s.lanes[i];
      s.(lanes := s.lanes[i := lane.(held := None,
                                     decisions := if accepted then lane.decisions + [lane.held.value] else lane.decisions)],
         dropped := s.dropped + CountIf(!accepted))
    case OmsPop(i) =>
      var lane := s.lanes[i];
      s.(oms := Some(lane.decisions[0]), lanes := s.lanes[i := lane.(decisions := lane.decisions[1..])])
    case OmsReject =>
      s.(oms := None, rejected := s.rejected + 1)
    case OmsPush(accepted) =>
      s.(oms := None, orders := if accepted then s.orders + [s.oms.value] else s.orders,
         dropped := s.dropped + CountIf(!accepted))
    case TradePop =>
      s.(orders := s.orders[1..], sent := s.sent + [s.orders[0]])
  }

  ghost predicate Initial(c: Config, s: State)
  {
    && s.turn == 0 && s.seqs == map[] && s.feed == None && s.oms == None
    && |s.lanes| == c.shards && (forall i | 0 <= i < |s.lanes| :: s.lanes[i] == Lane([], None, []))
    && s.orders == [] && s.sent == [] && s.history == [] && s.dropped == 0 && s.rejected == 0
  }

  ghost predicate Run(c: Config, s: State, steps: seq<Step>, t: State)
    requires ValidConfig(c)
    decreases |steps|
  {
    if steps == [] then s == t
    else Enabled(c, s, steps[0]) && Run(c, Apply(c, s, steps[0]), steps[1..], t)
  }

  // ---------- Every item comes from an event ----------

  predicate LaneHas(lane: Lane, d: Decision)
  {
    d in lane.decisions || lane.held == Some(d)
  }

  ghost predicate MadeFrom(history: seq<MarketEvent>, d: Decision)
  {
    exists e :: e in history && d == Decide(e)
  }

  /** What stands in a shard belongs there: events of the feed, and decisions made from such. */
  ghost predicate LaneSound(c: Config, history: seq<MarketEvent>, lane: Lane, i: nat)
  {
    && (forall e | e in lane.market :: e in history && ShardFor(c, e.symbol) == i)
    && (forall d | LaneHas(lane, d) :: MadeFrom(history, d) && ShardFor(c, d.symbol) == i)
  }

  /** Every market event is one the feed made, every decision and order is what the strategy
      makes of such an event, and shards are not mixed. */
  ghost predicate Provenance(c: Config, s: State)
    requires ValidConfig(c)
  {
    && |s.lanes| == c.shards && s.turn < |c.symbols| && s.rejected == 0
    && (forall e | s.feed == Some(e) :: e in s.history)
    && (forall e | e in s.history :: e.size == 0.5)
    && (forall i | 0 <= i < |s.lanes| :: LaneSound(c, s.history, s.lanes[i], i))
    && (forall d | s.oms == Some(d) || d in s.orders || d in s.sent :: MadeFrom(s.history, d))
  }

  lemma {:induction false} StillMade(history: seq<MarketEvent>, more: seq<MarketEvent>, d: Decision)
    requires MadeFrom(history, d)
    ensures MadeFrom(history + more, d)
  {
    var e :| e in history && d == Decide(e);
    assert e in history + more;
  }

  lemma {:induction false} StillSound(c: Config, history: seq<MarketEvent>, more: seq<MarketEvent>, lane: Lane, i: nat)
    requires LaneSound(c, history, lane, i)
    ensures LaneSound(c, history + more, lane, i)
  {
    forall d | LaneHas(lane, d) ensures MadeFrom(history + more, d) {
      StillMade(history, more, d);
    }
  }

  lemma {:induction false} EventJoinsLane(c: Config, history: seq<MarketEvent>, lane: Lane, i: nat, e: MarketEvent)
    requires LaneSound(c, history, lane, i) && e in history && ShardFor(c, e.symbol) == i
    ensures LaneSound(c, history, lane.(market := lane.market + [e]), i)
  {
    var after := lane.(market := lane.market + [e]);
    assert forall d | LaneHas(after, d) :: LaneHas(lane, d);
  }

  lemma {:induction false} LaneDecides(c: Config, history: seq<MarketEvent>, lane: Lane, i: nat)
    requires LaneSound(c, history, lane, i) && lane.held.None? && lane.market != []
    ensures LaneSound(c, history, lane.(market := lane.market[1..], held := Some(Decide(lane.market[0]))), i)
  {
    var e := lane.market[0];
    var after := lane.(market := lane.market[1..], held := Some(Decide(e)));
    assert e in lane.market && MadeFrom(history, Decide(e));
    forall d | LaneHas(after, d) ensures LaneHas(lane, d) || d == Decide(e) {
    }
  }

  lemma {:induction false} LanePasses(c: Config, history: seq<MarketEvent>, lane: Lane, i: nat, accepted: bool)
    requires LaneSound(c, history, lane, i) && lane.held.Some?
    ensures LaneSound(c, history, lane.(held := None,
                                        decisions := if accepted then lane.decisions + [lane.held.value] else lane.decisions), i)
  {
    var after := lane.(held := None, decisions := if accepted then lane.decisions + [lane.held.value] else lane.decisions);
    forall d | LaneHas(after, d) ensures LaneHas(lane, d) {
    }
  }

  lemma {:induction false} DecisionLeavesLane(c: Config, history: seq<MarketEvent>, lane: Lane, i: nat)
    requires LaneSound(c, history, lane, i) && lane.decisions != []
    ensures LaneSound(c, history, lane.(decisions := lane.decisions[1..]), i) && MadeFrom(history, lane.decisions[0])
    ensures ShardFor(c, lane.decisions[0].symbol) == i
  {
    var after := lane.(decisions := lane.decisions[1..]);
    assert LaneHas(lane, lane.decisions[0]);
    forall d | LaneHas(after, d) ensures LaneHas(lane, d) {
    }
  }

  lemma {:induction false} FeedMakeKeepsProvenance(c: Config, s: State, bid: real, ask: real)
    requires ValidConfig(c) && Provenance(c, s) && Enabled(c, s, FeedMake(bid, ask))
    ensures Provenance(c, Apply(c, s, FeedMake(bid, ask)))
  {
    var t := Apply(c, s, FeedMake(bid, ask));
    var more := [t.feed.value];
    forall i | 0 <= i < |t.lanes| ensures LaneSound(c, t.history, t.lanes[i], i) {
      StillSound(c, s.history, more, s.lanes[i], i);
    }
    forall d | MadeFrom(s.history, d) ensures MadeFrom(t.history, d) {
      StillMade(s.history, more, d);
    }
  }

  lemma {:induction false} FeedPushKeepsProvenance(c: Config, s: State, accepted: bool)
    requires ValidConfig(c) && Provenance(c, s) && Enabled(c, s, FeedPush(accepted))
    ensures Provenance(c, Apply(c, s, FeedPush(accepted)))
  {
    var e := s.feed.value;
    var i := ShardFor(c, e.symbol);
    EventJoinsLane(c, s.history, s.lanes[i], i, e);
  }

  lemma {:induction false} StrategyPopKeepsProvenance(c: Config, s: State, i: nat)
    requires ValidConfig(c) && Provenance(c, s) && Enabled(c, s, StrategyPop(i))
    ensures Provenance(c, Apply(c, s, StrategyPop(i)))
  {
    LaneDecides(c, s.history, s.lanes[i], i);
  }

  lemma {:induction false} StrategyPushKeepsProvenance(c: Config, s: State, i: nat, accepted: bool)
    requires ValidConfig(c) && Provenance(c, s) && Enabled(c, s, StrategyPush(i, accepted))
    ensures Provenance(c, Apply(c, s, StrategyPush(i, accepted)))
  {
    LanePasses(c, s.history, s.lanes[i], i, accepted);
  }

  lemma {:induction false} OmsPopKeepsProvenance(c: Config, s: State, i: nat)
    requires ValidConfig(c) && Provenance(c, s) && Enabled(c, s, OmsPop(i))
    ensures Provenance(c, Apply(c, s, OmsPop(i)))
  {
    DecisionLeavesLane(c, s.history, s.lanes[i], i);
  }

  lemma {:induction false} RiskAlwaysPasses(c: Config, s: State)
    requires ValidConfig(c) && Provenance(c, s)
    ensures !Enabled(c, s, OmsReject)
  {
    if s.oms.Some? {
      assert MadeFrom(s.history, s.oms.value);
    }
  }

  lemma {:induction false} StepKeepsProvenance(c: Config, s: State, step: Step)
    requires ValidConfig(c) && Provenance(c, s) && Enabled(c, s, step)
    ensures Provenance(c, Apply(c, s, step))
  {
    match step
    case FeedMake(bid, ask) => FeedMakeKeepsProvenance(c, s, bid, ask);
    case FeedPush(accepted) => FeedPushKeepsProvenance(c, s, accepted);
    case StrategyPop(i) => StrategyPopKeepsProvenance(c, s, i);
    case StrategyPush(i, accepted) => StrategyPushKeepsProvenance(c, s, i, accepted);
    case OmsPop(i) => OmsPopKeepsProvenance(c, s, i);
    case OmsReject => RiskAlwaysPasses(c, s);
    case OmsPush(accepted) =>
    case TradePop =>
  }

  // ---------- Nothing is lost without a trace ----------

  function LaneSize(lane: Lane): nat
  {
    |lane.market| + CountIf(lane.held.Some?) + |lane.decisions|
  }

  function Backlog(lanes: seq<Lane>): nat
  {
    if lanes == [] then 0 else LaneSize(lanes[0]) + Backlog(lanes[1..])
  }

  lemma {:induction false} BacklogUpdate(lanes: seq<Lane>, i: nat, lane: Lane)
    requires i < |lanes|
    ensures Backlog(lanes[i := lane]) == Backlog(lanes) - LaneSize(lanes[i]) + LaneSize(lane)
  {
    if i > 0 {
      assert lanes[i := lane][1..] == lanes[1..][i - 1 := lane];
      BacklogUpdate(lanes[1..], i - 1, lane);
    } else {
      assert lanes[i := lane][1..] == lanes[1..];
    }
  }

  lemma {:induction false} BacklogOfEmpty(lanes: seq<Lane>)
    requires forall i | 0 <= i < |lanes| :: lanes[i] == Lane([], None, [])
    ensures Backlog(lanes) == 0
  {
    if lanes != [] {
      BacklogOfEmpty(lanes[1..]);
    }
  }

  ghost predicate Conserved(s: State)
  {
    |s.history| == s.dropped + s.rejected
                 + CountIf(s.feed.Some?) + Backlog(s.lanes) + CountIf(s.oms.Some?) + |s.orders| + |s.sent|
  }

  /** One lane has changed, and the counts with it. */
  lemma {:induction false} LaneConserves(s: State, i: nat, lane: Lane, t: State)
    requires Conserved(s) && i < |s.lanes| && t.lanes == s.lanes[i := lane]
    requires t.history == s.history && t.orders == s.orders && t.sent == s.sent && t.rejected == s.rejected
    requires t.dropped + CountIf(t.feed.Some?) + CountIf(t.oms.Some?) + LaneSize(lane)
          == s.dropped + CountIf(s.feed.Some?) + CountIf(s.oms.Some?) + LaneSize(s.lanes[i])
    ensures Conserved(t)
  {
    BacklogUpdate(s.lanes, i, lane);
  }

  lemma {:induction false} StepConserves(c: Config, s: State, step: Step)
    requires ValidConfig(c) && Conserved(s) && Enabled(c, s, step)
    ensures Conserved(Apply(c, s, step))
  {
    var t := Apply(c, s, step);
    match step {
      case FeedPush(_) => LaneConserves(s, ShardFor(c, s.feed.value.symbol), t.lanes[ShardFor(c, s.feed.value.symbol)], t);
      case StrategyPop(i) => LaneConserves(s, i, t.lanes[i], t);
      case StrategyPush(i, _) => LaneConserves(s, i, t.lanes[i], t);
      case OmsPop(i) => LaneConserves(s, i, t.lanes[i], t);
      case _ =>
    }
  }

  // ---------- Order per symbol ----------

  /** What orders items: whose they are and their sequence number. */
  datatype Tag = Tag(symbol: string, seqNo: int)

  function EventTag(e: MarketEvent): Tag
  {
    Tag(e.symbol, e.seqNo)
  }

  function DecisionTag(d: Decision): Tag
  {
    Tag(d.symbol, d.seqNo)
  }

  function Tags<T>(items: seq<T>, tag: T -> Tag): (r: seq<Tag>)
    ensures |r| == |items| && forall i | 0 <= i < |items| :: r[i] == tag(items[i])
  {
    seq(|items|, i requires 0 <= i < |items| => tag(items[i]))
  }

  function HeldTag(o: Option<Decision>): seq<Tag>
  {
    if o.Some? then [Tag(o.value.symbol, o.value.seqNo)] else []
  }

  /** The items behind the merge: sent, ordered, held by the OMS. */
  function Downstream(s: State): seq<Tag>
  {
    Tags(s.sent, DecisionTag) + Tags(s.orders, DecisionTag) + HeldTag(s.oms)
  }

  /** The items of one shard, oldest first. */
  function Upstream(lane: Lane): seq<Tag>
  {
    Tags(lane.decisions, DecisionTag) + HeldTag(lane.held) + Tags(lane.market, EventTag)
  }

  /** Sequence numbers of `symbol` grow along the line. */
  ghost predicate Increasing(line: seq<Tag>, symbol: string)
  {
    forall i, j | 0 <= i < j < |line| && line[i].symbol == symbol && line[j].symbol == symbol :: line[i].seqNo < line[j].seqNo
  }

  ghost predicate AtMost(line: seq<Tag>, symbol: string, bound: int)
  {
    forall i | 0 <= i < |line| && line[i].symbol == symbol :: line[i].seqNo <= bound
  }

  /** The whole way of a symbol, from the sink back to the feed. */
  function Line(c: Config, s: State, symbol: string): seq<Tag>
    requires ValidConfig(c) && |s.lanes| == c.shards
  {
    Downstream(s) + Upstream(s.lanes[ShardFor(c, symbol)])
  }

  function LastSeq(s: State, symbol: string): int
  {
    if symbol in s.seqs then s.seqs[symbol] else 0
  }

  /** The last sequence number that has left the feed handler. */
  function Bound(s: State, symbol: string): int
  {
    LastSeq(s, symbol) - CountIf(s.feed.Some? && s.feed.value.symbol == symbol)
  }

  ghost predicate Ordered(c: Config, s: State, symbol: string)
    requires ValidConfig(c) && |s.lanes| == c.shards
  {
    && Increasing(Line(c, s, symbol), symbol)
    && AtMost(Line(c, s, symbol), symbol, Bound(s, symbol))
    && (s.feed.Some? && s.feed.value.symbol == symbol ==> s.feed.value.seqNo == LastSeq(s, symbol))
  }

  /** Taking an item out of the line keeps its order. */
  lemma {:induction false} RemoveFromLine(a: seq<Tag>, x: seq<Tag>, b: seq<Tag>, symbol: string, bound: int)
    requires Increasing(a + x + b, symbol) && AtMost(a + x + b, symbol, bound)
    ensures Increasing(a + b, symbol) && AtMost(a + b, symbol, bound)
  {
    var l, m := a + x + b, a + b;
    forall i | 0 <= i < |m| ensures m[i] == l[if i < |a| then i else i + |x|] {
    }
  }

  /** So does an item of another symbol that joins it. */
  lemma {:induction false} JoinLine(a: seq<Tag>, x: Tag, b: seq<Tag>, symbol: string, bound: int)
    requires Increasing(a + b, symbol) && AtMost(a + b, symbol, bound) && x.symbol != symbol
    ensures Increasing(a + [x] + b, symbol) && AtMost(a + [x] + b, symbol, bound)
  {
    var l, m := a + b, a + [x] + b;
    forall i | 0 <= i < |m| && i != |a| ensures m[i] == l[if i < |a| then i else i - 1] {
    }
  }

  lemma {:induction false} FeedPushExtendsLine(c: Config, s: State, symbol: string)
    requires ValidConfig(c) && Enabled(c, s, FeedPush(true)) && ShardFor(c, s.feed.value.symbol) == ShardFor(c, symbol)
    ensures Line(c, Apply(c, s, FeedPush(true)), symbol) ==
                Line(c, s, symbol) + [Tag(s.feed.value.symbol, s.feed.value.seqNo)]
  {
    var t := Apply(c, s, FeedPush(true));
    var e, i := s.feed.value, ShardFor(c, symbol);
    var lane, x := s.lanes[i], [Tag(e.symbol, e.seqNo)];
    assert Tags(t.lanes[i].market, EventTag) == Tags(lane.market, EventTag) + x;
    ConcatAssociative(Tags(lane.decisions, DecisionTag) + HeldTag(lane.held), Tags(lane.market, EventTag), x);
    ConcatAssociative(Downstream(s), Upstream(lane), x);
    assert Upstream(t.lanes[i]) == Upstream(lane) + x;
  }

  lemma {:induction false} FeedMakeKeepsOrder(c: Config, s: State, bid: real, ask: real, symbol: string)
    requires ValidConfig(c) && Enabled(c, s, FeedMake(bid, ask)) && Ordered(c, s, symbol)
    ensures Ordered(c, Apply(c, s, FeedMake(bid, ask)), symbol)
  {
    assert Line(c, Apply(c, s, FeedMake(bid, ask)), symbol) == Line(c, s, symbol);
  }

  lemma {:induction false} FeedPushKeepsOrder(c: Config, s: State, accepted: bool, symbol: string)
    requires ValidConfig(c) && Enabled(c, s, FeedPush(accepted)) && Ordered(c, s, symbol)
    ensures Ordered(c, Apply(c, s, FeedPush(accepted)), symbol)
  {
    if accepted && ShardFor(c, s.feed.value.symbol) == ShardFor(c, symbol) {
      FeedPushExtendsLine(c, s, symbol);
    } else {
      assert Line(c, Apply(c, s, FeedPush(accepted)), symbol) == Line(c, s, symbol);
    }
  }

  lemma {:induction false} FirstTag<T>(items: seq<T>, tag: T -> Tag)
    requires items != []
    ensures Tags(items, tag) == [tag(items[0])] + Tags(items[1..], tag)
  {
  }

  lemma {:induction false} LastTag<T>(items: seq<T>, tag: T -> Tag, last: T)
    ensures Tags(items + [last], tag) == Tags(items, tag) + [tag(last)]
  {
  }

  lemma {:induction false} LanePop(lane: Lane)
    requires lane.held.None? && lane.market != []
    ensures Upstream(lane.(market := lane.market[1..], held := Some(Decide(lane.market[0])))) == Upstream(lane)
  {
    var a, x, b := Tags(lane.decisions, DecisionTag), [Tag(lane.market[0].symbol, lane.market[0].seqNo)], Tags(lane.market[1..], EventTag);
    FirstTag(lane.market, EventTag);
    ConcatAssociative(a, x, b);
    assert a + [] == a;
  }

  lemma {:induction false} LanePush(lane: Lane)
    requires lane.held.Some?
    ensures Upstream(lane.(held := None, decisions := lane.decisions + [lane.held.value])) == Upstream(lane)
  {
    LastTag(lane.decisions, DecisionTag, lane.held.value);
    assert Tags(lane.decisions, DecisionTag) + HeldTag(lane.held) + [] == Tags(lane.decisions, DecisionTag) + HeldTag(lane.held);
  }

  lemma {:induction false} LaneDrop(down: seq<Tag>, lane: Lane, symbol: string, bound: int)
    requires Increasing(down + Upstream(lane), symbol) && AtMost(down + Upstream(lane), symbol, bound)
    ensures Increasing(down + Upstream(lane.(held := None)), symbol)
    ensures AtMost(down + Upstream(lane.(held := None)), symbol, bound)
  {
    var a, x, b := Tags(lane.decisions, DecisionTag), HeldTag(lane.held), Tags(lane.market, EventTag);
    assert down + (a + x + b) == down + a + x + b;
    RemoveFromLine(down + a, x, b, symbol, bound);
    assert down + (a + [] + b) == down + a + b;
  }

  lemma {:induction false} StrategyPopKeepsLine(c: Config, s: State, i: nat, symbol: string)
    requires ValidConfig(c) && Enabled(c, s, StrategyPop(i))
    ensures Line(c, Apply(c, s, StrategyPop(i)), symbol) == Line(c, s, symbol)
  {
    LanePop(s.lanes[i]);
  }

  lemma {:induction false} StrategyPushKeepsLine(c: Config, s: State, i: nat, symbol: string)
    requires ValidConfig(c) && Enabled(c, s, StrategyPush(i, true))
    ensures Line(c, Apply(c, s, StrategyPush(i, true)), symbol) == Line(c, s, symbol)
  {
    LanePush(s.lanes[i]);
  }

  lemma {:induction false} StrategyDropKeepsOrder(c: Config, s: State, i: nat, symbol: string)
    requires ValidConfig(c) && Enabled(c, s, StrategyPush(i, false)) && Ordered(c, s, symbol)
    ensures Ordered(c, Apply(c, s, StrategyPush(i, false)), symbol)
  {
    if i == ShardFor(c, symbol) {
      LaneDrop(Downstream(s), s.lanes[i], symbol, Bound(s, symbol));
    }
  }

  lemma {:induction false} OmsPopOwnShard(c: Config, s: State, i: nat, symbol: string)
    requires ValidConfig(c) && Enabled(c, s, OmsPop(i)) && ShardFor(c, symbol) == i
    ensures Line(c, Apply(c, s, OmsPop(i)), symbol) == Line(c, s, symbol)
  {
    var t := Apply(c, s, OmsPop(i));
    var lane := s.lanes[i];
    FirstTag(lane.decisions, DecisionTag);
    var x := HeldTag(t.oms);
    assert HeldTag(s.oms) == [];
    assert Downstream(t) == Downstream(s) + x;
    assert Upstream(lane) == x + Upstream(t.lanes[i]);
    ConcatAssociative(Downstream(s), x, Upstream(t.lanes[i]));
  }

  lemma {:induction false} OmsPopOtherShard(c: Config, s: State, i: nat, symbol: string)
    requires ValidConfig(c) && Provenance(c, s) && Enabled(c, s, OmsPop(i)) && Ordered(c, s, symbol)
    requires ShardFor(c, symbol) != i
    ensures Ordered(c, Apply(c, s, OmsPop(i)), symbol)
  {
    var t := Apply(c, s, OmsPop(i));
    var d := s.lanes[i].decisions[0];
    assert LaneHas(s.lanes[i], d);
    assert HeldTag(s.oms) == [];
    assert Downstream(t) == Downstream(s) + [Tag(d.symbol, d.seqNo)];
    JoinLine(Downstream(s), Tag(d.symbol, d.seqNo), Upstream(s.lanes[ShardFor(c, symbol)]), symbol, Bound(s, symbol));
  }

  lemma {:induction false} OmsPushKeepsLine(c: Config, s: State, symbol: string)
    requires ValidConfig(c) && Enabled(c, s, OmsPush(true))
    ensures Line(c, Apply(c, s, OmsPush(true)), symbol) == Line(c, s, symbol)
  {
    var t := Apply(c, s, OmsPush(true));
    LastTag(s.orders, DecisionTag, s.oms.value);
    assert HeldTag(t.oms) == [];
    assert Downstream(t) == Downstream(s);
  }

  /** A rejected or dropped order leaves the line. */
  lemma {:induction false} OmsDropKeepsOrder(c: Config, s: State, step: Step, symbol: string)
    requires ValidConfig(c) && Enabled(c, s, step) && Ordered(c, s, symbol)
    requires step.OmsReject? || step == OmsPush(false)
    ensures Ordered(c, Apply(c, s, step), symbol)
  {
    var t := Apply(c, s, step);
    var a, up := Tags(s.sent, DecisionTag) + Tags(s.orders, DecisionTag), Upstream(s.lanes[ShardFor(c, symbol)]);
    RemoveFromLine(a, HeldTag(s.oms), up, symbol, Bound(s, symbol));
    assert HeldTag(t.oms) == [];
    assert Line(c, t, symbol) == a + up;
  }

  lemma {:induction false} TradeKeepsLine(c: Config, s: State, symbol: string)
    requires ValidConfig(c) && Enabled(c, s, TradePop)
    ensures Line(c, Apply(c, s, TradePop), symbol) == Line(c, s, symbol)
  {
    var t := Apply(c, s, TradePop);
    FirstTag(s.orders, DecisionTag);
    LastTag(s.sent, DecisionTag, s.orders[0]);
    ConcatAssociative(Tags(s.sent, DecisionTag), [Tag(s.orders[0].symbol, s.orders[0].seqNo)], Tags(s.orders[1..], DecisionTag));
    assert Downstream(t) == Downstream(s);
  }

  lemma {:induction false} StepKeepsOrder(c: Config, s: State, step: Step, symbol: string)
    requires ValidConfig(c) && Provenance(c, s) && Enabled(c, s, step) && Ordered(c, s, symbol)
    ensures |Apply(c, s, step).lanes| == c.shards && Ordered(c, Apply(c, s, step), symbol)
  {
    hide Increasing, AtMost, Upstream, Downstream, Tags;
    match step
    case FeedMake(bid, ask) => FeedMakeKeepsOrder(c, s, bid, ask, symbol);
    case FeedPush(accepted) => FeedPushKeepsOrder(c, s, accepted, symbol);
    case StrategyPop(i) => StrategyPopKeepsLine(c, s, i, symbol);
    case StrategyPush(i, accepted) =>
      if accepted { StrategyPushKeepsLine(c, s, i, symbol); } else { StrategyDropKeepsOrder(c, s, i, symbol); }
    case OmsPop(i) =>
      if i == ShardFor(c, symbol) { OmsPopOwnShard(c, s, i, symbol); } else { OmsPopOtherShard(c, s, i, symbol); }
    case OmsReject => OmsDropKeepsOrder(c, s, step, symbol);
    case OmsPush(accepted) =>
      if accepted { OmsPushKeepsLine(c, s, symbol); } else { OmsDropKeepsOrder(c, s, step, symbol); }
    case TradePop => TradeKeepsLine(c, s, symbol);
  }

  // ---------- What the feed makes ----------

  /** How often the feed has been round its `n` symbols after `i` events. */
  function Lap(i: nat, n: nat): nat
    requires n > 0
  {
    if i == 0 then 0 else if Slot(i, n) == 0 then Lap(i - 1, n) + 1 else Lap(i - 1, n)
  }

  predicate DistinctSymbols(c: Config)
  {
    forall i, j | 0 <= i < j < |c.symbols| :: c.symbols[i] != c.symbols[j]
  }

  /** Event number `i` is the next one of the symbol whose turn it is. */
  predicate InTurn(c: Config, history: seq<MarketEvent>)
    requires c.symbols != []
  {
    forall i | 0 <= i < |history| ::
      && history[i].symbol == c.symbols[Slot(i, |c.symbols|)]
      && history[i].seqNo == Lap(i, |c.symbols|) + 1
  }

  predicate RoundRobin(c: Config, s: State)
    requires c.symbols != []
  {
    var n, done := |c.symbols|, |s.history|;
    && InTurn(c, s.history)
    && (s.feed.None? ==> s.turn == Slot(done, n))
    && (s.feed.Some? ==> done > 0 && s.turn == Slot(done - 1, n))
    && forall p | 0 <= p < n :: LastSeq(s, c.symbols[p]) == Lap(done, n) + CountIf(p < Slot(done, n))
  }

  lemma {:induction false} FeedMakeKeepsTurn(c: Config, s: State, bid: real, ask: real, t: State)
    requires ValidConfig(c) && DistinctSymbols(c) && RoundRobin(c, s)
    requires Enabled(c, s, FeedMake(bid, ask)) && t == Apply(c, s, FeedMake(bid, ask))
    ensures RoundRobin(c, t)
  {
    var n, done := |c.symbols|, |s.history|;
    forall p | 0 <= p < n ensures LastSeq(t, c.symbols[p]) == Lap(done + 1, n) + CountIf(p < Slot(done + 1, n)) {
      assert LastSeq(t, c.symbols[p]) == LastSeq(s, c.symbols[p]) + CountIf(p == s.turn);
    }
  }

  lemma {:induction false} StepKeepsTurn(c: Config, s: State, step: Step, t: State)
    requires ValidConfig(c) && DistinctSymbols(c) && RoundRobin(c, s) && Enabled(c, s, step) && t == Apply(c, s, step)
    ensures RoundRobin(c, t)
  {
    match step
    case FeedMake(bid, ask) => FeedMakeKeepsTurn(c, s, bid, ask, t);
    case _ =>
  }

  lemma {:induction false} RunKeepsTurn(c: Config, s: State, steps: seq<Step>, t: State)
    requires ValidConfig(c) && DistinctSymbols(c) && RoundRobin(c, s) && Run(c, s, steps, t)
    ensures RoundRobin(c, t)
    decreases |steps|
  {
    if steps != [] {
      StepKeepsTurn(c, s, steps[0], Apply(c, s, steps[0]));
      RunKeepsTurn(c, Apply(c, s, steps[0]), steps[1..], t);
    }
  }

  /** The feed goes round its symbols and numbers the events of each from 1 without a gap, so
      every gap in what is sent is a drop. */
  lemma {:induction false} FeedIsRoundRobin(c: Config, s: State, steps: seq<Step>, t: State)
    requires ValidConfig(c) && DistinctSymbols(c) && Initial(c, s) && Run(c, s, steps, t)
    ensures InTurn(c, t.history)
  {
    RunKeepsTurn(c, s, steps, t);
  }

  // ---------- The main results ----------

  ghost predicate Inv(c: Config, s: State)
    requires ValidConfig(c)
  {
    Provenance(c, s) && Conserved(s) && forall symbol :: Ordered(c, s, symbol)
  }

  lemma {:induction false} InitialInv(c: Config, s: State)
    requires ValidConfig(c) && Initial(c, s)
    ensures Inv(c, s)
  {
    BacklogOfEmpty(s.lanes);
  }

  lemma {:induction false} RunKeepsInv(c: Config, s: State, steps: seq<Step>, t: State)
    requires ValidConfig(c) && Inv(c, s) && Run(c, s, steps, t)
    ensures Inv(c, t)
    decreases |steps|
  {
    if steps != [] {
      var u := Apply(c, s, steps[0]);
      StepKeepsProvenance(c, s, steps[0]);
      StepConserves(c, s, steps[0]);
      forall symbol ensures Ordered(c, u, symbol) {
        StepKeepsOrder(c, s, steps[0], symbol);
      }
      RunKeepsInv(c, u, steps[1..], t);
    }
  }

  /** Whatever is dropped on the way, what is sent for a symbol has strictly increasing
      sequence numbers. */
  lemma {:induction false} SentInOrder(c: Config, s: State, steps: seq<Step>, t: State, i: nat, j: nat)
    requires ValidConfig(c) && Initial(c, s) && Run(c, s, steps, t)
    requires i < j < |t.sent| && t.sent[i].symbol == t.sent[j].symbol
    ensures t.sent[i].seqNo < t.sent[j].seqNo
  {
    InitialInv(c, s);
    RunKeepsInv(c, s, steps, t);
    var symbol := t.sent[i].symbol;
    assert Ordered(c, t, symbol);
    var line := Line(c, t, symbol);
    assert line[i] == Tag(symbol, t.sent[i].seqNo) && line[j] == Tag(symbol, t.sent[j].seqNo);
  }

  // ---------- What a schedule amounts to ----------

  /** The quotes the feed has drawn, in turn. */
  function Quotes(steps: seq<Step>): seq<(real, real)>
  {
    if steps == [] then []
    else (if steps[0].FeedMake? then [(steps[0].bid, steps[0].ask)] else []) + Quotes(steps[1..])
  }

  /** How many pushes have been refused. */
  function Refused(steps: seq<Step>): nat
  {
    if steps == [] then 0
    else
      CountIf(match steps[0]
              case FeedPush(accepted) => !accepted
              case StrategyPush(_, accepted) => !accepted
              case OmsPush(accepted) => !accepted
              case _ => false) + Refused(steps[1..])
  }

  /** How many orders the sink has taken. */
  function Logged(steps: seq<Step>): nat
  {
    if steps == [] then 0 else CountIf(steps[0].TradePop?) + Logged(steps[1..])
  }

  lemma {:induction false} RunCounts(c: Config, s: State, steps: seq<Step>, t: State)
    requires ValidConfig(c) && Run(c, s, steps, t)
    ensures t.dropped == s.dropped + Refused(steps) && |t.sent| == |s.sent| + Logged(steps)
    decreases |steps|
  {
    if steps != [] {
      RunCounts(c, Apply(c, s, steps[0]), steps[1..], t);
    }
  }

  /** The events have the quotes drawn for them, and the size the feed gives every event. */
  predicate Quoted(events: seq<MarketEvent>, quotes: seq<(real, real)>)
  {
    && |events| == |quotes|
    && forall i | 0 <= i < |events| :: events[i].bid == quotes[i].0 && events[i].ask == quotes[i].1 && events[i].size == 0.5
  }

  lemma {:induction false} QuotedMore(a: seq<MarketEvent>, qs: seq<(real, real)>, b: seq<MarketEvent>, rs: seq<(real, real)>)
    requires Quoted(a, qs) && Quoted(b, rs)
    ensures Quoted(a + b, qs + rs)
  {
  }

  lemma {:induction false} RunMakes(c: Config, s: State, steps: seq<Step>, t: State)
    requires ValidConfig(c) && Run(c, s, steps, t)
    ensures s.history <= t.history && Quoted(t.history[|s.history|..], Quotes(steps))
    decreases |steps|
  {
    if steps != [] {
      var u := Apply(c, s, steps[0]);
      RunMakes(c, u, steps[1..], t);
      if steps[0].FeedMake? {
        QuotedMore([u.history[|s.history|]], [(steps[0].bid, steps[0].ask)], t.history[|u.history|..], Quotes(steps[1..]));
        assert t.history[|s.history|..] == [u.history[|s.history|]] + t.history[|u.history|..];
      } else {
        assert [] + Quotes(steps[1..]) == Quotes(steps[1..]);
      }
    }
  }

  lemma {:induction false} LapsAndTurns(i: nat, n: nat)
    requires n > 0
    ensures i == n * Lap(i, n) + Slot(i, n)
  {
    if i > 0 {
      LapsAndTurns(i - 1, n);
      assert n * (Lap(i - 1, n) + 1) == n * Lap(i - 1, n) + n;
    }
  }

  lemma {:induction false} TurnIs(i: nat, n: nat)
    requires n > 0
    ensures Lap(i, n) == i / n && Slot(i, n) == i % n
  {
    LapsAndTurns(i, n);
    QuotientIs(i, n, Lap(i, n), Slot(i, n));
  }

  /** Event number `i` of the feed: the symbols take turns, each event of a symbol has the next
      number, the quote is the i-th drawn. */
  function EventNumber(symbols: seq<string>, i: nat, quote: (real, real)): MarketEvent
    requires symbols != []
  {
    MarketEvent(symbols[i % |symbols|], quote.0, quote.1, 0.5, i / |symbols| + 1)
  }

  /** The events are determined by the symbols and the quotes drawn; nothing else in the schedule
      matters to the feed. */
  lemma {:induction false} FeedMakes(c: Config, s: State, steps: seq<Step>, t: State, i: nat)
    requires ValidConfig(c) && DistinctSymbols(c) && Initial(c, s) && Run(c, s, steps, t)
    ensures |t.history| == |Quotes(steps)|
    ensures i < |t.history| ==> t.history[i] == EventNumber(c.symbols, i, Quotes(steps)[i])
  {
    RunMakes(c, s, steps, t);
    FeedIsRoundRobin(c, s, steps, t);
    assert t.history[0..] == t.history;
    if i < |t.history| {
      TurnIs(i, |c.symbols|);
    }
  }

  /** What the strategy is to order on a quote for the event number `i`. */
  predicate OrderFor(d: Decision, symbols: seq<string>, i: nat, quote: (real, real))
    requires symbols != []
  {
    && d.symbol == symbols[i % |symbols|] && d.seqNo == i / |symbols| + 1
    && (d.buy <==> (i / |symbols| + 1) % 2 == 0)
    && d.price == (quote.0 + quote.1) / 2.0 + (if d.buy then -0.05 else 0.05) && d.qty == 0.4
  }

  /** Every order sent is the strategy's answer to one quote of the schedule: it buys exactly on the
      even numbers of its symbol, a twentieth below the middle of the quote, else it sells as much
      above it. */
  lemma {:induction false} SentComesFromFeed(c: Config, s: State, steps: seq<Step>, t: State, d: Decision)
    requires ValidConfig(c) && DistinctSymbols(c) && Initial(c, s) && Run(c, s, steps, t) && d in t.sent
    ensures exists i: nat :: i < |Quotes(steps)| && OrderFor(d, c.symbols, i, Quotes(steps)[i])
  {
    InitialInv(c, s);
    RunKeepsInv(c, s, steps, t);
    assert MadeFrom(t.history, d);
    var e :| e in t.history && d == Decide(e);
    var i: nat :| i < |t.history| && t.history[i] == e;
    FeedMakes(c, s, steps, t, i);
    assert OrderFor(d, c.symbols, i, Quotes(steps)[i]);
  }

  /** Every quote drawn is refused by a full queue, still on its way, or sent. */
  lemma {:induction false} EventsAreConserved(c: Config, s: State, steps: seq<Step>, t: State)
    requires ValidConfig(c) && Initial(c, s) && Run(c, s, steps, t)
    ensures |t.history| == |Quotes(steps)| && t.dropped == Refused(steps) && |t.sent| == Logged(steps)
    ensures |t.history| == t.dropped + t.rejected
                         + CountIf(t.feed.Some?) + Backlog(t.lanes) + CountIf(t.oms.Some?) + |t.orders| + |t.sent|
  {
    InitialInv(c, s);
    RunKeepsInv(c, s, steps, t);
    RunCounts(c, s, steps, t);
    RunMakes(c, s, steps, t);
    assert t.history[0..] == t.history;
  }

  /** With the sizes the feed makes, the risk check never rejects anything. */
  lemma {:induction false} RiskNeverRejects(c: Config, s: State, steps: seq<Step>, t: State)
    requires ValidConfig(c) && Initial(c, s) && Run(c, s, steps, t)
    ensures t.rejected == 0 && !Enabled(c, t, OmsReject)
  {
    InitialInv(c, s);
    RunKeepsInv(c, s, steps, t);
    RiskAlwaysPasses(c, t);
  }

  /** The check would reject what is made of events larger than 1.875, and nothing else. */
  lemma RejectedSizes(e: MarketEvent)
    ensures RiskPasses(Decide(e)) <==> e.size <= 1.875
  {
  }

  /** With the hash of `shard_for_symbol`, shard `i` only ever holds items of the symbols whose hash
      is `i` modulo the number of shards. */
  lemma {:induction false} ShardsByHash(symbols: seq<string>, hash: string -> nat, shards: nat, s: State,
      steps: seq<Step>, t: State, i: nat)
    requires symbols != [] && shards > 0
    requires Initial(HashConfig(symbols, hash, shards), s) && Run(HashConfig(symbols, hash, shards), s, steps, t)
    requires i < shards
    ensures |t.lanes| == shards
    ensures forall e | e in t.lanes[i].market :: hash(e.symbol) % shards == i
    ensures forall d | LaneHas(t.lanes[i], d) :: hash(d.symbol) % shards == i
  {
    var c := HashConfig(symbols, hash, shards);
    InitialInv(c, s);
    RunKeepsInv(c, s, steps, t);
    assert LaneSound(c, t.history, t.lanes[i], i);
    assert forall e | e in t.lanes[i].market :: ShardFor(c, e.symbol) == i;
    assert forall d | LaneHas(t.lanes[i], d) :: ShardFor(c, d.symbol) == i;
  }

  predicate Bounded(s: State)
  {
    && |s.orders| <= 1023
    && forall i | 0 <= i < |s.lanes| :: |s.lanes[i].market| <= 1023 && |s.lanes[i].decisions| <= 1023
  }

  lemma {:induction false} StepKeepsBounds(c: Config, s: State, step: Step)
    requires ValidConfig(c) && Enabled(c, s, step) && Bounded(s)
    ensures Bounded(Apply(c, s, step))
  {
  }

  lemma {:induction false} RunKeepsBounds(c: Config, s: State, steps: seq<Step>, t: State)
    requires ValidConfig(c) && Bounded(s) && Run(c, s, steps, t)
    ensures Bounded(t)
    decreases |steps|
  {
    if steps != [] {
      StepKeepsBounds(c, s, steps[0]);
      RunKeepsBounds(c, Apply(c, s, steps[0]), steps[1..], t);
    }
  }

  /** No queue ever holds more than 1023 items, and a push can be accepted as long as it holds
      fewer. */
  lemma {:induction false} QueuesStayBounded(c: Config, s: State, steps: seq<Step>, t: State)
    requires ValidConfig(c) && Initial(c, s) && Run(c, s, steps, t)
    ensures |t.lanes| == c.shards && Bounded(t)
    ensures t.feed.Some? ==>
              (Enabled(c, t, FeedPush(true)) <==> |t.lanes[ShardFor(c, t.feed.value.symbol)].market| < 1023)
    ensures forall i: nat | i < c.shards && t.lanes[i].held.Some? ::
              Enabled(c, t, StrategyPush(i, true)) <==> |t.lanes[i].decisions| < 1023
    ensures t.oms.Some? ==> (Enabled(c, t, OmsPush(true)) <==> |t.orders| < 1023)
  {
    RunKeepsBounds(c, s, steps, t);
    InitialInv(c, s);
    RunKeepsInv(c, s, steps, t);
    RiskAlwaysPasses(c, t);
  }

  // ---------- Everything gets through ----------

  /** How far a lane's items are from the sink. */
  function LaneWay(lane: Lane): nat
  {
    5 * |lane.market| + 4 * CountIf(lane.held.Some?) + 3 * |lane.decisions|
  }

  function Ways(lanes: seq<Lane>): nat
  {
    if lanes == [] then 0 else LaneWay(lanes[0]) + Ways(lanes[1..])
  }

  lemma {:induction false} WaysUpdate(lanes: seq<Lane>, i: nat, lane: Lane)
    requires i < |lanes|
    ensures Ways(lanes[i := lane]) == Ways(lanes) - LaneWay(lanes[i]) + LaneWay(lane)
  {
    if i > 0 {
      assert lanes[i := lane][1..] == lanes[1..][i - 1 := lane];
      WaysUpdate(lanes[1..], i - 1, lane);
    } else {
      assert lanes[i := lane][1..] == lanes[1..];
    }
  }

  /** How far everything on the way is from the sink. */
  function Way(s: State): nat
  {
    6 * CountIf(s.feed.Some?) + Ways(s.lanes) + 2 * CountIf(s.oms.Some?) + |s.orders|
  }

  predicate Busy(lane: Lane)
  {
    lane.market != [] || lane.held.Some? || lane.decisions != []
  }

  lemma {:induction false} BusyLane(lanes: seq<Lane>) returns (i: nat)
    requires Ways(lanes) > 0
    ensures i < |lanes| && Busy(lanes[i])
  {
    if Busy(lanes[0]) {
      i := 0;
    } else {
      i := BusyLane(lanes[1..]);
      i := i + 1;
    }
  }

  /** The next item to move: the one closest to the sink, so that there is room for it. */
  lemma {:induction false} NextStep(c: Config, s: State) returns (step: Step)
    requires ValidConfig(c) && Provenance(c, s) && Way(s) > 0
    ensures Enabled(c, s, step) && Refused([step]) == 0 && !step.FeedMake? && !step.OmsReject?
  {
    RiskAlwaysPasses(c, s);
    if s.orders != [] {
      step := TradePop;
    } else if s.oms.Some? {
      step := OmsPush(true);
    } else if Ways(s.lanes) > 0 {
      var i := BusyLane(s.lanes);
      step := if s.lanes[i].decisions != [] then OmsPop(i)
              else if s.lanes[i].held.Some? then StrategyPush(i, true)
              else StrategyPop(i);
    } else {
      var i := ShardFor(c, s.feed.value.symbol);
      NotOnTheWay(s.lanes, i);
      step := FeedPush(true);
    }
    assert [step][1..] == [];
  }

  lemma {:induction false} NotOnTheWay(lanes: seq<Lane>, i: nat)
    requires Ways(lanes) == 0 && i < |lanes|
    ensures lanes[i].market == []
  {
    if i > 0 {
      NotOnTheWay(lanes[1..], i - 1);
    }
  }

  lemma {:induction false} StepComesNearer(c: Config, s: State, step: Step, t: State)
    requires ValidConfig(c) && Enabled(c, s, step) && Refused([step]) == 0 && t == Apply(c, s, step)
    requires !step.FeedMake? && !step.OmsReject?
    ensures Way(t) < Way(s) && t.history == s.history && t.dropped == s.dropped
  {
    assert [step][1..] == [];
    match step {
      case FeedPush(_) => WaysUpdate(s.lanes, ShardFor(c, s.feed.value.symbol), t.lanes[ShardFor(c, s.feed.value.symbol)]);
      case StrategyPop(i) => WaysUpdate(s.lanes, i, t.lanes[i]);
      case StrategyPush(i, _) => WaysUpdate(s.lanes, i, t.lanes[i]);
      case OmsPop(i) => WaysUpdate(s.lanes, i, t.lanes[i]);
      case _ =>
    }
  }

  lemma {:induction false} DrainFrom(c: Config, s: State) returns (steps: seq<Step>, t: State)
    requires ValidConfig(c) && Provenance(c, s)
    ensures Run(c, s, steps, t) && Way(t) == 0 && Quotes(steps) == [] && Refused(steps) == 0
    decreases Way(s)
  {
    if Way(s) == 0 {
      steps, t := [], s;
    } else {
      var step := NextStep(c, s);
      var u := Apply(c, s, step);
      StepComesNearer(c, s, step, u);
      StepKeepsProvenance(c, s, step);
      var rest;
      rest, t := DrainFrom(c, u);
      steps := [step] + rest;
      assert steps[1..] == rest && [step][1..] == [];
    }
  }

  lemma {:induction false} RunOn(c: Config, s: State, a: seq<Step>, t: State, b: seq<Step>, u: State)
    requires ValidConfig(c) && Run(c, s, a, t) && Run(c, t, b, u)
    ensures Run(c, s, a + b, u)
    decreases |a|
  {
    hide Apply, Enabled;
    if a == [] {
      assert a + b == b;
    } else {
      assert (a + b)[1..] == a[1..] + b;
      RunOn(c, Apply(c, s, a[0]), a[1..], t, b, u);
    }
  }

  lemma {:induction false} QuotesOn(a: seq<Step>, b: seq<Step>)
    ensures Quotes(a + b) == Quotes(a) + Quotes(b)
  {
    if a == [] {
      assert a + b == b;
    } else {
      assert (a + b)[1..] == a[1..] + b;
      QuotesOn(a[1..], b);
      ConcatAssociative(if a[0].FeedMake? then [(a[0].bid, a[0].ask)] else [], Quotes(a[1..]), Quotes(b));
    }
  }

  lemma {:induction false} RefusedOn(a: seq<Step>, b: seq<Step>)
    ensures Refused(a + b) == Refused(a) + Refused(b)
  {
    if a == [] {
      assert a + b == b;
    } else {
      assert (a + b)[1..] == a[1..] + b;
      RefusedOn(a[1..], b);
    }
  }

  lemma {:induction false} NothingOnTheWay(s: State)
    requires Way(s) == 0
    ensures Backlog(s.lanes) == 0 && s.feed.None? && s.oms.None? && s.orders == []
  {
    NoBacklog(s.lanes);
  }

  lemma {:induction false} NoBacklog(lanes: seq<Lane>)
    requires Ways(lanes) == 0
    ensures Backlog(lanes) == 0
  {
    if lanes != [] {
      NoBacklog(lanes[1..]);
    }
  }

  /** However a run has gone, it can be continued so that everything on its way reaches the sink:
      in the end an order has been sent for every quote but those refused before. */
  lemma {:induction false} EverythingCanBeSent(c: Config, s: State, steps: seq<Step>, t: State)
    returns (more: seq<Step>, end: State)
    requires ValidConfig(c) && Initial(c, s) && Run(c, s, steps, t)
    ensures Run(c, t, more, end) && Quotes(more) == [] && Refused(more) == 0
    ensures |end.sent| == |Quotes(steps)| - Refused(steps)
  {
    InitialInv(c, s);
    RunKeepsInv(c, s, steps, t);
    more, end := DrainFrom(c, t);
    RunOn(c, s, steps, t, more, end);
    QuotesOn(steps, more);
    RefusedOn(steps, more);
    EventsAreConserved(c, s, steps + more, end);
    RiskNeverRejects(c, s, steps + more, end);
    NothingOnTheWay(end);
    assert Quotes(steps) + [] == Quotes(steps);
  }
}
