/** OMS and exchange simulator of hft_test joined by two FIFO byte streams.

    The network may cut the streams anywhere and deliver the pieces at any time; sends are
    complete.  Under every such interleaving the simulator answers each order once, in
    order, and the order table of the OMS shows exactly what has been reported.
    */
module OrderFlow {
  import opened Basics
  import opened Framing
  import opened Wire
  import opened Oms

  const RECV_SIZE := 2048

  datatype System = System(
    nextId: Word,
    orders: Orders,
    rx: seq<Byte>,             // receive buffer of the OMS
    offered: seq<ExecReport>,  // reports parsed by the OMS and offered to the strategy
    toSim: seq<Byte>,          // bytes on the way to the simulator
    buf: seq<Byte>,            // receive buffer of the simulator
    toOms: seq<Byte>,          // bytes on the way to the OMS
    sent: seq<NewOrder>,       // every order sent
    handled: nat,              // how many of them the simulator has handled
    reports: seq<ExecReport>)  // every report it has sent

  datatype Step =
    | Send(req: OrderRequest, now: Int64)
    | SimReceives(n: nat, clock: nat -> Stamps)
    | OmsReceives(n: nat)

  predicate Enabled(s: System, step: Step)
  {
    match step
    case Send(_, _) => true
    case SimReceives(n, _) => 0 < n <= RECV_SIZE && n <= |s.toSim|
    case OmsReceives(n) => 0 < n <= RECV_SIZE && n <= |s.toOms|
  }

  /** The simulator has taken `ws` off the wire, kept `residue` and sent `answers`. */
  function AfterSim(s: System, n: nat, residue: seq<Byte>, ws: seq<NewOrder>, answers: seq<ExecReport>): System
    requires n <= |s.toSim|
  {
    s.(toSim := s.toSim[n..], buf := residue, handled := s.handled + |ws|,
       toOms := s.toOms + Frames(EncodeReports(answers)), reports := s.reports + answers)
  }

  /** The OMS has taken `rs` off the wire, kept `residue` and settled its table. */
  function AfterOms(s: System, n: nat, residue: seq<Byte>, rs: seq<ExecReport>, orders: Orders): System
    requires n <= |s.toOms|
  {
    s.(toOms := s.toOms[n..], rx := residue, orders := orders, offered := s.offered + rs)
  }

  function Apply(s: System, step: Step): System
    requires Enabled(s, step)
  {
    match step
    case Send(req, now) =>
      var w := OrderFor(req, s.nextId, now);
      s.(nextId := NextId(s.nextId), orders := s.orders[w.clOrdId := StateFor(w, ACK, 0)],
         toSim := s.toSim + Pack(EncodeOrder(w)), sent := s.sent + [w])
    case SimReceives(n, clock) =>
      var parsed := ParseAll(s.buf + s.toSim[..n]);
      var ws := DecodeOrders(parsed.0);
      AfterSim(s, n, parsed.1, ws, Answers(ws, clock, 0))
    case OmsReceives(n) =>
      var parsed := ParseAll(s.rx + s.toOms[..n]);
      var rs := DecodeReports(parsed.0);
      AfterOms(s, n, parsed.1, rs, SettleAll(s.orders, rs))
  }

  ghost predicate Run(s: System, steps: seq<Step>, t: System)
    decreases |steps|
  {
    if steps == [] then s == t
    else Enabled(s, steps[0]) && Run(Apply(s, steps[0]), steps[1..], t)
  }

  // ---------- The invariant ----------

  /** The reports about the order `w` that stand at `2 * i` and `2 * i + 1`. */
  predicate Answered(reports: seq<ExecReport>, i: nat, w: NewOrder)
  {
    && 2 * i + 1 < |reports|
    && var ack, fill := reports[2 * i], reports[2 * i + 1];
    && ack.clOrdId == w.clOrdId && ack.execType == ACK && ack.fillPx == 0 && ack.fillQty == 0
    && fill.clOrdId == w.clOrdId && fill.execType == FILL && fill.fillPx == w.px && fill.fillQty == w.qty
    && ack.mdEventId == fill.mdEventId == w.mdEventId && ack.recvAt == fill.recvAt
  }

  /** The first `handled` orders have been answered, in order. */
  predicate AnsweredUpTo(reports: seq<ExecReport>, sent: seq<NewOrder>, handled: nat)
  {
    && handled <= |sent| && |reports| == 2 * handled
    && forall i: nat {:trigger Answered(reports, i, sent[i])} | i < handled :: Answered(reports, i, sent[i])
  }

  predicate Numbered(sent: seq<NewOrder>)
  {
    |sent| < UINT64 && forall i | 0 <= i < |sent| :: sent[i].clOrdId == i + 1
  }

  /** Buffer and wire together hold the frames of the orders not handled yet. */
  predicate Outbound(buf: seq<Byte>, toSim: seq<Byte>, waiting: seq<NewOrder>)
  {
    buf + toSim == Frames(EncodeOrders(waiting)) && !Complete(buf)
  }

  /** Buffer and wire together hold the frames of the reports not parsed yet. */
  predicate Inbound(rx: seq<Byte>, toOms: seq<Byte>, waiting: seq<ExecReport>)
  {
    rx + toOms == Frames(EncodeReports(waiting)) && !Complete(rx)
  }

  /** What the table shows for the order number `id` after `p` reports: it is filled when its
      second report has been parsed. */
  function Shown(w: NewOrder, id: nat, p: nat): OrderState
  {
    if 2 * id <= p then StateFor(w, FILL, w.qty) else StateFor(w, ACK, 0)
  }

  predicate Table(orders: Orders, sent: seq<NewOrder>, p: nat)
  {
    && (forall id | id in orders :: 1 <= id <= |sent|)
    && (forall id: Word | 1 <= id <= |sent| :: id in orders && orders[id] == Shown(sent[id-1], id, p))
  }

  predicate Ids(s: System)
  {
    Numbered(s.sent) && s.nextId == (if |s.sent| + 1 == UINT64 then 0 else |s.sent| + 1)
  }

  predicate Simulator(s: System)
  {
    AnsweredUpTo(s.reports, s.sent, s.handled) && Outbound(s.buf, s.toSim, s.sent[s.handled..])
  }

  predicate Receiver(s: System)
  {
    s.offered <= s.reports && Inbound(s.rx, s.toOms, s.reports[|s.offered|..])
  }

  predicate Book(s: System)
  {
    Table(s.orders, s.sent, |s.offered|)
  }

  predicate Inv(s: System)
  {
    Ids(s) && Simulator(s) && Receiver(s) && Book(s)
  }

  // ---------- Encoding is faithful ----------

  lemma {:induction false} OrdersRoundTrip(ws: seq<NewOrder>)
    ensures DecodeOrders(EncodeOrders(ws)) == ws
  {
    if ws != [] {
      OrderRoundTrip(ws[0]);
      assert EncodeOrders(ws)[1..] == EncodeOrders(ws[1..]);
      OrdersRoundTrip(ws[1..]);
    }
  }

  lemma {:induction false} ReportsRoundTrip(rs: seq<ExecReport>)
    ensures DecodeReports(EncodeReports(rs)) == rs
  {
    if rs != [] {
      ReportRoundTrip(rs[0]);
      assert EncodeReports(rs)[1..] == EncodeReports(rs[1..]);
      ReportsRoundTrip(rs[1..]);
    }
  }

  /** What the simulator gets out of the bytes it has: some of the orders under way. */
  lemma {:induction false} OrdersArrive(ws: seq<NewOrder>, a: seq<Byte>, b: seq<Byte>) returns (n: nat)
    requires a + b == Frames(EncodeOrders(ws))
    ensures n <= |ws| && DecodeOrders(ParseAll(a).0) == ws[..n]
    ensures ParseAll(a).1 + b == Frames(EncodeOrders(ws[n..]))
    ensures b == [] ==> n == |ws|
  {
    n := ParsePrefix(EncodeOrders(ws), a, b);
    assert EncodeOrders(ws)[..n] == EncodeOrders(ws[..n]);
    assert EncodeOrders(ws)[n..] == EncodeOrders(ws[n..]);
    OrdersRoundTrip(ws[..n]);
  }

  lemma {:induction false} ReportsArrive(rs: seq<ExecReport>, a: seq<Byte>, b: seq<Byte>) returns (n: nat)
    requires a + b == Frames(EncodeReports(rs))
    ensures n <= |rs| && DecodeReports(ParseAll(a).0) == rs[..n]
    ensures ParseAll(a).1 + b == Frames(EncodeReports(rs[n..]))
    ensures b == [] ==> n == |rs|
  {
    n := ParsePrefix(EncodeReports(rs), a, b);
    assert EncodeReports(rs)[..n] == EncodeReports(rs[..n]);
    assert EncodeReports(rs)[n..] == EncodeReports(rs[n..]);
    ReportsRoundTrip(rs[..n]);
  }

  // ---------- Every step keeps it ----------

  lemma {:induction false} TableGrows(orders: Orders, sent: seq<NewOrder>, p: nat, w: NewOrder)
    requires Numbered(sent) && Table(orders, sent, p) && p <= 2 * |sent|
    requires |sent| + 1 < UINT64 && w.clOrdId == |sent| + 1
    ensures Table(orders[w.clOrdId := StateFor(w, ACK, 0)], sent + [w], p)
  {
  }

  lemma {:induction false} OutboundGrows(buf: seq<Byte>, toSim: seq<Byte>, waiting: seq<NewOrder>, w: NewOrder)
    requires Outbound(buf, toSim, waiting)
    ensures Outbound(buf, toSim + Pack(EncodeOrder(w)), waiting + [w])
  {
    var p := EncodeOrder(w);
    assert EncodeOrders(waiting + [w]) == EncodeOrders(waiting) + [p];
    FramesAppend(EncodeOrders(waiting), [p]);
    var one: seq<seq<Byte>> := [p];
    assert one[1..] == [] && Frames(one) == Pack(p) + Frames(one[1..]);
    ConcatAssociative(buf, toSim, Pack(p));
  }

  lemma {:induction false} SendKeepsSimulator(s: System, req: OrderRequest, now: Int64)
    requires Simulator(s)
    ensures Simulator(Apply(s, Send(req, now)))
  {
    var w := OrderFor(req, s.nextId, now);
    OutboundGrows(s.buf, s.toSim, s.sent[s.handled..], w);
    assert (s.sent + [w])[s.handled..] == s.sent[s.handled..] + [w];
  }

  lemma {:induction false} SendKeepsBook(s: System, req: OrderRequest, now: Int64)
    requires Ids(s) && Book(s) && |s.offered| <= 2 * |s.sent| && |s.sent| + 1 < UINT64
    ensures Ids(Apply(s, Send(req, now))) && Book(Apply(s, Send(req, now)))
  {
    TableGrows(s.orders, s.sent, |s.offered|, OrderFor(req, s.nextId, now));
  }

  /** The i-th order is answered by an acknowledgement and then a fill, stamped by its own
      readings of the clock. */
  lemma {:induction false} AnswersAre(ws: seq<NewOrder>, clock: nat -> Stamps, k: nat, i: nat)
    requires i < |ws|
    ensures Answered(Answers(ws, clock, k), i, ws[i])
    ensures var rs, st := Answers(ws, clock, k), clock(k + i);
            rs[2 * i].recvAt == st.recvAt && rs[2 * i].sentAt == st.ackAt && rs[2 * i + 1].sentAt == st.fillAt
  {
    var rest := Answers(ws[1..], clock, k + 1);
    assert Answers(ws, clock, k) == Answer(ws[0], clock(k)) + rest;
    if i > 0 {
      AnswersAre(ws[1..], clock, k + 1, i - 1);
      assert Answers(ws, clock, k)[2 * i] == rest[2 * (i - 1)];
      assert Answers(ws, clock, k)[2 * i + 1] == rest[2 * (i - 1) + 1];
    }
  }

  lemma {:induction false} AnswersAnswer(ws: seq<NewOrder>, clock: nat -> Stamps)
    ensures AnsweredUpTo(Answers(ws, clock, 0), ws, |ws|)
  {
    forall i: nat | i < |ws| ensures Answered(Answers(ws, clock, 0), i, ws[i]) {
      AnswersAre(ws, clock, 0, i);
    }
  }

  /** The answers to a run of orders go behind the answers to the orders before them. */
  lemma {:induction false} AnsweringGoesOn(reports: seq<ExecReport>, sent: seq<NewOrder>, handled: nat,
      ws: seq<NewOrder>, answers: seq<ExecReport>)
    requires AnsweredUpTo(reports, sent, handled) && AnsweredUpTo(answers, ws, |ws|)
    requires handled + |ws| <= |sent| && ws == sent[handled..handled + |ws|]
    ensures AnsweredUpTo(reports + answers, sent, handled + |ws|)
  {
    var all := reports + answers;
    forall i: nat | i < handled + |ws| ensures Answered(all, i, sent[i]) {
      if i < handled {
        assert Answered(reports, i, sent[i]);
      } else {
        var j := i - handled;
        assert Answered(answers, j, ws[j]);
        assert all[2 * i] == answers[2 * j] && all[2 * i + 1] == answers[2 * j + 1];
      }
    }
  }

  lemma {:induction false} ChunkOf(buf: seq<Byte>, wire: seq<Byte>, n: nat)
    requires n <= |wire|
    ensures buf + wire == buf + wire[..n] + wire[n..]
  {
  }

  lemma {:induction false} SliceOfTail<T>(s: seq<T>, h: nat, m: nat)
    requires h + m <= |s|
    ensures s[h..][..m] == s[h..h + m] && s[h..][m..] == s[h + m..]
  {
  }

  lemma {:induction false} WaitingOrdersArrive(buf: seq<Byte>, toSim: seq<Byte>, waiting: seq<NewOrder>, n: nat)
    returns (m: nat)
    requires Outbound(buf, toSim, waiting) && n <= |toSim|
    ensures m <= |waiting| && DecodeOrders(ParseAll(buf + toSim[..n]).0) == waiting[..m]
    ensures Outbound(ParseAll(buf + toSim[..n]).1, toSim[n..], waiting[m..])
  {
    ChunkOf(buf, toSim, n);
    m := OrdersArrive(waiting, buf + toSim[..n], toSim[n..]);
  }

  /** Out of `n` more bytes come the next orders `ws` after the first `h`; the others are still
      on the way. */
  predicate Taken(toSim: seq<Byte>, sent: seq<NewOrder>, h: nat, n: nat, residue: seq<Byte>, ws: seq<NewOrder>)
  {
    && n <= |toSim| && h + |ws| <= |sent|
    && ws == sent[h..h + |ws|] && Outbound(residue, toSim[n..], sent[h + |ws|..])
  }

  lemma {:induction false} OutboundAdvances(buf: seq<Byte>, toSim: seq<Byte>, sent: seq<NewOrder>, h: nat, n: nat)
    returns (residue: seq<Byte>, ws: seq<NewOrder>)
    requires h <= |sent| && Outbound(buf, toSim, sent[h..]) && n <= |toSim|
    ensures residue == ParseAll(buf + toSim[..n]).1 && ws == DecodeOrders(ParseAll(buf + toSim[..n]).0)
    ensures Taken(toSim, sent, h, n, residue, ws)
  {
    hide ParseAll, DecodeOrders, Frames, EncodeOrders, Complete;
    residue, ws := ParseAll(buf + toSim[..n]).1, DecodeOrders(ParseAll(buf + toSim[..n]).0);
    var m := WaitingOrdersArrive(buf, toSim, sent[h..], n);
    SliceOfTail(sent, h, m);
  }

  predicate TakesOrders(s: System, n: nat, residue: seq<Byte>, ws: seq<NewOrder>)
  {
    Taken(s.toSim, s.sent, s.handled, n, residue, ws)
  }

  lemma {:induction false} OrdersTaken(s: System, n: nat) returns (residue: seq<Byte>, ws: seq<NewOrder>)
    requires Simulator(s) && n <= |s.toSim|
    ensures residue == ParseAll(s.buf + s.toSim[..n]).1 && ws == DecodeOrders(ParseAll(s.buf + s.toSim[..n]).0)
    ensures TakesOrders(s, n, residue, ws)
  {
    residue, ws := OutboundAdvances(s.buf, s.toSim, s.sent, s.handled, n);
  }

  lemma {:induction false} InboundGrows(rx: seq<Byte>, toOms: seq<Byte>, reports: seq<ExecReport>, p: nat,
      answers: seq<ExecReport>)
    requires p <= |reports| && Inbound(rx, toOms, reports[p..])
    ensures Inbound(rx, toOms + Frames(EncodeReports(answers)), (reports + answers)[p..])
  {
    ReportFramesAppend(reports[p..], answers);
    ConcatAssociative(rx, toOms, Frames(EncodeReports(answers)));
    assert (reports + answers)[p..] == reports[p..] + answers;
  }

  lemma {:induction false} AnsweringKeepsSimulator(s: System, n: nat, residue: seq<Byte>, ws: seq<NewOrder>,
      clock: nat -> Stamps)
    requires Simulator(s) && TakesOrders(s, n, residue, ws)
    ensures Simulator(AfterSim(s, n, residue, ws, Answers(ws, clock, 0)))
  {
    hide Answers, Answered, Frames, EncodeReports, EncodeOrders, Complete, ReadLength;
    var answers := Answers(ws, clock, 0);
    AnswersAnswer(ws, clock);
    AnsweringGoesOn(s.reports, s.sent, s.handled, ws, answers);
  }

  lemma {:induction false} AnsweringKeepsReceiver(s: System, n: nat, residue: seq<Byte>, ws: seq<NewOrder>,
      answers: seq<ExecReport>)
    requires Receiver(s) && n <= |s.toSim|
    ensures Receiver(AfterSim(s, n, residue, ws, answers))
  {
    InboundGrows(s.rx, s.toOms, s.reports, |s.offered|, answers);
  }

  lemma {:induction false} AnsweringKeepsInv(s: System, n: nat, residue: seq<Byte>, ws: seq<NewOrder>,
      clock: nat -> Stamps, t: System)
    requires Inv(s) && TakesOrders(s, n, residue, ws)
    requires t == AfterSim(s, n, residue, ws, Answers(ws, clock, 0))
    ensures Inv(t)
  {
    AnsweringKeepsSimulator(s, n, residue, ws, clock);
    AnsweringKeepsReceiver(s, n, residue, ws, Answers(ws, clock, 0));
  }

  lemma {:induction false} SimKeepsInv(s: System, n: nat, clock: nat -> Stamps, t: System)
    requires Inv(s) && Enabled(s, SimReceives(n, clock)) && t == Apply(s, SimReceives(n, clock))
    ensures Inv(t)
  {
    var residue, ws := OrdersTaken(s, n);
    AnsweringKeepsInv(s, n, residue, ws, clock, t);
  }

  lemma {:induction false} WaitingReportsArrive(rx: seq<Byte>, toOms: seq<Byte>, waiting: seq<ExecReport>, n: nat)
    returns (m: nat)
    requires Inbound(rx, toOms, waiting) && n <= |toOms|
    ensures m <= |waiting| && DecodeReports(ParseAll(rx + toOms[..n]).0) == waiting[..m]
    ensures Inbound(ParseAll(rx + toOms[..n]).1, toOms[n..], waiting[m..])
  {
    ChunkOf(rx, toOms, n);
    m := ReportsArrive(waiting, rx + toOms[..n], toOms[n..]);
  }

  /** Out of `n` more bytes come the next reports `rs` after the first `p`; the others are still
      on the way. */
  predicate Heard(toOms: seq<Byte>, reports: seq<ExecReport>, p: nat, n: nat, residue: seq<Byte>, rs: seq<ExecReport>)
  {
    && n <= |toOms| && p + |rs| <= |reports|
    && rs == reports[p..p + |rs|] && Inbound(residue, toOms[n..], reports[p + |rs|..])
  }

  lemma {:induction false} InboundAdvances(rx: seq<Byte>, toOms: seq<Byte>, reports: seq<ExecReport>, p: nat, n: nat)
    returns (residue: seq<Byte>, rs: seq<ExecReport>)
    requires p <= |reports| && Inbound(rx, toOms, reports[p..]) && n <= |toOms|
    ensures residue == ParseAll(rx + toOms[..n]).1 && rs == DecodeReports(ParseAll(rx + toOms[..n]).0)
    ensures Heard(toOms, reports, p, n, residue, rs)
  {
    hide ParseAll, DecodeReports, Frames, EncodeReports, Complete;
    residue, rs := ParseAll(rx + toOms[..n]).1, DecodeReports(ParseAll(rx + toOms[..n]).0);
    var m := WaitingReportsArrive(rx, toOms, reports[p..], n);
    SliceOfTail(reports, p, m);
  }

  /** The acknowledgement of order number `id` changes nothing in the table, its fill only
      its own entry. */
  lemma {:induction false} SettleOne(orders: Orders, sent: seq<NewOrder>, p: nat, r: ExecReport, id: Word)
    requires Numbered(sent) && Table(orders, sent, p) && 1 <= id <= |sent| && r.clOrdId == id
    requires || (p == 2 * id - 2 && r.execType == ACK && r.fillQty == 0)
             || (p == 2 * id - 1 && r.execType == FILL && r.fillQty == sent[id-1].qty)
    ensures Table(Settle(orders, r), sent, p + 1)
  {
    assert orders[id] == Shown(sent[id-1], id, p) == StateFor(sent[id-1], ACK, 0);
    assert Settle(orders, r)[id] == Shown(sent[id-1], id, p + 1);
  }

  lemma {:induction false} SettleRun(orders: Orders, sent: seq<NewOrder>, reports: seq<ExecReport>, handled: nat,
      p: nat, rs: seq<ExecReport>, q: nat)
    requires Numbered(sent) && AnsweredUpTo(reports, sent, handled)
    requires q == p + |rs| && q <= |reports| && rs == reports[p..q] && Table(orders, sent, p)
    ensures Table(SettleAll(orders, rs), sent, q)
    decreases |rs|
  {
    if rs != [] {
      var k := p / 2;
      assert p == 2 * k || p == 2 * k + 1;
      assert Answered(reports, k, sent[k]);
      assert rs[0] == reports[p];
      SettleOne(orders, sent, p, rs[0], k + 1);
      SettleRun(Settle(orders, rs[0]), sent, reports, handled, p + 1, rs[1..], q);
    }
  }

  lemma {:induction false} PrefixExtends(offered: seq<ExecReport>, reports: seq<ExecReport>, rs: seq<ExecReport>)
    requires offered <= reports && |offered| + |rs| <= |reports|
    requires rs == reports[|offered|..|offered| + |rs|]
    ensures offered + rs <= reports
  {
    assert offered + rs == reports[..|offered| + |rs|];
  }

  predicate HearsReports(s: System, n: nat, residue: seq<Byte>, rs: seq<ExecReport>)
  {
    Heard(s.toOms, s.reports, |s.offered|, n, residue, rs)
  }

  lemma {:induction false} ReportsHeard(s: System, n: nat) returns (residue: seq<Byte>, rs: seq<ExecReport>)
    requires Receiver(s) && n <= |s.toOms|
    ensures residue == ParseAll(s.rx + s.toOms[..n]).1 && rs == DecodeReports(ParseAll(s.rx + s.toOms[..n]).0)
    ensures HearsReports(s, n, residue, rs)
  {
    residue, rs := InboundAdvances(s.rx, s.toOms, s.reports, |s.offered|, n);
  }

  lemma {:induction false} SettlingKeepsReceiver(s: System, n: nat, residue: seq<Byte>, rs: seq<ExecReport>,
      orders: Orders)
    requires Receiver(s) && HearsReports(s, n, residue, rs)
    ensures Receiver(AfterOms(s, n, residue, rs, orders))
  {
    PrefixExtends(s.offered, s.reports, rs);
  }

  lemma {:induction false} SettlingKeepsBook(s: System, n: nat, residue: seq<Byte>, rs: seq<ExecReport>)
    requires Ids(s) && Simulator(s) && Book(s) && HearsReports(s, n, residue, rs)
    ensures Book(AfterOms(s, n, residue, rs, SettleAll(s.orders, rs)))
  {
    SettleRun(s.orders, s.sent, s.reports, s.handled, |s.offered|, rs, |s.offered + rs|);
  }

  lemma {:induction false} SettlingKeepsInv(s: System, n: nat, residue: seq<Byte>, rs: seq<ExecReport>, t: System)
    requires Inv(s) && HearsReports(s, n, residue, rs)
    requires t == AfterOms(s, n, residue, rs, SettleAll(s.orders, rs))
    ensures Inv(t)
  {
    SettlingKeepsReceiver(s, n, residue, rs, SettleAll(s.orders, rs));
    SettlingKeepsBook(s, n, residue, rs);
  }

  lemma {:induction false} OmsKeepsInv(s: System, n: nat, t: System)
    requires Inv(s) && Enabled(s, OmsReceives(n)) && t == Apply(s, OmsReceives(n))
    ensures Inv(t)
  {
    var residue, rs := ReportsHeard(s, n);
    SettlingKeepsInv(s, n, residue, rs, t);
  }

  lemma {:induction false} StepKeepsInv(s: System, step: Step)
    requires Inv(s) && Enabled(s, step) && |Apply(s, step).sent| < UINT64
    ensures Inv(Apply(s, step))
  {
    match step
    case Send(req, now) =>
      SendKeepsSimulator(s, req, now);
      SendKeepsBook(s, req, now);
    case SimReceives(n, clock) => SimKeepsInv(s, n, clock, Apply(s, step));
    case OmsReceives(n) => OmsKeepsInv(s, n, Apply(s, step));
  }

  lemma {:induction false} HistoryGrows(s: System, steps: seq<Step>, t: System)
    requires Run(s, steps, t)
    ensures s.sent <= t.sent && s.reports <= t.reports && s.offered <= t.offered
    decreases |steps|
  {
    if steps != [] {
      var u := Apply(s, steps[0]);
      HistoryGrows(u, steps[1..], t);
      assert s.sent <= u.sent && s.reports <= u.reports && s.offered <= u.offered;
    }
  }

  lemma {:induction false} RunKeepsInv(s: System, steps: seq<Step>, t: System)
    requires Inv(s) && Run(s, steps, t) && |t.sent| < UINT64
    ensures Inv(t)
    decreases |steps|
  {
    if steps != [] {
      HistoryGrows(Apply(s, steps[0]), steps[1..], t);
      StepKeepsInv(s, steps[0]);
      RunKeepsInv(Apply(s, steps[0]), steps[1..], t);
    }
  }

  predicate Start(s: System)
  {
    s == System(1, map[], [], [], [], [], [], [], 0, [])
  }

  ghost predicate Reachable(t: System)
  {
    exists s, steps :: Start(s) && Run(s, steps, t)
  }

  lemma {:induction false} ReachableInv(t: System)
    requires Reachable(t) && |t.sent| < UINT64
    ensures Inv(t)
  {
    var s, steps :| Start(s) && Run(s, steps, t);
    assert EncodeOrders([]) == [] && EncodeReports([]) == [];
    assert Outbound(s.buf, s.toSim, s.sent[s.handled..]);
    assert Inbound(s.rx, s.toOms, s.reports[|s.offered|..]);
    RunKeepsInv(s, steps, t);
  }

  // ---------- The main results ----------

  /** No identifier is issued twice in fewer than 2^64 orders. */
  lemma {:induction false} IdsAreUnique(t: System, i: nat, j: nat)
    requires Reachable(t) && |t.sent| < UINT64 && i < j < |t.sent|
    ensures t.sent[i].clOrdId != t.sent[j].clOrdId
  {
    ReachableInv(t);
  }

  /** The simulator answers the orders in the order of their identifiers, each with an
      acknowledgement and then a fill of its price and quantity; the OMS hears the answers in
      the same order. */
  lemma {:induction false} AnsweredInOrder(t: System)
    requires Reachable(t) && |t.sent| < UINT64
    ensures Numbered(t.sent) && AnsweredUpTo(t.reports, t.sent, t.handled) && t.offered <= t.reports
  {
    ReachableInv(t);
  }

  /** The Fill of the order is among the reports parsed. */
  predicate FillParsed(offered: seq<ExecReport>, id: Word)
  {
    exists k :: 0 <= k < |offered| && offered[k].clOrdId == id && offered[k].execType == FILL
  }

  lemma {:induction false} FillParsedMeans(sent: seq<NewOrder>, reports: seq<ExecReport>, handled: nat, offered: seq<ExecReport>, id: Word)
    requires Numbered(sent) && AnsweredUpTo(reports, sent, handled) && offered <= reports && 1 <= id <= |sent|
    ensures FillParsed(offered, id) <==> 2 * id <= |offered|
  {
    if 2 * id <= |offered| {
      assert Answered(reports, id - 1, sent[id-1]);
      assert offered[2 * id - 1] == reports[2 * id - 1];
    }
    if FillParsed(offered, id) {
      var k :| 0 <= k < |offered| && offered[k].clOrdId == id && offered[k].execType == FILL;
      assert Answered(reports, k / 2, sent[k / 2]);
      assert k == 2 * (k / 2) || k == 2 * (k / 2) + 1;
      assert reports[k] == offered[k];
    }
  }

  /** What the table shows for an order: nothing filled before its Fill has been parsed, its
      whole quantity afterwards. */
  lemma {:induction false} TableShows(orders: Orders, sent: seq<NewOrder>, reports: seq<ExecReport>, handled: nat,
      offered: seq<ExecReport>, id: Word)
    requires Numbered(sent) && AnsweredUpTo(reports, sent, handled) && offered <= reports
    requires Table(orders, sent, |offered|) && 1 <= id <= |sent|
    ensures id in orders && orders[id].filled == if FillParsed(offered, id) then sent[id-1].qty else 0
    ensures FillParsed(offered, id) ==> orders[id] == StateFor(sent[id-1], FILL, sent[id-1].qty)
  {
    FillParsedMeans(sent, reports, handled, offered, id);
    assert orders[id] == Shown(sent[id-1], id, |offered|);
  }

  lemma {:induction false} StaysParsed(a: seq<ExecReport>, b: seq<ExecReport>, id: Word)
    requires a <= b && FillParsed(a, id)
    ensures FillParsed(b, id)
  {
    var k :| 0 <= k < |a| && a[k].clOrdId == id && a[k].execType == FILL;
    assert b[k] == a[k];
  }

  /** An order shows nothing filled until its fill has been parsed, and its whole quantity
      from then on, whatever happens later. */
  lemma {:induction false} FilledExactlyOnce(t: System, later: seq<Step>, u: System, id: Word)
    requires Reachable(t) && Run(t, later, u) && |u.sent| < UINT64 && 1 <= id <= |t.sent|
    ensures id in t.orders && t.orders[id].filled == if FillParsed(t.offered, id) then t.sent[id-1].qty else 0
    ensures id in u.orders && (FillParsed(t.offered, id) ==> u.orders[id] == t.orders[id])
  {
    HistoryGrows(t, later, u);
    ReachableInv(t);
    RunKeepsInv(t, later, u);
    TableShows(t.orders, t.sent, t.reports, t.handled, t.offered, id);
    TableShows(u.orders, u.sent, u.reports, u.handled, u.offered, id);
    assert u.sent[id-1] == t.sent[id-1];
    if FillParsed(t.offered, id) {
      StaysParsed(t.offered, u.offered, id);
    }
  }

  lemma {:induction false} NothingUnderWay(s: System)
    requires Inv(s) && s.toSim == [] && s.toOms == []
    ensures s.handled == |s.sent| && s.offered == s.reports && s.buf == [] && s.rx == []
  {
    var ws, rs := s.sent[s.handled..], s.reports[|s.offered|..];
    assert s.buf + [] == s.buf && s.rx + [] == s.rx;
    ParseFront(s.buf);
    ParseFront(s.rx);
    var n := OrdersArrive(ws, s.buf, []);
    var m := ReportsArrive(rs, s.rx, []);
    assert EncodeOrders([]) == [] && EncodeReports([]) == [];
    assert n == 0 && m == 0 && ws == [] && rs == [];
  }

  /** When both streams have run empty, every order has been answered and is filled. */
  lemma {:induction false} EverythingSettles(t: System, id: Word)
    requires Reachable(t) && |t.sent| < UINT64 && t.toSim == [] && t.toOms == [] && 1 <= id <= |t.sent|
    ensures t.handled == |t.sent| && t.offered == t.reports
    ensures id in t.orders && t.orders[id] == StateFor(t.sent[id-1], FILL, t.sent[id-1].qty)
  {
    ReachableInv(t);
    NothingUnderWay(t);
  }

  /** The orders the OMS was asked to send. */
  function Requests(steps: seq<Step>): seq<OrderRequest>
  {
    if steps == [] then [] else (if steps[0].Send? then [steps[0].req] else []) + Requests(steps[1..])
  }

  /** When it was asked. */
  function SendTimes(steps: seq<Step>): (r: seq<Int64>)
    ensures |r| == |Requests(steps)|
  {
    if steps == [] then [] else (if steps[0].Send? then [steps[0].now] else []) + SendTimes(steps[1..])
  }

  predicate AsRequested(w: NewOrder, req: OrderRequest, now: Int64)
  {
    && w.mdEventId == req.mdEventId && w.side == req.side && w.ordType == req.ordType && w.tif == req.tif
    && w.px == req.px && w.qty == req.qty && w.sentAt == now
  }

  predicate AllAsRequested(ws: seq<NewOrder>, reqs: seq<OrderRequest>, times: seq<Int64>)
  {
    |ws| == |reqs| == |times| && forall i | 0 <= i < |ws| :: AsRequested(ws[i], reqs[i], times[i])
  }

  lemma {:induction false} OneMoreAsRequested(sent: seq<NewOrder>, n: nat, req: OrderRequest, now: Int64,
      reqs: seq<OrderRequest>, times: seq<Int64>)
    requires n < |sent| && AsRequested(sent[n], req, now) && AllAsRequested(sent[n + 1..], reqs, times)
    ensures AllAsRequested(sent[n..], [req] + reqs, [now] + times)
  {
    assert sent[n..] == [sent[n]] + sent[n + 1..];
  }

  lemma {:induction false} SentBy(s: System, step: Step, u: System)
    requires Enabled(s, step) && u == Apply(s, step)
    ensures if step.Send? then |u.sent| == |s.sent| + 1 && AsRequested(u.sent[|s.sent|], step.req, step.now)
            else u.sent == s.sent
  {
  }

  lemma {:induction false} SentAfter(s: System, step: Step, u: System, t: System, reqs: seq<OrderRequest>, times: seq<Int64>)
    requires Enabled(s, step) && u == Apply(s, step) && u.sent <= t.sent && AllAsRequested(t.sent[|u.sent|..], reqs, times)
    ensures |s.sent| <= |t.sent|
    ensures AllAsRequested(t.sent[|s.sent|..], (if step.Send? then [step.req] else []) + reqs,
                           (if step.Send? then [step.now] else []) + times)
  {
    SentBy(s, step, u);
    if step.Send? {
      assert t.sent[|s.sent|] == u.sent[|s.sent|];
      OneMoreAsRequested(t.sent, |s.sent|, step.req, step.now, reqs, times);
    } else {
      assert [] + reqs == reqs && [] + times == times;
    }
  }

  /** The orders on the wire are the requests, field by field and in order. */
  lemma {:induction false} SentAsRequested(s: System, steps: seq<Step>, t: System)
    requires Run(s, steps, t)
    ensures |s.sent| <= |t.sent| && AllAsRequested(t.sent[|s.sent|..], Requests(steps), SendTimes(steps))
    decreases |steps|
  {
    if steps != [] {
      var u := Apply(s, steps[0]);
      HistoryGrows(u, steps[1..], t);
      SentAsRequested(u, steps[1..], t);
      SentAfter(s, steps[0], u, t, Requests(steps[1..]), SendTimes(steps[1..]));
    }
  }

  /** From request to fill: once both streams have run empty, the table shows for the k-th
      request its event, side and price, state Fill, and its whole quantity filled. */
  lemma {:induction false} RequestsAreFilled(s: System, steps: seq<Step>, t: System, id: Word)
    requires Start(s) && Run(s, steps, t) && |Requests(steps)| < UINT64 && t.toSim == [] && t.toOms == []
    ensures id in t.orders <==> 1 <= id <= |Requests(steps)|
    ensures id in t.orders ==>
              var req := Requests(steps)[id-1];
              t.orders[id] == OrderState(req.mdEventId, req.side, req.px, req.qty, FILL, req.qty)
  {
    SentAsRequested(s, steps, t);
    assert t.sent[0..] == t.sent;
    ReachableInv(t);
    if 1 <= id <= |t.sent| {
      EverythingSettles(t, id);
    }
  }

  /** A report about the order number `id`: its type, 0 for an acknowledgement and 1 for a fill, and
      what has been filled. */
  predicate Reports(r: ExecReport, id: nat, mdEventId: Word, execType: Byte, px: Int64, qty: Int64)
  {
    r.clOrdId == id && r.mdEventId == mdEventId && r.execType == execType && r.fillPx == px && r.fillQty == qty
  }

  /** What the OMS hears about the k-th request, once both streams have run empty: report number
      2k acknowledges it with nothing filled, and the next fills it at its price and quantity. */
  lemma {:induction false} RequestsAreReported(s: System, steps: seq<Step>, t: System, k: nat)
    requires Start(s) && Run(s, steps, t) && |Requests(steps)| < UINT64 && t.toSim == [] && t.toOms == []
    ensures |t.offered| == 2 * |Requests(steps)|
    ensures k < |Requests(steps)| ==>
              var req := Requests(steps)[k];
              && Reports(t.offered[2 * k], k + 1, req.mdEventId, 0, 0, 0)
              && Reports(t.offered[2 * k + 1], k + 1, req.mdEventId, 1, req.px, req.qty)
  {
    SentAsRequested(s, steps, t);
    assert t.sent[0..] == t.sent;
    ReachableInv(t);
    NothingUnderWay(t);
    if k < |t.sent| {
      assert Answered(t.reports, k, t.sent[k]);
      assert AsRequested(t.sent[k], Requests(steps)[k], SendTimes(steps)[k]);
    }
  }
}
