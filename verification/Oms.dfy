/** The two ends of the order connection: `OmsEngine` of hft_test/src/hft_main.cpp and
    `SimExServer` of hft_test/src/simex_server.cpp.

    The functions say what a call does to the order table and to the byte streams; the
    classes do it in place, with the loops of the source, and are proved to compute them.
    */
module Oms {
  import opened Basics
  import opened Framing
  import opened Sockets
  import opened Wire

  const ACK: Byte := 0
  const FILL: Byte := 1

  datatype OrderRequest = OrderRequest(mdEventId: Word, side: Byte, ordType: Byte, tif: Byte, px: Int64, qty: Int64)

  datatype OrderState = OrderState(mdEventId: Word, side: Byte, px: Int64, qty: Int64, state: Byte, filled: int)

  datatype ExecUpdate = ExecUpdate(clOrdId: Word, mdEventId: Word, execType: Byte, fillPx: Int64, fillQty: Int64,
      recvAt: Int64)

  type Orders = map<Word, OrderState>

  // ---------- The OMS ----------

  function OrderFor(req: OrderRequest, id: Word, now: Int64): NewOrder
  {
    NewOrder(id, req.mdEventId, req.side, req.ordType, req.tif, req.px, req.qty, now)
  }

  function StateFor(w: NewOrder, state: Byte, filled: int): OrderState
  {
    OrderState(w.mdEventId, w.side, w.px, w.qty, state, filled)
  }

  /** `next_clordid_++` on 64 bits. */
  function NextId(id: Word): Word
  {
    if id + 1 == UINT64 then 0 else id + 1
  }

  function IfAny<T>(o: Option<T>): seq<T>
  {
    if o.Some? then [o.value] else []
  }

  /** The payloads that pass the checks, decoded. */
  function DecodeReports(payloads: seq<seq<Byte>>): seq<ExecReport>
  {
    if payloads == [] then []
    else
      IfAny(DecodeReport(payloads[0])) + DecodeReports(payloads[1..])
  }

  /** What an execution report does to the order table. */
  function Settle(orders: Orders, r: ExecReport): Orders
  {
    if r.clOrdId in orders then
      var o := orders[r.clOrdId];
      orders[r.clOrdId := o.(state := r.execType, filled := o.filled + r.fillQty)]
    else orders
  }

  function SettleAll(orders: Orders, rs: seq<ExecReport>): Orders
  {
    if rs == [] then orders else SettleAll(Settle(orders, rs[0]), rs[1..])
  }

  lemma {:induction false} DecodeReportsAppend(a: seq<seq<Byte>>, p: seq<Byte>)
    ensures DecodeReports(a + [p]) == DecodeReports(a) + IfAny(DecodeReport(p))
  {
    if a == [] {
      assert (a + [p])[1..] == [];
    } else {
      assert (a + [p])[1..] == a[1..] + [p];
      DecodeReportsAppend(a[1..], p);
      ConcatAssociative(IfAny(DecodeReport(a[0])), DecodeReports(a[1..]), IfAny(DecodeReport(p)));
    }
  }

  lemma {:induction false} SettleAllAppend(orders: Orders, rs: seq<ExecReport>, r: ExecReport)
    ensures SettleAll(orders, rs + [r]) == Settle(SettleAll(orders, rs), r)
    decreases |rs|
  {
    if rs == [] {
      assert (rs + [r])[1..] == [];
      assert SettleAll(Settle(orders, r), []) == Settle(orders, r);
    } else {
      assert (rs + [r])[1..] == rs[1..] + [r];
      SettleAllAppend(Settle(orders, rs[0]), rs[1..], r);
    }
  }

  /** The quantities that reports on an order add up to. */
  function Reported(rs: seq<ExecReport>, id: Word): int
  {
    if rs == [] then 0 else (if rs[0].clOrdId == id then rs[0].fillQty else 0) + Reported(rs[1..], id)
  }

  /** The type of the last report on an order. */
  function LastType(rs: seq<ExecReport>, id: Word, before: Byte): Byte
    decreases |rs|
  {
    if rs == [] then before else LastType(rs[1..], id, if rs[0].clOrdId == id then rs[0].execType else before)
  }

  /** Whatever is reported, partly filled or unknown orders included: each order of the table shows
      the sum of the quantities reported on it and the type of the last report; nothing else in the
      table changes. */
  lemma {:induction false} SettledOrder(orders: Orders, rs: seq<ExecReport>, id: Word)
    ensures id in SettleAll(orders, rs) <==> id in orders
    ensures id in orders ==>
              var o, after := orders[id], SettleAll(orders, rs)[id];
              && after.filled == o.filled + Reported(rs, id) && after.state == LastType(rs, id, o.state)
              && after.mdEventId == o.mdEventId && after.side == o.side && after.px == o.px && after.qty == o.qty
    decreases |rs|
  {
    if rs != [] {
      SettledOrder(Settle(orders, rs[0]), rs[1..], id);
    }
  }

  /** The update tells the strategy what the report says, and when it came. */
  predicate Tells(u: ExecUpdate, r: ExecReport, at: Int64)
  {
    && u.clOrdId == r.clOrdId && u.mdEventId == r.mdEventId && u.execType == r.execType
    && u.fillPx == r.fillPx && u.fillQty == r.fillQty && u.recvAt == at
  }

  /** After the updates `before`, one for each report in order, stamped by the readings of the
      clock in turn. */
  predicate TellsAll(us: seq<ExecUpdate>, before: seq<ExecUpdate>, rs: seq<ExecReport>, clock: nat -> Int64)
  {
    && before <= us && |us| == |before| + |rs|
    && forall i: nat | i < |rs| :: Tells(us[|before| + i], rs[i], clock(i))
  }

  lemma {:induction false} TellsOneMore(us: seq<ExecUpdate>, before: seq<ExecUpdate>, rs: seq<ExecReport>,
      clock: nat -> Int64, u: ExecUpdate, r: ExecReport)
    requires TellsAll(us, before, rs, clock) && Tells(u, r, clock(|rs|))
    ensures TellsAll(us + [u], before, rs + [r], clock)
  {
    assert before <= us + [u];
  }

  lemma OneFrame(payload: seq<Byte>)
    requires Sendable(payload)
    ensures Complete(Pack(payload)) && FrontPayload(Pack(payload)) == payload && AfterFront(Pack(payload)) == []
  {
    PackRoundTrip(payload, []);
    assert Pack(payload) + [] == Pack(payload);
  }

  lemma ReportArrives(r: ExecReport)
    ensures Complete(Pack(EncodeReport(r))) && AfterFront(Pack(EncodeReport(r))) == []
    ensures DecodeReport(FrontPayload(Pack(EncodeReport(r)))) == Some(r)
  {
    OneFrame(EncodeReport(r));
    ReportRoundTrip(r);
  }

  class OmsEngine {
    const socket: Socket
    var nextId: Word
    var rxBuffer: seq<Byte>
    var orders: Orders
    var outbound: seq<ExecUpdate>      // everything offered to the ring to the strategy

    constructor (socket: Socket)
      ensures this.socket == socket && nextId == 1 && rxBuffer == [] && orders == map[] && outbound == []
    {
      this.socket, nextId, rxBuffer, orders, outbound := socket, 1, [], map[], [];
    }

    method SendNewOrder(req: OrderRequest, now: Int64)
      modifies this, socket
      ensures var w := OrderFor(req, old(nextId), now);
              && orders == old(orders)[w.clOrdId := StateFor(w, ACK, 0)]
              && socket.written == old(socket.written) + Pack(EncodeOrder(w))
      ensures nextId == NextId(old(nextId))
      ensures rxBuffer == old(rxBuffer) && outbound == old(outbound)
    {
      var w := NewOrder(nextId, req.mdEventId, req.side, req.ordType, req.tif, req.px, req.qty, now);
      nextId := NextId(nextId);
      orders := orders[w.clOrdId := OrderState(req.mdEventId, req.side, req.px, req.qty, ACK, 0)];
      socket.SendAll(Pack(EncodeOrder(w)));
    }

    /** One round of the loop of `parse_exec_reports`: payloads that fail the checks are skipped. */
    method HandlePayload(payload: seq<Byte>, clock: nat -> Int64, tick: nat, ghost rs: seq<ExecReport>,
        ghost before: Orders, ghost out: seq<ExecUpdate>)
      returns (newTick: nat)
      requires tick == |rs| && orders == SettleAll(before, rs) && TellsAll(outbound, out, rs, clock)
      modifies this`orders, this`outbound
      ensures var all := rs + IfAny(DecodeReport(payload));
              newTick == |all| && orders == SettleAll(before, all) && TellsAll(outbound, out, all, clock)
    {
      newTick := tick;
      var d := DecodeReport(payload);
      if d.None? {
        assert rs + IfAny(d) == rs;
        return;
      }
      var r := d.value;
      SettleAllAppend(before, rs, r);
      var ex := ExecUpdate(r.clOrdId, r.mdEventId, r.execType, r.fillPx, r.fillQty, clock(tick));
      TellsOneMore(outbound, out, rs, clock, ex, r);
      newTick := tick + 1;
      outbound := outbound + [ex];
      if r.clOrdId in orders {
        var o := orders[r.clOrdId];
        orders := orders[r.clOrdId := o.(state := ex.execType, filled := o.filled + ex.fillQty)];
      }
    }

    /** `clock` gives the readings of the loop in turn. */
    method ParseExecReports(clock: nat -> Int64)
      modifies this
      ensures rxBuffer == ParseAll(old(rxBuffer)).1
      ensures var rs := DecodeReports(ParseAll(old(rxBuffer)).0);
              orders == SettleAll(old(orders), rs) && TellsAll(outbound, old(outbound), rs, clock)
      ensures nextId == old(nextId)
    {
      ghost var done: seq<seq<Byte>> := [];
      ghost var rs: seq<ExecReport> := [];
      var offset, tick := 0, 0;
      ParsedNothing(rxBuffer);
      while true
        invariant rxBuffer == old(rxBuffer) && nextId == old(nextId)
        invariant ParsedTo(rxBuffer, offset, done) && rs == DecodeReports(done) && tick == |rs|
        invariant orders == SettleAll(old(orders), rs) && TellsAll(outbound, old(outbound), rs, clock)
        decreases |rxBuffer| - offset
      {
        var ok, next, payload := UnpackFrame(rxBuffer, offset);
        if !ok {
          break;
        }
        ParsedOneMore(rxBuffer, offset, next, done, payload);
        DecodeReportsAppend(done, payload);
        tick := HandlePayload(payload, clock, tick, rs, old(orders), old(outbound));
        rs := rs + IfAny(DecodeReport(payload));
        done := done + [payload];
        offset := next;
      }
      ParsedEverything(rxBuffer, offset, done);
      rxBuffer := rxBuffer[offset..];
    }

    /** One turn of the loop of `handle_socket_read`. */
    method HandleChunk(chunk: seq<Byte>, clock: nat -> Int64)
      modifies this
      ensures rxBuffer == ParseAll(old(rxBuffer) + chunk).1
      ensures var rs := DecodeReports(ParseAll(old(rxBuffer) + chunk).0);
              orders == SettleAll(old(orders), rs) && TellsAll(outbound, old(outbound), rs, clock)
      ensures nextId == old(nextId)
    {
      rxBuffer := rxBuffer + chunk;
      ParseExecReports(clock);
    }
  }

  // ---------- The exchange simulator ----------

  /** The clock readings taken while one order is handled. */
  datatype Stamps = Stamps(recvAt: Int64, ackAt: Int64, fillAt: Int64)

  function DecodeOrders(payloads: seq<seq<Byte>>): seq<NewOrder>
  {
    if payloads == [] then []
    else
      IfAny(DecodeOrder(payloads[0])) + DecodeOrders(payloads[1..])
  }

  /** `handle_new_order`: an acknowledgement, then a fill of the whole quantity. */
  function Answer(w: NewOrder, st: Stamps): seq<ExecReport>
  {
    [ExecReport(w.clOrdId, w.mdEventId, ACK, 0, 0, st.recvAt, st.ackAt),
     ExecReport(w.clOrdId, w.mdEventId, FILL, w.px, w.qty, st.recvAt, st.fillAt)]
  }

  /** The answers to a list of orders; the clock readings are numbered from `k`. */
  function Answers(ws: seq<NewOrder>, clock: nat -> Stamps, k: nat): (r: seq<ExecReport>)
    ensures |r| == 2 * |ws|
  {
    if ws == [] then [] else Answer(ws[0], clock(k)) + Answers(ws[1..], clock, k + 1)
  }

  function EncodeReports(rs: seq<ExecReport>): (ps: seq<seq<Byte>>)
    ensures |ps| == |rs| && forall i | 0 <= i < |rs| :: ps[i] == EncodeReport(rs[i])
  {
    seq(|rs|, i requires 0 <= i < |rs| => EncodeReport(rs[i]))
  }

  function EncodeOrders(ws: seq<NewOrder>): (ps: seq<seq<Byte>>)
    ensures |ps| == |ws| && forall i | 0 <= i < |ws| :: ps[i] == EncodeOrder(ws[i])
  {
    seq(|ws|, i requires 0 <= i < |ws| => EncodeOrder(ws[i]))
  }

  lemma {:induction false} DecodeOrdersAppend(a: seq<seq<Byte>>, p: seq<Byte>)
    ensures DecodeOrders(a + [p]) == DecodeOrders(a) + IfAny(DecodeOrder(p))
  {
    if a == [] {
      assert (a + [p])[1..] == [];
    } else {
      assert (a + [p])[1..] == a[1..] + [p];
      DecodeOrdersAppend(a[1..], p);
      ConcatAssociative(IfAny(DecodeOrder(a[0])), DecodeOrders(a[1..]), IfAny(DecodeOrder(p)));
    }
  }

  lemma {:induction false} AnswersAppend(ws: seq<NewOrder>, w: NewOrder, clock: nat -> Stamps, k: nat)
    ensures Answers(ws + [w], clock, k) == Answers(ws, clock, k) + Answer(w, clock(k + |ws|))
    decreases |ws|
  {
    if ws == [] {
      assert (ws + [w])[1..] == [];
    } else {
      assert (ws + [w])[1..] == ws[1..] + [w];
      AnswersAppend(ws[1..], w, clock, k + 1);
      ConcatAssociative(Answer(ws[0], clock(k)), Answers(ws[1..], clock, k + 1), Answer(w, clock(k + |ws|)));
    }
  }

  lemma {:induction false} ReportFramesAppend(a: seq<ExecReport>, b: seq<ExecReport>)
    ensures Frames(EncodeReports(a + b)) == Frames(EncodeReports(a)) + Frames(EncodeReports(b))
  {
    assert EncodeReports(a + b) == EncodeReports(a) + EncodeReports(b);
    FramesAppend(EncodeReports(a), EncodeReports(b));
  }

  lemma {:induction false} ReportFramesExtend(out: seq<Byte>, a: seq<ExecReport>, b: seq<ExecReport>)
    ensures out + Frames(EncodeReports(a + b)) == out + Frames(EncodeReports(a)) + Frames(EncodeReports(b))
  {
    ReportFramesAppend(a, b);
    ConcatAssociative(out, Frames(EncodeReports(a)), Frames(EncodeReports(b)));
  }

  /** The bytes written for a list of orders. */
  function AnswerBytes(ws: seq<NewOrder>, clock: nat -> Stamps): seq<Byte>
  {
    Frames(EncodeReports(Answers(ws, clock, 0)))
  }

  lemma {:induction false} AnswerBytesAppend(out: seq<Byte>, ws: seq<NewOrder>, w: NewOrder, clock: nat -> Stamps)
    ensures out + AnswerBytes(ws + [w], clock) ==
                out + AnswerBytes(ws, clock) + Frames(EncodeReports(Answer(w, clock(|ws|))))
  {
    AnswersAppend(ws, w, clock, 0);
    ReportFramesExtend(out, Answers(ws, clock, 0), Answer(w, clock(|ws|)));
  }

  lemma {:induction false} OneReportFrame(r: ExecReport)
    ensures Frames(EncodeReports([r])) == Pack(EncodeReport(r))
  {
    var ps := EncodeReports([r]);
    assert ps[1..] == [] && Frames(ps[1..]) == [];
    assert Frames(ps) == Pack(ps[0]) + Frames(ps[1..]);
  }

  lemma {:induction false} TwoReportFrames(out: seq<Byte>, a: ExecReport, b: ExecReport)
    ensures out + Pack(EncodeReport(a)) + Pack(EncodeReport(b)) == out + Frames(EncodeReports([a, b]))
  {
    assert [a, b] == [a] + [b];
    ReportFramesExtend(out, [a], [b]);
    OneReportFrame(a);
    OneReportFrame(b);
  }

  class SimExServer {
    const socket: Socket
    var buf: seq<Byte>

    constructor (socket: Socket)
      ensures this.socket == socket && buf == []
    {
      this.socket, buf := socket, [];
    }

    /** One frame is written, and what is in it is the report. */
    method SendReport(w: NewOrder, execType: Byte, fillPx: Int64, fillQty: Int64, recvAt: Int64, now: Int64)
      returns (ghost frame: seq<Byte>)
      modifies socket
      ensures socket.written == old(socket.written) + frame
      ensures Complete(frame) && AfterFront(frame) == []
      ensures var r := ExecReport(w.clOrdId, w.mdEventId, execType, fillPx, fillQty, recvAt, now);
              frame == Pack(EncodeReport(r)) && DecodeReport(FrontPayload(frame)) == Some(r)
    {
      var r := ExecReport(w.clOrdId, w.mdEventId, execType, fillPx, fillQty, recvAt, now);
      frame := Pack(EncodeReport(r));
      ReportArrives(r);
      socket.SendAll(Pack(EncodeReport(r)));
    }

    method HandleNewOrder(w: NewOrder, st: Stamps)
      modifies socket
      ensures socket.written == old(socket.written) + Frames(EncodeReports(Answer(w, st)))
    {
      ghost var before := socket.written;
      ghost var ack := SendReport(w, ACK, 0, 0, st.recvAt, st.ackAt);
      ghost var fill := SendReport(w, FILL, w.px, w.qty, st.recvAt, st.fillAt);
      TwoReportFrames(before, Answer(w, st)[0], Answer(w, st)[1]);
    }

    /** One round of the loop of `parse_messages`: payloads that fail the checks are skipped. */
    method HandlePayload(payload: seq<Byte>, clock: nat -> Stamps, count: nat, ghost ws: seq<NewOrder>,
        ghost base: seq<Byte>)
      returns (newCount: nat)
      requires count == |ws| && socket.written == base + AnswerBytes(ws, clock)
      modifies socket
      ensures newCount == |ws + IfAny(DecodeOrder(payload))|
      ensures socket.written == base + AnswerBytes(ws + IfAny(DecodeOrder(payload)), clock)
    {
      newCount := count;
      var d := DecodeOrder(payload);
      if d.None? {
        assert ws + IfAny(d) == ws;
        return;
      }
      AnswerBytesAppend(base, ws, d.value, clock);
      HandleNewOrder(d.value, clock(count));
      newCount := count + 1;
    }

    method ParseMessages(clock: nat -> Stamps)
      modifies this, socket
      ensures buf == ParseAll(old(buf)).1
      ensures socket.written == old(socket.written) + AnswerBytes(DecodeOrders(ParseAll(old(buf)).0), clock)
    {
      ghost var done: seq<seq<Byte>> := [];
      ghost var ws: seq<NewOrder> := [];
      var offset, count := 0, 0;
      ParsedNothing(buf);
      while true
        invariant buf == old(buf)
        invariant ParsedTo(buf, offset, done) && ws == DecodeOrders(done) && count == |ws|
        invariant socket.written == old(socket.written) + AnswerBytes(ws, clock)
        decreases |buf| - offset
      {
        var ok, next, payload := UnpackFrame(buf, offset);
        if !ok {
          break;
        }
        ParsedOneMore(buf, offset, next, done, payload);
        DecodeOrdersAppend(done, payload);
        count := HandlePayload(payload, clock, count, ws, old(socket.written));
        ws := ws + IfAny(DecodeOrder(payload));
        done := done + [payload];
        offset := next;
      }
      ParsedEverything(buf, offset, done);
      buf := buf[offset..];
    }

    /** One turn of the loop of `handle_client`. */
    method HandleChunk(chunk: seq<Byte>, clock: nat -> Stamps)
      modifies this, socket
      ensures buf == ParseAll(old(buf) + chunk).1
      ensures socket.written == old(socket.written) + AnswerBytes(DecodeOrders(ParseAll(old(buf) + chunk).0), clock)
    {
      buf := buf + chunk;
      ParseMessages(clock);
    }
  }
}
