/** The protocol of OrderFlow.dfy run by the two classes of Oms.dfy.

    The link holds an `OmsEngine`, a `SimExServer` and how far each has read what the other
    has written.  Every step of the protocol is a call on one of them, so what is proved of
    the protocol's runs holds of the objects.
    */
module OrderLink {
  import opened Framing
  import opened Wire
  import opened Oms
  import opened OrderFlow

  /** The updates of the OMS tell what the reports say. */
  predicate UpdatesOf(us: seq<ExecUpdate>, rs: seq<ExecReport>)
  {
    |us| == |rs| && forall i | 0 <= i < |us| :: Tells(us[i], rs[i], us[i].recvAt)
  }

  lemma MoreUpdates(us: seq<ExecUpdate>, rs: seq<ExecReport>, more: seq<ExecReport>, clock: nat -> Int64,
      all: seq<ExecUpdate>)
    requires UpdatesOf(us, rs) && TellsAll(all, us, more, clock)
    ensures UpdatesOf(all, rs + more)
  {
    forall i | 0 <= i < |all| ensures Tells(all[i], (rs + more)[i], all[i].recvAt) {
      if i < |us| {
        assert all[i] == us[i];
      } else {
        assert Tells(all[|us| + (i - |us|)], more[i - |us|], clock(i - |us|));
      }
    }
  }

  lemma ReadOn(written: seq<Byte>, read: nat, n: nat)
    requires read + n <= |written|
    ensures written[read..][..n] == written[read..read + n] && written[read..][n..] == written[read + n..]
  {
  }

  lemma WriteOn(written: seq<Byte>, read: nat, more: seq<Byte>)
    requires read <= |written|
    ensures (written + more)[read..] == written[read..] + more
  {
  }

  /** What a delivery to the OMS comes to. */
  lemma {:induction false} OmsHears(s: System, n: nat, clock: nat -> Int64, us: seq<ExecUpdate>, all: seq<ExecUpdate>,
      parsed: (seq<seq<Byte>>, seq<Byte>), t: System)
    requires Enabled(s, OmsReceives(n)) && t == Apply(s, OmsReceives(n)) && parsed == ParseAll(s.rx + s.toOms[..n])
    requires UpdatesOf(us, s.offered) && TellsAll(all, us, DecodeReports(parsed.0), clock)
    ensures UpdatesOf(all, t.offered) && t.orders == SettleAll(s.orders, DecodeReports(parsed.0)) && t.rx == parsed.1
    ensures t.toOms == s.toOms[n..] && t.nextId == s.nextId && t.buf == s.buf && t.toSim == s.toSim
  {
    MoreUpdates(us, s.offered, DecodeReports(parsed.0), clock, all);
  }

  class Link {
    const oms: OmsEngine
    const sim: SimExServer
    var simRead: nat      // how much of the OMS's output the simulator has received
    var omsRead: nat      // how much of the simulator's output the OMS has received

    /** The objects and the bytes between them are in the state `s`. */
    ghost predicate Shows(s: System)
      reads this, oms, oms.socket, sim, sim.socket
    {
      && oms.socket != sim.socket
      && s.nextId == oms.nextId && s.orders == oms.orders && s.rx == oms.rxBuffer && s.buf == sim.buf
      && simRead <= |oms.socket.written| && s.toSim == oms.socket.written[simRead..]
      && omsRead <= |sim.socket.written| && s.toOms == sim.socket.written[omsRead..]
      && UpdatesOf(oms.outbound, s.offered)
    }

    constructor (oms: OmsEngine, sim: SimExServer)
      requires oms.nextId == 1 && oms.orders == map[] && oms.rxBuffer == [] && oms.outbound == [] && sim.buf == []
      requires oms.socket != sim.socket && oms.socket.written == [] && sim.socket.written == []
      ensures this.oms == oms && this.sim == sim
      ensures forall s | Start(s) :: Shows(s)
    {
      this.oms, this.sim, simRead, omsRead := oms, sim, 0, 0;
    }

    method SendOrder(req: OrderRequest, now: Int64, ghost s: System)
      requires Shows(s)
      modifies this, oms, oms.socket
      ensures Shows(Apply(s, Send(req, now)))
    {
      WriteOn(oms.socket.written, simRead, Pack(EncodeOrder(OrderFor(req, oms.nextId, now))));
      oms.SendNewOrder(req, now);
    }

    method DeliverToSim(n: nat, clock: nat -> Stamps, ghost s: System)
      requires Shows(s) && Enabled(s, SimReceives(n, clock))
      modifies this, sim, sim.socket
      ensures Shows(Apply(s, SimReceives(n, clock)))
    {
      ReadOn(oms.socket.written, simRead, n);
      var chunk := oms.socket.written[simRead..simRead + n];
      WriteOn(sim.socket.written, omsRead, AnswerBytes(DecodeOrders(ParseAll(sim.buf + chunk).0), clock));
      ghost var bytes := AnswerBytes(DecodeOrders(ParseAll(sim.buf + chunk).0), clock);
      sim.HandleChunk(chunk, clock);
      assert sim.socket.written[omsRead..] == s.toOms + bytes;
      simRead := simRead + n;
    }

    method DeliverToOms(n: nat, clock: nat -> Int64, ghost s: System)
      requires Shows(s) && Enabled(s, OmsReceives(n))
      modifies this, oms
      ensures Shows(Apply(s, OmsReceives(n)))
    {
      ReadOn(sim.socket.written, omsRead, n);
      var chunk := sim.socket.written[omsRead..omsRead + n];
      ghost var before, parsed := oms.outbound, ParseAll(oms.rxBuffer + chunk);
      oms.HandleChunk(chunk, clock);
      OmsHears(s, n, clock, before, oms.outbound, parsed, Apply(s, OmsReceives(n)));
      omsRead := omsRead + n;
    }

    /** A step of the protocol is a call. */
    method Perform(step: Step, clock: nat -> Int64, ghost s: System)
      requires Shows(s) && Enabled(s, step)
      modifies this, oms, oms.socket, sim, sim.socket
      ensures Shows(Apply(s, step))
    {
      match step
      case Send(req, now) => SendOrder(req, now, s);
      case SimReceives(n, stamps) => DeliverToSim(n, stamps, s);
      case OmsReceives(n) => DeliverToOms(n, clock, s);
    }

    /** A whole conversation: once both streams have run empty, the order table of the object
        holds exactly the requests, each filled to its whole quantity, and the strategy has been
        offered an acknowledgement and then a fill for each of them in turn. */
    method Converse(steps: seq<Step>, clock: (nat, nat) -> Int64, ghost s: System, ghost t: System)
      requires Start(s) && Shows(s) && Run(s, steps, t)
      modifies this, oms, oms.socket, sim, sim.socket
      ensures Shows(t)
      ensures |Requests(steps)| < UINT64 && simRead == |oms.socket.written| && omsRead == |sim.socket.written| ==>
                && TableIs(oms.orders, Requests(steps)) && OfferedAre(oms.outbound, Requests(steps))
    {
      ghost var now := s;
      assert steps[0..] == steps;
      for i := 0 to |steps|
        invariant Shows(now) && Run(now, steps[i..], t)
      {
        assert steps[i..][0] == steps[i] && steps[i..][1..] == steps[i + 1..];
        Perform(steps[i], k => clock(i, k), now);
        now := Apply(now, steps[i]);
      }
      assert steps[|steps|..] == [];
      if |Requests(steps)| < UINT64 && simRead == |oms.socket.written| && omsRead == |sim.socket.written| {
        TableSettles(s, steps, t);
        UpdatesSettle(s, steps, t, oms.outbound);
      }
    }
  }

  // ---------- What a conversation comes to ----------

  /** The table holds the requests, numbered from 1, each filled to its whole quantity. */
  ghost predicate TableIs(orders: Orders, reqs: seq<OrderRequest>)
  {
    forall id: Word ::
      && (id in orders <==> 1 <= id <= |reqs|)
      && (id in orders ==>
            var req := reqs[id-1];
            orders[id] == OrderState(req.mdEventId, req.side, req.px, req.qty, 1, req.qty))
  }

  /** For the k-th request, update number 2k is its acknowledgement, with nothing filled, and the
      next one its fill, at its price and quantity. */
  predicate OfferedAre(us: seq<ExecUpdate>, reqs: seq<OrderRequest>)
  {
    && |us| == 2 * |reqs|
    && forall k | 0 <= k < |reqs| :: OfferedFor(us, k, reqs[k])
  }

  predicate OfferedFor(us: seq<ExecUpdate>, k: nat, req: OrderRequest)
  {
    && 2 * k + 1 < |us|
    && var ack, fill := us[2 * k], us[2 * k + 1];
    && ack.clOrdId == k + 1 && ack.mdEventId == req.mdEventId && ack.execType == 0
    && ack.fillPx == 0 && ack.fillQty == 0
    && fill.clOrdId == k + 1 && fill.mdEventId == req.mdEventId && fill.execType == 1
    && fill.fillPx == req.px && fill.fillQty == req.qty
  }

  lemma {:induction false} TableSettles(s: System, steps: seq<Step>, t: System)
    requires Start(s) && Run(s, steps, t) && |Requests(steps)| < UINT64 && t.toSim == [] && t.toOms == []
    ensures TableIs(t.orders, Requests(steps))
  {
    forall id: Word
      ensures id in t.orders <==> 1 <= id <= |Requests(steps)|
      ensures id in t.orders ==>
                var req := Requests(steps)[id-1];
                t.orders[id] == OrderState(req.mdEventId, req.side, req.px, req.qty, 1, req.qty)
    {
      RequestsAreFilled(s, steps, t, id);
    }
  }

  lemma {:induction false} UpdatesSettle(s: System, steps: seq<Step>, t: System, us: seq<ExecUpdate>)
    requires Start(s) && Run(s, steps, t) && |Requests(steps)| < UINT64 && t.toSim == [] && t.toOms == []
    requires UpdatesOf(us, t.offered)
    ensures OfferedAre(us, Requests(steps))
  {
    RequestsAreReported(s, steps, t, 0);
    forall k | 0 <= k < |Requests(steps)| ensures OfferedFor(us, k, Requests(steps)[k]) {
      RequestsAreReported(s, steps, t, k);
      assert Tells(us[2 * k], t.offered[2 * k], us[2 * k].recvAt);
      assert Tells(us[2 * k + 1], t.offered[2 * k + 1], us[2 * k + 1].recvAt);
    }
  }
}
