/** The gateway between the queues and the wire (include/hft/order_gateway.hpp). */
module GatewaySpec {
  import opened Bits
  import opened Messages
  import Risk = RiskSpec

  datatype InFlight = InFlight(orderId: nat, mdTimestamp: U64, active: bool)

  const FREE := InFlight(0, 0, false)

  datatype Gateway = Gateway(
    gate: Risk.Gate, inflight: seq<InFlight>,
    sent: nat, riskRejected: nat, fillsMatched: nat, fillsUnmatched: nat)

  /** The table is direct-mapped: an id's slot is its remainder by the capacity. */
  function SlotOf(logCap: nat, orderId: nat): (i: nat)
    ensures i < Pow2(logCap)
  {
    orderId % Pow2(logCap)
  }

  predicate Matches(logCap: nat, gw: Gateway, r: ExecReport)
    requires |gw.inflight| == Pow2(logCap)
  {
    var slot := gw.inflight[SlotOf(logCap, r.orderId)];
    slot.active && slot.orderId == r.orderId
  }

  /** A report closes the slot it matches and moves the risk position; any other is only counted. */
  function TakeReport(logCap: nat, gw: Gateway, r: ExecReport): (gw': Gateway)
    requires |gw.inflight| == Pow2(logCap)
    ensures |gw'.inflight| == Pow2(logCap)
  {
    var i := SlotOf(logCap, r.orderId);
    if Matches(logCap, gw, r) then
      gw.(gate := Risk.OnFill(gw.gate, r), fillsMatched := gw.fillsMatched + 1,
          inflight := gw.inflight[i := gw.inflight[i].(active := false)])
    else gw.(fillsUnmatched := gw.fillsUnmatched + 1)
  }

  predicate Admits(l: Risk.Limits, gw: Gateway, o: OrderRequest, kill: bool, now: nat) {
    Risk.Judge(l, gw.gate, o, kill, now) == Risk.Accept
  }

  /** The checks, then the slot and the send; a rejected order is dropped. */
  function Dispatch(l: Risk.Limits, logCap: nat, gw: Gateway, o: OrderRequest, kill: bool, now: nat): (gw': Gateway)
    requires |gw.inflight| == Pow2(logCap)
    ensures |gw'.inflight| == Pow2(logCap)
  {
    var checked := gw.(gate := Risk.Check(l, gw.gate, o, kill, now));
    if Admits(l, gw, o, kill, now) then
      checked.(inflight := gw.inflight[SlotOf(logCap, o.orderId) := InFlight(o.orderId, o.mdTimestamp, true)],
               sent := gw.sent + 1)
    else checked.(riskRejected := gw.riskRejected + 1)
  }

  /** Datagrams one poll reads at most. */
  const DRAIN_LIMIT: nat := 32

  /** What recv yields: a whole report, or a datagram of another size. */
  datatype Datagram = Report(r: ExecReport) | WrongSize

  datatype Intake = Intake(gw: Gateway, forwarded: seq<ExecReport>, rest: seq<Datagram>)

  /** At most `budget` datagrams; one of the wrong size is consumed and ends the drain. */
  function Receive(logCap: nat, gw: Gateway, inbox: seq<Datagram>, budget: nat): (t: Intake)
    requires |gw.inflight| == Pow2(logCap)
    ensures |t.gw.inflight| == Pow2(logCap)
    decreases |inbox|
  {
    if budget == 0 || inbox == [] then Intake(gw, [], inbox)
    else if inbox[0].WrongSize? then Intake(gw, [], inbox[1..])
    else
      var r := inbox[0].r;
      var t := Receive(logCap, TakeReport(logCap, gw, r), inbox[1..], budget - 1);
      t.(forwarded := (if Matches(logCap, gw, r) then [r] else []) + t.forwarded)
  }

  /** What a drain comes to, given what is already forwarded. */
  function Drained(logCap: nat, gw: Gateway, inbox: seq<Datagram>, budget: nat, got: seq<ExecReport>): (t: Intake)
    requires |gw.inflight| == Pow2(logCap)
  {
    var t := Receive(logCap, gw, inbox, budget);
    t.(forwarded := got + t.forwarded)
  }

  lemma DrainedStep(logCap: nat, gw: Gateway, inbox: seq<Datagram>, budget: nat, got: seq<ExecReport>)
    requires |gw.inflight| == Pow2(logCap)
    requires budget > 0 && inbox != [] && inbox[0].Report?
    ensures var r := inbox[0].r;
            Drained(logCap, gw, inbox, budget, got) ==
            Drained(logCap, TakeReport(logCap, gw, r), inbox[1..], budget - 1,
                    got + if Matches(logCap, gw, r) then [r] else [])
  {
  }

  lemma DrainedEnd(logCap: nat, gw: Gateway, inbox: seq<Datagram>, budget: nat, got: seq<ExecReport>)
    requires |gw.inflight| == Pow2(logCap)
    requires budget == 0 || inbox == [] || inbox[0].WrongSize?
    ensures Drained(logCap, gw, inbox, budget, got) ==
            Intake(gw, got, if budget > 0 && inbox != [] then inbox[1..] else inbox)
  {
  }

  predicate Quiet(gw: Gateway) { forall i :: 0 <= i < |gw.inflight| ==> !gw.inflight[i].active }

  /** Reports that match nothing change nothing but the count of unmatched ones:
      a gateway with no live order forwards no fill, whatever arrives. */
  lemma {:induction false} QuietForwardsNothing(logCap: nat, gw: Gateway, inbox: seq<Datagram>, budget: nat)
    requires |gw.inflight| == Pow2(logCap) && Quiet(gw)
    ensures var t := Receive(logCap, gw, inbox, budget);
            && t.forwarded == []
            && t.gw == gw.(fillsUnmatched := t.gw.fillsUnmatched)
            && t.gw.fillsUnmatched >= gw.fillsUnmatched
    decreases |inbox|
  {
    if budget > 0 && inbox != [] && inbox[0].Report? {
      QuietForwardsNothing(logCap, TakeReport(logCap, gw, inbox[0].r), inbox[1..], budget - 1);
    }
  }

  /** A repeated report is never forwarded twice, wherever the copy sits in the inbox. */
  lemma {:induction false} NoOrderFillsTwice(logCap: nat, gw: Gateway, inbox: seq<Datagram>, budget: nat)
    requires |gw.inflight| == Pow2(logCap)
    ensures var f := Receive(logCap, gw, inbox, budget).forwarded;
            DistinctIds(f) && AllMatch(logCap, gw, f)
    decreases |inbox|
  {
    if budget > 0 && inbox != [] && inbox[0].Report? {
      var r := inbox[0].r;
      var gw1 := TakeReport(logCap, gw, r);
      var f := Receive(logCap, gw1, inbox[1..], budget - 1).forwarded;
      NoOrderFillsTwice(logCap, gw1, inbox[1..], budget - 1);
      assert AllMatch(logCap, gw1, f);
      assert forall k :: 0 <= k < |f| ==> Matches(logCap, gw1, f[k]);
      forall k | 0 <= k < |f|
        ensures Matches(logCap, gw, f[k]) && (Matches(logCap, gw, r) ==> f[k].orderId != r.orderId)
      {
        assert Matches(logCap, gw1, f[k]);
      }
    }
  }

  // ---- what a poll reads -------------------------------------------------------------------

  /** Whole reports at the front of the inbox. */
  function Leading(inbox: seq<Datagram>): (n: nat)
    ensures n <= |inbox| && forall i :: 0 <= i < n ==> inbox[i].Report?
    ensures n < |inbox| ==> inbox[n].WrongSize?
  {
    if inbox == [] || inbox[0].WrongSize? then 0 else 1 + Leading(inbox[1..])
  }

  /** Datagrams a drain consumes: the reports it may take, and a wrong-size one it runs into. */
  function Consumed(inbox: seq<Datagram>, budget: nat): (k: nat)
    ensures k <= |inbox|
  {
    if Leading(inbox) >= budget then budget
    else if Leading(inbox) == |inbox| then |inbox|
    else Leading(inbox) + 1
  }

  lemma {:induction false} DrainReads(logCap: nat, gw: Gateway, inbox: seq<Datagram>, budget: nat)
    requires |gw.inflight| == Pow2(logCap)
    ensures var t := Receive(logCap, gw, inbox, budget);
            var n := if Leading(inbox) < budget then Leading(inbox) else budget;
            && t.rest == inbox[Consumed(inbox, budget)..]
            && t.gw.fillsMatched == gw.fillsMatched + |t.forwarded|
            && t.gw.fillsMatched + t.gw.fillsUnmatched == gw.fillsMatched + gw.fillsUnmatched + n
    decreases |inbox|
  {
    if budget > 0 && inbox != [] && inbox[0].Report? {
      DrainReads(logCap, TakeReport(logCap, gw, inbox[0].r), inbox[1..], budget - 1);
    }
  }

  /** The one live slot is the one this report matches. */
  ghost predicate LoneMatch(logCap: nat, gw: Gateway, r: ExecReport)
    requires |gw.inflight| == Pow2(logCap)
  {
    && Matches(logCap, gw, r)
    && forall i :: 0 <= i < |gw.inflight| && i != SlotOf(logCap, r.orderId) ==> !gw.inflight[i].active
  }

  /** The first report of the one live order, if a drain comes to it: it alone is
      forwarded, its slot is freed and the gate's position moves by it. */
  lemma {:induction false} LoneReportIsTaken(logCap: nat, gw: Gateway, inbox: seq<Datagram>, k: nat, budget: nat)
    requires |gw.inflight| == Pow2(logCap) && k < budget && k < Leading(inbox)
    requires LoneMatch(logCap, gw, inbox[k].r)
    requires forall j :: 0 <= j < k ==> inbox[j].r.orderId != inbox[k].r.orderId
    ensures var r := inbox[k].r;
            var t := Receive(logCap, gw, inbox, budget);
            && t.forwarded == [r] && Quiet(t.gw) && t.gw.fillsMatched == gw.fillsMatched + 1
            && t.gw.gate.position == gw.gate.position + if r.side == 66 then r.fillSize else -(r.fillSize as int)
    decreases |inbox|
  {
    var gw1 := TakeReport(logCap, gw, inbox[0].r);
    if k == 0 {
      QuietForwardsNothing(logCap, gw1, inbox[1..], budget - 1);
    } else {
      assert !Matches(logCap, gw, inbox[0].r);
      assert inbox[1..][k - 1] == inbox[k];
      LoneReportIsTaken(logCap, gw1, inbox[1..], k - 1, budget - 1);
    }
  }

  /** Slots are told apart by the low bits of the id: an order that is sent can be
      matched, and what could be matched before still can, unless another order
      with the same low bits has just taken the slot. */
  lemma SlotsStandApart(l: Risk.Limits, logCap: nat, gw: Gateway, o: OrderRequest, kill: bool, now: nat, r: ExecReport)
    requires |gw.inflight| == Pow2(logCap) && Admits(l, gw, o, kill, now)
    ensures var t := Dispatch(l, logCap, gw, o, kill, now);
            Matches(logCap, t, r) <==>
            r.orderId == o.orderId
            || (Matches(logCap, gw, r) && r.orderId % Pow2(logCap) != o.orderId % Pow2(logCap))
  {
  }

  predicate AllMatch(logCap: nat, gw: Gateway, f: seq<ExecReport>)
    requires |gw.inflight| == Pow2(logCap)
  {
    forall k :: 0 <= k < |f| ==> Matches(logCap, gw, f[k])
  }

  predicate DistinctIds(f: seq<ExecReport>) {
    forall j, k :: 0 <= j < k < |f| ==> f[j].orderId != f[k].orderId
  }
}

module OrderGateway {
  import opened Bits
  import opened Messages
  import opened GatewaySpec
  import Risk = RiskSpec
  import RiskGate

  class OrderGateway {
    const logCap: nat
    const risk: RiskGate.RiskGate
    const inflight: array<InFlight>
    var orders: seq<OrderRequest>      // queue from the strategy
    var fillsOut: seq<ExecReport>      // queue to the strategy
    var sent: nat
    var riskRejected: nat
    var fillsMatched: nat
    var fillsUnmatched: nat

    ghost predicate Valid()
      reads this
    {
      inflight.Length == Pow2(logCap)
    }

    ghost function View(): Gateway
      reads this, risk, inflight
    {
      Gateway(risk.View(), inflight[..], sent, riskRejected, fillsMatched, fillsUnmatched)
    }

    constructor (l: Risk.Limits, logCap: nat)
      ensures Valid() && this.logCap == logCap && risk.l == l && fresh(risk) && fresh(inflight)
      ensures View() == Gateway(Risk.START, seq(Pow2(logCap), _ => FREE), 0, 0, 0, 0)
      ensures orders == [] && fillsOut == []
    {
      this.logCap := logCap;
      risk := new RiskGate.RiskGate(l);
      inflight := new InFlight[Pow2(logCap)](_ => FREE);
      orders, fillsOut, sent, riskRejected, fillsMatched, fillsUnmatched := [], [], 0, 0, 0, 0;
    }

    method HandleFill(rep: ExecReport)
      requires Valid()
      modifies this`fillsOut, this`fillsMatched, this`fillsUnmatched, risk, inflight
      ensures View() == TakeReport(logCap, old(View()), rep)
      ensures fillsOut == old(fillsOut) + if Matches(logCap, old(View()), rep) then [rep] else []
    {
      MaskIsMod(rep.orderId, logCap);
      var idx := BitAnd(rep.orderId, inflight.Length - 1);
      var slot := inflight[idx];
      if slot.active && slot.orderId == rep.orderId {
        inflight[idx] := slot.(active := false);
        fillsMatched := fillsMatched + 1;
        risk.OnFill(rep);
        fillsOut := fillsOut + [rep];
      } else {
        fillsUnmatched := fillsUnmatched + 1;
      }
    }

    /** Reads datagrams until none is left, one has the wrong size, or `limit` were taken. */
    method DrainFills(inbox: seq<Datagram>, limit: nat) returns (rest: seq<Datagram>)
      requires Valid()
      modifies this`fillsOut, this`fillsMatched, this`fillsUnmatched, risk, inflight
      ensures var t := Receive(logCap, old(View()), inbox, limit);
              View() == t.gw && fillsOut == old(fillsOut) + t.forwarded && rest == t.rest
    {
      ghost var gw := View();
      ghost var whole := Drained(logCap, gw, inbox, limit, fillsOut);
      rest := inbox;
      var d := 0;
      while d < limit && rest != [] && rest[0].Report?
        invariant 0 <= d <= limit
        invariant View() == gw && whole == Drained(logCap, gw, rest, limit - d, fillsOut)
        decreases limit - d
      {
        var r := rest[0].r;
        DrainedStep(logCap, gw, rest, limit - d, fillsOut);
        gw := TakeReport(logCap, gw, r);
        HandleFill(r);
        rest := rest[1..];
        d := d + 1;
      }
      DrainedEnd(logCap, gw, rest, limit - d, fillsOut);
      if d < limit && rest != [] { rest := rest[1..]; }
    }

    /** Drain the inbound reports, then dispatch at most one order, if the pop's load
        shows one; `wire` is what is sent. */
    method PollOnce(inbox: seq<Datagram>, seesOrder: bool, kill: bool, now: nat)
      returns (busy: bool, wire: seq<OrderRequest>, rest: seq<Datagram>)
      requires Valid()
      modifies this, risk, inflight
      ensures var t := Receive(logCap, old(View()), inbox, 32);
              && rest == t.rest && fillsOut == old(fillsOut) + t.forwarded
              && busy == (old(orders) != [] && seesOrder)
              && (if busy then
                    var o := old(orders)[0];
                    && orders == old(orders)[1..]
                    && View() == Dispatch(risk.l, logCap, t.gw, o, kill, now)
                    && wire == (if Admits(risk.l, t.gw, o, kill, now) then [o] else [])
                  else orders == old(orders) && View() == t.gw && wire == [])
      ensures kill ==> wire == [] && sent == old(sent)
    {
      rest := DrainFills(inbox, DRAIN_LIMIT);
      busy, wire := SendOne(seesOrder, kill, now);
    }

    /** The half of a poll that pops, checks and sends. */
    method SendOne(seesOrder: bool, kill: bool, now: nat) returns (busy: bool, wire: seq<OrderRequest>)
      requires Valid()
      modifies this`orders, this`sent, this`riskRejected, risk, inflight
      ensures busy == (old(orders) != [] && seesOrder)
      ensures if busy then
                var o := old(orders)[0];
                && orders == old(orders)[1..]
                && View() == Dispatch(risk.l, logCap, old(View()), o, kill, now)
                && wire == (if Admits(risk.l, old(View()), o, kill, now) then [o] else [])
              else orders == old(orders) && View() == old(View()) && wire == []
      ensures kill ==> wire == [] && sent == old(sent)
    {
      wire := [];
      if |orders| == 0 || !seesOrder { return false, wire; }
      var o := orders[0];
      orders := orders[1..];
      var v := risk.Check(o, kill, now);
      if v != Risk.Accept {
        riskRejected := riskRejected + 1;
        return true, wire;
      }
      MaskIsMod(o.orderId, logCap);
      var idx := BitAnd(o.orderId, inflight.Length - 1);
      inflight[idx] := InFlight(o.orderId, o.mdTimestamp, true);
      wire := [o];
      sent := sent + 1;
      return true, wire;
    }
  }
}
