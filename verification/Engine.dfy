/** The strategy runner and the gateway as objects in the closed loop: a poll of
    either is a run of ClosedLoop's steps, so what is proved of every run holds of
    the objects. */
module Engine {
  import opened Bits
  import opened Messages
  import opened GatewaySpec
  import opened ClosedLoop
  import opened ExchangeSpec
  import Risk = RiskSpec
  import Strat = StrategySpec
  import Runner = ImbalanceStrategy
  import OrderGateway

  /** Some run of the closed loop leads from s to t. */
  ghost predicate Leads(c: ClosedLoop.Config, s: System, t: System) {
    exists steps :: Runs(c, s, steps) && Exec(c, s, steps) == t
  }

  lemma LeadsNowhere(c: ClosedLoop.Config, s: System)
    ensures Leads(c, s, s)
  {
    assert Runs(c, s, []) && Exec(c, s, []) == s;
  }

  lemma LeadsOn(c: ClosedLoop.Config, s: System, t: System, u: System)
    requires Leads(c, s, t) && Leads(c, t, u)
    ensures Leads(c, s, u)
  {
    var xs :| Runs(c, s, xs) && Exec(c, s, xs) == t;
    var ys :| Runs(c, t, ys) && Exec(c, t, ys) == u;
    RunsAppend(c, s, xs, ys);
  }

  lemma Take(c: ClosedLoop.Config, s: System, t: System, a: Step)
    requires Leads(c, s, t) && Enabled(c, t, a)
    ensures Leads(c, s, Apply(c, t, a))
  {
    var xs :| Runs(c, s, xs) && Exec(c, s, xs) == t;
    OneMore(c, s, xs, a);
  }

  lemma LeadsKeepsInv(c: ClosedLoop.Config, s: System, t: System)
    requires Inv(c, s) && Leads(c, s, t)
    ensures Inv(c, t)
  {
    var xs :| Runs(c, s, xs) && Exec(c, s, xs) == t;
    RunKeepsInv(c, s, xs);
  }

  // ---- a gateway poll ----------------------------------------------------------------

  function IdsOf(rs: seq<ExecReport>): seq<nat> {
    if rs == [] then [] else [rs[0].orderId] + IdsOf(rs[1..])
  }

  /** The system after a drain of the inbox. */
  function AfterReceive(logCap: nat, s: System, inbox: seq<Datagram>, budget: nat): System
    requires |s.gw.inflight| == Pow2(logCap)
  {
    var t := Receive(logCap, s.gw, inbox, budget);
    s.(gw := t.gw, fillQ := s.fillQ + t.forwarded, matched := s.matched + IdsOf(t.forwarded))
  }

  /** With an honest exchange only its reports arrive. */
  predicate Deliverable(c: ClosedLoop.Config, s: System, inbox: seq<Datagram>) {
    c.honest ==> forall d :: d in inbox && d.Report? ==> d.r in s.reports
  }

  /** The system after one report, forwarded if it matched. */
  function AfterReport(logCap: nat, s: System, r: ExecReport): System
    requires |s.gw.inflight| == Pow2(logCap)
  {
    var f := if Matches(logCap, s.gw, r) then [r] else [];
    s.(gw := TakeReport(logCap, s.gw, r), fillQ := s.fillQ + f, matched := s.matched + IdsOf(f))
  }

  lemma ReportRuns(c: ClosedLoop.Config, s: System, r: ExecReport)
    requires Inv(c, s) && s.gpc.GIdle? && (c.honest ==> r in s.reports)
    ensures Leads(c, s, AfterReport(c.logCap, s, r)) && Inv(c, AfterReport(c.logCap, s, r))
  {
    var s1 := Apply(c, s, GReceive(r));
    LeadsNowhere(c, s);
    Take(c, s, s, GReceive(r));
    StepKeepsInv(c, s, GReceive(r));
    if Matches(c.logCap, s.gw, r) {
      InFlightOnlyOne(c, s1);
      Take(c, s, s1, GForward);
      StepKeepsInv(c, s1, GForward);
      assert IdsOf([r]) == [r.orderId];
    } else {
      assert s.fillQ + [] == s.fillQ && s.matched + IdsOf([]) == s.matched;
    }
  }

  lemma {:induction false} ReceiveRuns(c: ClosedLoop.Config, s: System, inbox: seq<Datagram>, budget: nat)
    requires Inv(c, s) && s.gpc.GIdle? && Deliverable(c, s, inbox)
    ensures Leads(c, s, AfterReceive(c.logCap, s, inbox, budget))
    decreases |inbox|
  {
    if budget == 0 || inbox == [] || inbox[0].WrongSize? {
      assert s.fillQ + [] == s.fillQ && s.matched + IdsOf([]) == s.matched;
      LeadsNowhere(c, s);
    } else {
      assert inbox[0] in inbox;
      var s1 := AfterReport(c.logCap, s, inbox[0].r);
      ReportRuns(c, s, inbox[0].r);
      ReceiveRuns(c, s1, inbox[1..], budget - 1);
      Joined(c.logCap, s, inbox, budget);
      LeadsOn(c, s, s1, AfterReceive(c.logCap, s, inbox, budget));
    }
  }

  lemma Joined(logCap: nat, s: System, inbox: seq<Datagram>, budget: nat)
    requires |s.gw.inflight| == Pow2(logCap) && budget > 0 && inbox != [] && inbox[0].Report?
    ensures AfterReceive(logCap, AfterReport(logCap, s, inbox[0].r), inbox[1..], budget - 1)
            == AfterReceive(logCap, s, inbox, budget)
  {
    var r := inbox[0].r;
    var s1 := AfterReport(logCap, s, r);
    var f := if Matches(logCap, s.gw, r) then [r] else [];
    var g := Receive(logCap, s1.gw, inbox[1..], budget - 1).forwarded;
    IdsAppend(f, g);
    Regroup(s.fillQ, f, g);
    Regroup(s.matched, IdsOf(f), IdsOf(g));
  }

  lemma Regroup<T>(a: seq<T>, b: seq<T>, c: seq<T>)
    ensures (a + b) + c == a + (b + c)
  {
  }

  lemma IdsAppend(f: seq<ExecReport>, g: seq<ExecReport>)
    requires |f| <= 1
    ensures IdsOf(f + g) == IdsOf(f) + IdsOf(g)
  {
    if f == [] { assert f + g == g; } else { assert (f + g)[1..] == g && f[1..] == []; }
  }

  /** The system after a gateway poll: the drain, then the head order if there is one. */
  function AfterGatewayPoll(c: ClosedLoop.Config, s: System, inbox: seq<Datagram>, budget: nat, sees: bool,
                            kill: bool, now: nat): System
    requires |s.gw.inflight| == Pow2(c.logCap)
  {
    var s1 := AfterReceive(c.logCap, s, inbox, budget);
    if s.orderQ == [] || !sees then s1
    else
      var o := s.orderQ[0];
      s1.(gw := Dispatch(c.l, c.logCap, s1.gw, o, kill, now), orderQ := s.orderQ[1..],
          wire := if Admits(c.l, s1.gw, o, kill, now) then s.wire + [o] else s.wire)
  }

  lemma GatewayPollRuns(c: ClosedLoop.Config, s: System, inbox: seq<Datagram>, budget: nat, sees: bool,
                        kill: bool, now: nat)
    requires Inv(c, s) && s.gpc.GIdle? && Deliverable(c, s, inbox)
    ensures Leads(c, s, AfterGatewayPoll(c, s, inbox, budget, sees, kill, now))
  {
    var s1 := AfterReceive(c.logCap, s, inbox, budget);
    ReceiveRuns(c, s, inbox, budget);
    if s.orderQ != [] && sees {
      Take(c, s, s1, GTake);
      Take(c, s, Apply(c, s1, GTake), GDispatch(kill, now));
    }
  }

  // ---- a runner poll -----------------------------------------------------------------

  /** The system after the first n queued fills. */
  ghost function AfterFills(c: ClosedLoop.Config, s: System, n: nat): System
    requires c.Valid() && n <= |s.fillQ|
  {
    s.(strat := Strat.Run(c.p, s.strat, Runner.FillInputs(s.fillQ[..n])).st, fillQ := s.fillQ[n..])
  }

  lemma {:induction false} FillsRun(c: ClosedLoop.Config, s: System, n: nat)
    requires c.Valid() && s.spc.SIdle? && n <= |s.fillQ|
    ensures Strat.Run(c.p, s.strat, Runner.FillInputs(s.fillQ[..n])).orders == []
    ensures Leads(c, s, AfterFills(c, s, n))
  {
    if n == 0 {
      assert s.fillQ[0..] == s.fillQ;
      LeadsNowhere(c, s);
    } else {
      var t := AfterFills(c, s, n - 1);
      FillsRun(c, s, n - 1);
      Take(c, s, t, STakeFill);
      Runner.OneMoreFill(c.p, s.strat, s.fillQ, n - 1, t.strat);
    }
  }

  function EventInputs(ev: Option<MdEvent>): seq<Strat.Input> {
    if ev.Some? then [Strat.Md(ev.value)] else []
  }

  /** The system after a runner poll: the queued fills, then an event if there is one. */
  ghost function AfterRunnerPoll(c: ClosedLoop.Config, s: System, seen: nat, ev: Option<MdEvent>): System
    requires c.Valid()
  {
    var fills := Runner.Drained(s.fillQ, seen);
    var out := Strat.Run(c.p, s.strat, Runner.FillInputs(fills) + EventInputs(ev));
    s.(strat := out.st, fillQ := s.fillQ[|fills|..], orderQ := s.orderQ + out.orders)
  }

  lemma RunnerPollRuns(c: ClosedLoop.Config, s: System, seen: nat, ev: Option<MdEvent>)
    requires Inv(c, s) && s.spc.SIdle?
    ensures Leads(c, s, AfterRunnerPoll(c, s, seen, ev))
  {
    var n := |Runner.Drained(s.fillQ, seen)|;
    FillsRun(c, s, n);
    PollIsFillsThenEvent(c, s, seen, ev);
    if ev.Some? {
      var t := AfterFills(c, s, n);
      LeadsKeepsInv(c, s, t);
      EventRuns(c, t, ev.value);
      LeadsOn(c, s, t, AfterEvent(c, t, ev.value));
    }
  }

  lemma PollIsFillsThenEvent(c: ClosedLoop.Config, s: System, seen: nat, ev: Option<MdEvent>)
    requires c.Valid()
    requires var n := |Runner.Drained(s.fillQ, seen)|;
             Strat.Run(c.p, s.strat, Runner.FillInputs(s.fillQ[..n])).orders == []
    ensures var t := AfterFills(c, s, |Runner.Drained(s.fillQ, seen)|);
            AfterRunnerPoll(c, s, seen, ev) == if ev.Some? then AfterEvent(c, t, ev.value) else t
  {
    var fills := Runner.Drained(s.fillQ, seen);
    assert s.fillQ[..|fills|] == fills;
    if ev.None? {
      assert Runner.FillInputs(fills) + EventInputs(ev) == Runner.FillInputs(fills);
      assert s.orderQ + [] == s.orderQ;
    } else {
      var out := Strat.React(c.p, AfterFills(c, s, |fills|).strat, Strat.Md(ev.value));
      Strat.RunStep(c.p, s.strat, Runner.FillInputs(fills), Strat.Md(ev.value));
      assert [] + out.orders == out.orders;
    }
  }

  /** The system after an event and the push of its order. */
  ghost function AfterEvent(c: ClosedLoop.Config, s: System, ev: MdEvent): System
    requires c.Valid()
  {
    var out := Strat.React(c.p, s.strat, Strat.Md(ev));
    s.(strat := out.st, orderQ := s.orderQ + out.orders)
  }

  /** The queue has room for the order. */
  lemma EventRuns(c: ClosedLoop.Config, s: System, ev: MdEvent)
    requires Inv(c, s) && s.spc.SIdle?
    ensures Leads(c, s, AfterEvent(c, s, ev))
  {
    LeadsNowhere(c, s);
    Take(c, s, s, SEvent(ev));
    if Strat.OnMd(c.p, s.strat, ev).order.Some? {
      StepKeepsInv(c, s, SEvent(ev));
      Take(c, s, Apply(c, s, SEvent(ev)), SPush);
    } else {
      assert s.orderQ + [] == s.orderQ;
    }
  }

  /** What a runner poll makes of a single queued fill. */
  lemma OneFillThenEvent(c: ClosedLoop.Config, s: System, r: ExecReport, seen: nat, ev: Option<MdEvent>)
    requires c.Valid() && s.fillQ == [r] && seen > 0
    ensures var t := AfterRunnerPoll(c, s, seen, ev);
            && t.fillQ == [] && t.gw == s.gw
            && t.strat.position == s.strat.position + (if r.side == 66 then r.fillSize as int else -(r.fillSize as int))
            && t.strat.fillsSeen == s.strat.fillsSeen + 1
            && (t.strat.inFlight ==> t.strat.ordersSent > s.strat.ordersSent)
  {
    var fills := Runner.Drained(s.fillQ, seen);
    assert fills == [r];
    var st1 := Strat.OnFill(s.strat, r);
    assert Runner.FillInputs([]) == [] && s.fillQ[..0] == [];
    Runner.OneMoreFill(c.p, s.strat, s.fillQ, 0, s.strat);
    assert s.fillQ[..1] == fills;
    if ev.None? {
      assert Runner.FillInputs(fills) + EventInputs(ev) == Runner.FillInputs(fills);
    } else {
      Strat.RunStep(c.p, s.strat, Runner.FillInputs(fills), Strat.Md(ev.value));
      EventShape(c.p, st1, ev.value);
    }
  }

  // ---- the objects ----------------------------------------------------------------------

  ghost predicate Reached(c: ClosedLoop.Config, s: System) { c.Valid() && Leads(c, Start(c), s) }

  lemma ReachedInv(c: ClosedLoop.Config, s: System)
    requires Reached(c, s)
    ensures Inv(c, s)
  {
    StartHasNoToken(c);
    assert Inv(c, Start(c));
    LeadsKeepsInv(c, Start(c), s);
  }

  lemma RunnerPollReaches(c: ClosedLoop.Config, s: System, seen: nat, ev: Option<MdEvent>)
    requires Reached(c, s) && s.spc.SIdle?
    ensures Reached(c, AfterRunnerPoll(c, s, seen, ev))
  {
    ReachedInv(c, s);
    RunnerPollRuns(c, s, seen, ev);
    LeadsOn(c, Start(c), s, AfterRunnerPoll(c, s, seen, ev));
  }

  lemma GatewayPollReaches(c: ClosedLoop.Config, s: System, inbox: seq<Datagram>, budget: nat, sees: bool,
                           kill: bool, now: nat)
    requires Reached(c, s) && s.gpc.GIdle? && Deliverable(c, s, inbox)
    ensures |s.gw.inflight| == Pow2(c.logCap)
    ensures Reached(c, AfterGatewayPoll(c, s, inbox, budget, sees, kill, now))
  {
    ReachedInv(c, s);
    GatewayPollRuns(c, s, inbox, budget, sees, kill, now);
    LeadsOn(c, Start(c), s, AfterGatewayPoll(c, s, inbox, budget, sees, kill, now));
  }

  /** Runner and gateway, taking turns in any order.  Each holds its end of the two
      rings between them; `sys` is the state of the closed loop they are in. */
  class Engine {
    const c: ClosedLoop.Config
    const runner: Runner.StrategyRunner
    const gateway: OrderGateway.OrderGateway
    ghost var sys: System

    ghost predicate Valid()
      reads this, runner, runner.strat, runner.strat.book, runner.strat.book.bid, runner.strat.book.ask
      reads gateway, gateway.risk, gateway.inflight
    {
      && Reached(c, sys) && sys.spc.SIdle? && sys.gpc.GIdle?
      && runner.strat.Valid() && runner.strat.p == c.p && runner.strat.View() == sys.strat
      && gateway.Valid() && gateway.logCap == c.logCap && gateway.risk.l == c.l && gateway.View() == sys.gw
      && runner.orders == gateway.orders == sys.orderQ && runner.fills == gateway.fillsOut == sys.fillQ
    }

    constructor (c: ClosedLoop.Config)
      requires c.Valid()
      ensures Valid() && sys == Start(c) && this.c == c
    {
      this.c := c;
      runner := new Runner.StrategyRunner(c.p);
      gateway := new OrderGateway.OrderGateway(c.l, c.logCap);
      sys := Start(c);
      LeadsNowhere(c, Start(c));
    }

    /** A poll of the runner: the queued fills, an event, an order. */
    method RunnerTurn(seenFills: nat, seesEvent: bool) returns (busy: bool)
      requires Valid()
      modifies this`sys, runner, runner.strat, runner.strat.book, runner.strat.book.bid, runner.strat.book.ask, gateway
      ensures Valid()
      ensures busy == (|old(runner.feed)| > 0 && seesEvent)
      ensures sys == AfterRunnerPoll(c, old(sys), seenFills, if busy then Some(old(runner.feed[0])) else None)
    {
      ghost var s, ev := sys, if |runner.feed| > 0 && seesEvent then Some(runner.feed[0]) else None;
      RunnerPollReaches(c, s, seenFills, ev);
      busy := runner.PollOnce(seenFills, seesEvent);
      gateway.orders, gateway.fillsOut := runner.orders, runner.fills;
      sys := AfterRunnerPoll(c, s, seenFills, ev);
    }

    /** A poll of the gateway: the inbound reports, then an order. */
    method GatewayTurn(inbox: seq<Datagram>, seesOrder: bool, kill: bool, now: nat)
      returns (busy: bool, wire: seq<OrderRequest>, rest: seq<Datagram>)
      requires Valid() && Deliverable(c, sys, inbox)
      modifies this`sys, gateway, gateway.risk, gateway.inflight, runner
      ensures Valid()
      ensures sys == AfterGatewayPoll(c, old(sys), inbox, 32, seesOrder, kill, now)
      ensures sys.wire == old(sys).wire + wire
    {
      ghost var s := sys;
      GatewayPollReaches(c, s, inbox, 32, seesOrder, kill, now);
      busy, wire, rest := gateway.PollOnce(inbox, seesOrder, kill, now);
      runner.orders, runner.fills := gateway.orders, gateway.fillsOut;
      sys := AfterGatewayPoll(c, s, inbox, 32, seesOrder, kill, now);
    }

    /** A gateway turn that comes to the report of the live order, then a runner turn
        that sees the fill: the latch is clear again, unless the runner's event has
        already sent the next order; and both positions have moved by the report. */
    method FillTurns(inbox: seq<Datagram>, k: nat, seesOrder: bool, kill: bool, now: nat,
                     seenFills: nat, seesEvent: bool)
      requires Valid() && Deliverable(c, sys, inbox)
      requires k < 32 && k < Leading(inbox) && seenFills > 0
      requires LoneMatch(c.logCap, gateway.View(), inbox[k].r)
      requires forall j :: 0 <= j < k ==> inbox[j].r.orderId != inbox[k].r.orderId
      modifies this`sys, runner, runner.strat, runner.strat.book, runner.strat.book.bid, runner.strat.book.ask
      modifies gateway, gateway.risk, gateway.inflight
      ensures Valid() && runner.fills == []
      ensures runner.strat.inFlight ==> runner.strat.ordersSent > old(runner.strat.ordersSent)
      ensures var r := inbox[k].r;
              var qty := if r.side == 66 then r.fillSize as int else -(r.fillSize as int);
              && gateway.risk.position == old(gateway.risk.position) + qty
              && runner.strat.position == old(runner.strat.position) + qty
              && gateway.fillsMatched == old(gateway.fillsMatched) + 1
              && runner.strat.fillsSeen == old(runner.strat.fillsSeen) + 1
    {
      ghost var s, r := sys, inbox[k].r;
      OneInPlay();
      NoActiveSlot(s.gw.inflight, SlotOf(c.logCap, r.orderId));
      LoneReportIsTaken(c.logCap, s.gw, inbox, k, 32);
      var gwBusy, wire, rest := GatewayTurn(inbox, seesOrder, kill, now);
      ghost var s1 := sys;
      assert s1.fillQ == [r] && s1.strat == s.strat;
      OneFillThenEvent(c, s1, r, seenFills, if |runner.feed| > 0 && seesEvent then Some(runner.feed[0]) else None);
      var busy := RunnerTurn(seenFills, seesEvent);
    }

    /** The exchange answers an order it was sent. */
    ghost method ExchangeTurn(k: nat)
      requires Valid() && k < |sys.wire|
      modifies this`sys
      ensures Valid() && sys == old(sys).(reports := old(sys).reports + {Echo(old(sys).wire[k])})
    {
      Take(c, Start(c), sys, XEcho(k));
      sys := Apply(c, sys, XEcho(k));
    }

    /** Whatever turns the two take: one order or fill is in play at most, so the
        rings they push to are never full, and the two positions agree. */
    lemma OneInPlay()
      requires Valid()
      ensures |runner.orders| + ActiveSlots(gateway.inflight[..]) + |runner.fills|
              <= if runner.strat.inFlight then 1 else 0
      ensures gateway.risk.position == runner.strat.position + Filled(runner.fills)
    {
      var steps :| Runs(c, Start(c), steps) && Exec(c, Start(c), steps) == sys;
      OneOrderInPlay(c, steps);
      GateAndStrategyAgree(c, steps);
    }

    /** With an honest exchange and a size inside the limits. */
    lemma PositionsBounded()
      requires Valid() && c.honest && c.Fits()
      ensures runner.strat.position in {0, c.p.orderSize as int, -(c.p.orderSize as int)}
      ensures Risk.WithinPosition(c.l, gateway.risk.position)
      ensures gateway.risk.rejSize == gateway.risk.rejPos == 0
    {
      var steps :| Runs(c, Start(c), steps) && Exec(c, Start(c), steps) == sys;
      PositionsAgree(c, steps);
    }
  }
}
