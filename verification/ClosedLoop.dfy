/** The order/fill loop: strategy thread, order queue, gateway thread with its
    in-flight table, the exchange behind an unreliable network, fill queue, and
    back to the strategy.

    Each thread's pop, decision and push is a separate step and the steps
    interleave in any order.  The network may lose, repeat and reorder: anything
    ever sent may arrive any number of times, at any later time, or never.  With
    `honest` the exchange only answers orders it received, echoing id, side and
    size; without it any report at all may arrive. */
module ClosedLoop {
  import opened Bits
  import opened Messages
  import opened GatewaySpec
  import opened ExchangeSpec
  import Risk = RiskSpec
  import Strat = StrategySpec

  datatype Config = Config(
    p: Strat.Params, l: Risk.Limits, logCap: nat, orderCap: nat, fillCap: nat, honest: bool)
  {
    predicate Valid() { p.Valid() && orderCap >= 2 && fillCap >= 2 }

    /** The configured order passes the size and position checks from a flat position. */
    predicate Fits() { 0 < p.orderSize <= l.maxOrderSize && p.orderSize <= l.maxPosition }
  }

  datatype StrategyPc = SIdle | SPushing(o: OrderRequest)

  datatype GatewayPc = GIdle | GHolding(o: OrderRequest) | GForwarding(r: ExecReport)

  datatype System = System(
    strat: Strat.Strategy, spc: StrategyPc, orderQ: seq<OrderRequest>,
    gw: Gateway, gpc: GatewayPc, fillQ: seq<ExecReport>,
    wire: seq<OrderRequest>,        // every order sent, in order
    reports: set<ExecReport>,       // every report the exchange has sent
    matched: seq<nat>)              // ids of the matched fills, in order

  datatype Step =
    | SEvent(ev: MdEvent)
    | SPush
    | STakeFill
    | GTake
    | GDispatch(kill: bool, now: nat)
    | GReceive(r: ExecReport)
    | GForward
    | XEcho(k: nat)

  function Start(c: Config): System {
    System(Strat.START, SIdle, [], Gateway(Risk.START, seq(Pow2(c.logCap), _ => FREE), 0, 0, 0, 0),
           GIdle, [], [], {}, [])
  }

  ghost predicate Enabled(c: Config, s: System, a: Step) {
    match a
    case SEvent(_) => c.Valid() && s.spc.SIdle?
    case SPush => s.spc.SPushing? && |s.orderQ| < c.orderCap
    case STakeFill => s.spc.SIdle? && s.fillQ != []
    case GTake => s.gpc.GIdle? && s.orderQ != []
    case GDispatch(_, _) => s.gpc.GHolding? && |s.gw.inflight| == Pow2(c.logCap)
    case GReceive(r) => s.gpc.GIdle? && |s.gw.inflight| == Pow2(c.logCap) && (c.honest ==> r in s.reports)
    case GForward => s.gpc.GForwarding? && |s.fillQ| < c.fillCap
    case XEcho(k) => k < |s.wire|
  }

  ghost function Apply(c: Config, s: System, a: Step): System
    requires Enabled(c, s, a)
  {
    match a
    case SEvent(ev) =>
      var d := Strat.OnMd(c.p, s.strat, ev);
      s.(strat := d.st, spc := if d.order.Some? then SPushing(d.order.value) else SIdle)
    case SPush => s.(orderQ := s.orderQ + [s.spc.o], spc := SIdle)
    case STakeFill => s.(strat := Strat.OnFill(s.strat, s.fillQ[0]), fillQ := s.fillQ[1..])
    case GTake => s.(gpc := GHolding(s.orderQ[0]), orderQ := s.orderQ[1..])
    case GDispatch(kill, now) =>
      var o := s.gpc.o;
      s.(gw := Dispatch(c.l, c.logCap, s.gw, o, kill, now), gpc := GIdle,
         wire := if Admits(c.l, s.gw, o, kill, now) then s.wire + [o] else s.wire)
    case GReceive(r) =>
      if Matches(c.logCap, s.gw, r) then
        s.(gw := TakeReport(c.logCap, s.gw, r), gpc := GForwarding(r), matched := s.matched + [r.orderId])
      else s.(gw := TakeReport(c.logCap, s.gw, r))
    case GForward => s.(fillQ := s.fillQ + [s.gpc.r], gpc := GIdle)
    case XEcho(k) => s.(reports := s.reports + {Echo(s.wire[k])})
  }

  // ---- the single token ----------------------------------------------------------

  function ActiveSlots(t: seq<InFlight>): nat {
    if t == [] then 0 else (if t[0].active then 1 else 0) + ActiveSlots(t[1..])
  }

  /** Orders and fills anywhere between the strategy's decision and its taking the fill. */
  function Tokens(s: System): nat {
    (if s.spc.SPushing? then 1 else 0) + |s.orderQ| + (if s.gpc.GIdle? then 0 else 1)
    + ActiveSlots(s.gw.inflight) + |s.fillQ|
  }

  ghost predicate OneToken(c: Config, s: System) {
    && c.Valid() && |s.gw.inflight| == Pow2(c.logCap)
    && Tokens(s) <= if s.strat.inFlight then 1 else 0
  }

  lemma {:induction false} SlotUpdate(t: seq<InFlight>, i: nat, x: InFlight)
    requires i < |t|
    ensures ActiveSlots(t[i := x]) + (if t[i].active then 1 else 0)
            == ActiveSlots(t) + (if x.active then 1 else 0)
  {
    if i == 0 {
      assert t[0 := x][1..] == t[1..];
    } else {
      assert t[i := x][1..] == t[1..][i - 1 := x];
      SlotUpdate(t[1..], i - 1, x);
    }
  }

  lemma {:induction false} NoActiveSlot(t: seq<InFlight>, i: nat)
    requires i < |t| && t[i].active
    ensures ActiveSlots(t) > 0
  {
    if i > 0 { NoActiveSlot(t[1..], i - 1); }
  }

  lemma {:induction false} AllFree(t: seq<InFlight>)
    requires forall i :: 0 <= i < |t| ==> !t[i].active
    ensures ActiveSlots(t) == 0
  {
    if t != [] { AllFree(t[1..]); }
  }

  /** What a market-data event can do to the strategy, signals aside. */
  lemma EventShape(p: Strat.Params, st: Strat.Strategy, ev: MdEvent)
    requires p.Valid()
    ensures var d := Strat.OnMd(p, st, ev);
            && d.st.position == st.position && d.st.fillsSeen == st.fillsSeen
            && (d.order.None? ==> d.st.inFlight == st.inFlight && d.st.lastOrderId == st.lastOrderId
                                  && d.st.ordersSent == st.ordersSent)
            && (d.order.Some? ==>
                  var o := d.order.value;
                  && !st.inFlight && d.st.inFlight
                  && o.orderId == d.st.lastOrderId == st.lastOrderId + 1
                  && Flattens(o, p.orderSize, st.position))
  {
  }

  /** An order the strategy may emit at this position: it reduces the position
      or opens one from flat. */
  predicate Flattens(o: OrderRequest, size: U32, position: int) {
    && o.size == size && (o.side == BUY || o.side == SELL)
    && (o.side == BUY ==> position <= 0) && (o.side == SELL ==> position >= 0)
  }

  lemma StartHasNoToken(c: Config)
    requires c.Valid()
    ensures OneToken(c, Start(c)) && Tokens(Start(c)) == 0
  {
    AllFree(Start(c).gw.inflight);
  }

  /** Every step keeps at most one token, and none while the latch is clear. */
  lemma StepKeepsToken(c: Config, s: System, a: Step)
    requires OneToken(c, s) && Enabled(c, s, a)
    ensures OneToken(c, Apply(c, s, a))
  {
    match a {
      case SEvent(ev) => EventShape(c.p, s.strat, ev);
      case GDispatch(kill, now) =>
        var o := s.gpc.o;
        SlotUpdate(s.gw.inflight, SlotOf(c.logCap, o.orderId), InFlight(o.orderId, o.mdTimestamp, true));
      case GReceive(r) =>
        var i := SlotOf(c.logCap, r.orderId);
        SlotUpdate(s.gw.inflight, i, s.gw.inflight[i].(active := false));
      case _ =>
    }
  }

  // ---- identities ------------------------------------------------------------------

  predicate Increasing(ids: seq<nat>, top: int) {
    && (forall j, k :: 0 <= j < k < |ids| ==> ids[j] < ids[k])
    && forall k :: 0 <= k < |ids| ==> ids[k] <= top
  }

  function WireIds(s: System): seq<nat> { seq(|s.wire|, k requires 0 <= k < |s.wire| => s.wire[k].orderId) }

  /** Everything in play carries the strategy's newest id. */
  predicate NewestId(s: System) {
    var id := s.strat.lastOrderId;
    && (s.spc.SPushing? ==> s.spc.o.orderId == id)
    && (forall o :: o in s.orderQ ==> o.orderId == id)
    && (s.gpc.GHolding? ==> s.gpc.o.orderId == id)
    && (forall i :: 0 <= i < |s.gw.inflight| && s.gw.inflight[i].active ==> s.gw.inflight[i].orderId == id)
    && (s.gpc.GForwarding? ==> s.gpc.r.orderId == id)
    && (forall r :: r in s.fillQ ==> r.orderId == id)
  }

  predicate AwaitsWire(s: System) { s.spc.SPushing? || s.orderQ != [] || s.gpc.GHolding? }

  predicate Ids(s: System) {
    var id := s.strat.lastOrderId;
    && NewestId(s)
    && Increasing(WireIds(s), if AwaitsWire(s) then id - 1 else id)
    && Increasing(s.matched, if AwaitsWire(s) || ActiveSlots(s.gw.inflight) > 0 then id - 1 else id)
    && (ActiveSlots(s.gw.inflight) > 0 ==> id in WireIds(s))
    && forall m :: m in s.matched ==> m in WireIds(s)
  }

  ghost predicate Inv(c: Config, s: System) { OneToken(c, s) && Ids(s) }

  lemma InFlightOnlyOne(c: Config, s: System)
    requires OneToken(c, s)
    ensures AwaitsWire(s) ==> ActiveSlots(s.gw.inflight) == 0 && !s.gpc.GForwarding? && s.fillQ == []
    ensures forall i :: 0 <= i < |s.gw.inflight| && s.gw.inflight[i].active ==> ActiveSlots(s.gw.inflight) == 1
  {
    forall i | 0 <= i < |s.gw.inflight| && s.gw.inflight[i].active ensures ActiveSlots(s.gw.inflight) == 1 {
      NoActiveSlot(s.gw.inflight, i);
    }
  }

  lemma DispatchKeepsIds(c: Config, s: System, kill: bool, now: nat)
    requires Inv(c, s) && Enabled(c, s, GDispatch(kill, now))
    ensures Ids(Apply(c, s, GDispatch(kill, now)))
  {
    var s' := Apply(c, s, GDispatch(kill, now));
    var o := s.gpc.o;
    InFlightOnlyOne(c, s);
    SlotUpdate(s.gw.inflight, SlotOf(c.logCap, o.orderId), InFlight(o.orderId, o.mdTimestamp, true));
    if Admits(c.l, s.gw, o, kill, now) {
      assert WireIds(s') == WireIds(s) + [o.orderId];
      assert WireIds(s')[|s.wire|] == o.orderId;
      forall m | m in s'.matched ensures m in WireIds(s') { assert m in WireIds(s); }
    } else {
      assert WireIds(s') == WireIds(s);
    }
  }

  lemma ReceiveKeepsIds(c: Config, s: System, r: ExecReport)
    requires Inv(c, s) && Enabled(c, s, GReceive(r))
    ensures Ids(Apply(c, s, GReceive(r)))
  {
    var s' := Apply(c, s, GReceive(r));
    var i := SlotOf(c.logCap, r.orderId);
    InFlightOnlyOne(c, s);
    SlotUpdate(s.gw.inflight, i, s.gw.inflight[i].(active := false));
    assert WireIds(s') == WireIds(s);
  }

  /** Ids on the wire strictly increase; each is matched to a fill at most once. */
  lemma StepKeepsInv(c: Config, s: System, a: Step)
    requires Inv(c, s) && Enabled(c, s, a)
    ensures Inv(c, Apply(c, s, a))
  {
    StepKeepsToken(c, s, a);
    var s' := Apply(c, s, a);
    match a {
      case SEvent(ev) =>
        EventShape(c.p, s.strat, ev);
        InFlightOnlyOne(c, s);
        assert WireIds(s') == WireIds(s);
      case GDispatch(kill, now) => DispatchKeepsIds(c, s, kill, now);
      case GReceive(r) => ReceiveKeepsIds(c, s, r);
      case _ => assert WireIds(s') == WireIds(s);
    }
  }

  // ---- positions -------------------------------------------------------------------

  function Filled(rs: seq<ExecReport>): int {
    if rs == [] then 0 else Signed(rs[0].side, rs[0].fillSize) + Filled(rs[1..])
  }

  /** Fills the gate has booked and the strategy has not. */
  function InTransit(s: System): int {
    (if s.gpc.GForwarding? then Signed(s.gpc.r.side, s.gpc.r.fillSize) else 0) + Filled(s.fillQ)
  }

  predicate FillFlattens(r: ExecReport, size: U32, position: int) {
    && r.fillSize == size && (r.side == BUY || r.side == SELL)
    && (r.side == BUY ==> position <= 0) && (r.side == SELL ==> position >= 0)
  }

  /** What holds while the exchange is honest and the order size fits the limits. */
  ghost predicate Money(c: Config, s: System) {
    var size, pos := c.p.orderSize, s.strat.position;
    && c.honest && c.Fits()
    && (pos == 0 || pos == size || pos == -(size as int))
    && s.gw.gate.position == pos + InTransit(s)
    && s.gw.gate.rejSize == s.gw.gate.rejPos == 0
    && (s.spc.SPushing? ==> Flattens(s.spc.o, size, pos))
    && (forall o :: o in s.orderQ ==> Flattens(o, size, pos))
    && (s.gpc.GHolding? ==> Flattens(s.gpc.o, size, pos))
    && (s.gpc.GForwarding? ==> FillFlattens(s.gpc.r, size, pos))
    && (forall r :: r in s.fillQ ==> FillFlattens(r, size, pos))
    && (forall r :: r in s.reports ==> exists k :: 0 <= k < |s.wire| && r == Echo(s.wire[k]))
    && (ActiveSlots(s.gw.inflight) > 0 ==>
          exists k :: 0 <= k < |s.wire| && s.wire[k].orderId == s.strat.lastOrderId
                      && Flattens(s.wire[k], size, pos))
  }

  lemma DispatchKeepsMoney(c: Config, s: System, kill: bool, now: nat)
    requires Inv(c, s) && Money(c, s) && Enabled(c, s, GDispatch(kill, now))
    ensures Money(c, Apply(c, s, GDispatch(kill, now)))
  {
    var s' := Apply(c, s, GDispatch(kill, now));
    var o := s.gpc.o;
    InFlightOnlyOne(c, s);
    SlotUpdate(s.gw.inflight, SlotOf(c.logCap, o.orderId), InFlight(o.orderId, o.mdTimestamp, true));
    assert s.gpc.o.orderId == s.strat.lastOrderId;
    forall r | r in s'.reports ensures exists k :: 0 <= k < |s'.wire| && r == Echo(s'.wire[k]) {
      var k :| 0 <= k < |s.wire| && r == Echo(s.wire[k]);
      assert s'.wire[k] == s.wire[k];
    }
    if Admits(c.l, s.gw, o, kill, now) {
      assert s'.wire[|s.wire|] == o;
    }
  }

  lemma ReceiveKeepsMoney(c: Config, s: System, r: ExecReport)
    requires Inv(c, s) && Money(c, s) && Enabled(c, s, GReceive(r))
    ensures Money(c, Apply(c, s, GReceive(r)))
  {
    var i := SlotOf(c.logCap, r.orderId);
    InFlightOnlyOne(c, s);
    SlotUpdate(s.gw.inflight, i, s.gw.inflight[i].(active := false));
    if Matches(c.logCap, s.gw, r) {
      var j :| 0 <= j < |s.wire| && r == Echo(s.wire[j]);
      var k :| 0 <= k < |s.wire| && s.wire[k].orderId == s.strat.lastOrderId
               && Flattens(s.wire[k], c.p.orderSize, s.strat.position);
      assert WireIds(s)[j] == WireIds(s)[k];
      assert j == k;
    }
  }

  lemma StepKeepsMoney(c: Config, s: System, a: Step)
    requires Inv(c, s) && Money(c, s) && Enabled(c, s, a)
    ensures Money(c, Apply(c, s, a))
  {
    InFlightOnlyOne(c, s);
    match a {
      case SEvent(ev) => EventShape(c.p, s.strat, ev);
      case GDispatch(kill, now) => DispatchKeepsMoney(c, s, kill, now);
      case GReceive(r) => ReceiveKeepsMoney(c, s, r);
      case STakeFill =>
        assert s.fillQ[1..] == [] && s.fillQ[0] in s.fillQ;
        assert !s.gpc.GForwarding?;
      case GForward =>
        assert s.fillQ == [] && Apply(c, s, a).fillQ == [s.gpc.r];
        assert Filled([s.gpc.r]) == Signed(s.gpc.r.side, s.gpc.r.fillSize) + Filled([]);
      case _ =>
    }
  }

  /** The gate has booked what the strategy has, and the fills in between. */
  predicate Agree(s: System) { s.gw.gate.position == s.strat.position + InTransit(s) }

  lemma StepKeepsAgree(c: Config, s: System, a: Step)
    requires Inv(c, s) && Agree(s) && Enabled(c, s, a)
    ensures Agree(Apply(c, s, a))
  {
    match a {
      case SEvent(ev) => EventShape(c.p, s.strat, ev);
      case GForward =>
        assert s.fillQ == [] && Apply(c, s, a).fillQ == [s.gpc.r];
        assert Filled([s.gpc.r]) == Signed(s.gpc.r.side, s.gpc.r.fillSize) + Filled([]);
      case _ =>
    }
  }

  // ---- an order size outside the limits ---------------------------------------------

  /** Nothing has passed the gate, and what may come carries the configured size. */
  predicate NothingSent(c: Config, s: System) {
    && s.wire == [] && s.matched == [] && Quiet(s.gw)
    && s.gw.gate.position == s.strat.position == 0 && s.gw.gate.accepted == s.gw.sent == 0
    && !s.gpc.GForwarding? && s.fillQ == []
    && (s.spc.SPushing? ==> s.spc.o.size == c.p.orderSize)
    && (forall o :: o in s.orderQ ==> o.size == c.p.orderSize)
    && (s.gpc.GHolding? ==> s.gpc.o.size == c.p.orderSize)
  }

  lemma StepSendsNothing(c: Config, s: System, a: Step)
    requires !c.Fits() && NothingSent(c, s) && Enabled(c, s, a)
    ensures NothingSent(c, Apply(c, s, a))
  {
    if a.SEvent? { EventShape(c.p, s.strat, a.ev); }
  }

  // ---- whole runs ------------------------------------------------------------------

  ghost predicate Runs(c: Config, s: System, steps: seq<Step>)
    decreases |steps|
  {
    steps == [] || (Enabled(c, s, steps[0]) && Runs(c, Apply(c, s, steps[0]), steps[1..]))
  }

  ghost function Exec(c: Config, s: System, steps: seq<Step>): System
    requires Runs(c, s, steps)
    decreases |steps|
  {
    if steps == [] then s else Exec(c, Apply(c, s, steps[0]), steps[1..])
  }

  lemma {:induction false} RunKeepsInv(c: Config, s: System, steps: seq<Step>)
    requires Inv(c, s) && Runs(c, s, steps)
    ensures Inv(c, Exec(c, s, steps))
    ensures Money(c, s) ==> Money(c, Exec(c, s, steps))
    ensures Agree(s) ==> Agree(Exec(c, s, steps))
    ensures !c.Fits() && NothingSent(c, s) ==> NothingSent(c, Exec(c, s, steps))
    decreases |steps|
  {
    if steps != [] {
      StepKeepsInv(c, s, steps[0]);
      if Money(c, s) { StepKeepsMoney(c, s, steps[0]); }
      if Agree(s) { StepKeepsAgree(c, s, steps[0]); }
      if !c.Fits() && NothingSent(c, s) { StepSendsNothing(c, s, steps[0]); }
      RunKeepsInv(c, Apply(c, s, steps[0]), steps[1..]);
    }
  }

  /** Over any network and against any exchange: at most one order or fill is in
      play, so neither queue push ever waits; no live slot is overwritten; wire
      ids strictly increase; and each id sent is matched at most once. */
  lemma OneOrderInPlay(c: Config, steps: seq<Step>)
    requires c.Valid() && Runs(c, Start(c), steps)
    ensures var s := Exec(c, Start(c), steps);
            && Tokens(s) <= 1 && (!s.strat.inFlight ==> Tokens(s) == 0)
            && (s.spc.SPushing? ==> s.orderQ == [] && Enabled(c, s, SPush))
            && (s.gpc.GForwarding? ==> s.fillQ == [] && Enabled(c, s, GForward))
            && (s.gpc.GHolding? ==> Quiet(s.gw))
            && Increasing(WireIds(s), s.strat.lastOrderId)
            && Increasing(s.matched, s.strat.lastOrderId)
            && (forall m :: m in s.matched ==> m in WireIds(s))
  {
    StartHasNoToken(c);
    RunKeepsInv(c, Start(c), steps);
    InFlightOnlyOne(c, Exec(c, Start(c), steps));
  }

  /** With an honest exchange and an order size inside both limits: the strategy
      is flat or one order long or short, the gate's position is the strategy's
      plus the fills still on their way, it never leaves the limit, and no order
      is refused for size or position. */
  lemma PositionsAgree(c: Config, steps: seq<Step>)
    requires c.Valid() && c.honest && c.Fits() && Runs(c, Start(c), steps)
    ensures var s := Exec(c, Start(c), steps);
            && (s.strat.position == 0 || s.strat.position == c.p.orderSize
                || s.strat.position == -(c.p.orderSize as int))
            && s.gw.gate.position == s.strat.position + InTransit(s)
            && Risk.WithinPosition(c.l, s.gw.gate.position)
            && s.gw.gate.rejSize == 0 && s.gw.gate.rejPos == 0
  {
    StartHasNoToken(c);
    RunKeepsInv(c, Start(c), steps);
    InTransitFits(c, Exec(c, Start(c), steps));
  }

  lemma InTransitFits(c: Config, s: System)
    requires Inv(c, s) && Money(c, s)
    ensures Risk.WithinPosition(c.l, s.gw.gate.position)
  {
    if s.gpc.GForwarding? {
      assert s.fillQ == [];
    } else if s.fillQ != [] {
      assert s.fillQ[0] in s.fillQ && s.fillQ[1..] == [];
      assert Filled(s.fillQ[1..]) == 0;
      assert FillFlattens(s.fillQ[0], c.p.orderSize, s.strat.position);
    }
  }

  /** Against any exchange, honest or not: the gate's position is the strategy's
      plus the fills still on their way. */
  lemma GateAndStrategyAgree(c: Config, steps: seq<Step>)
    requires c.Valid() && Runs(c, Start(c), steps)
    ensures var s := Exec(c, Start(c), steps);
            s.gw.gate.position == s.strat.position + InTransit(s)
  {
    StartHasNoToken(c);
    RunKeepsInv(c, Start(c), steps);
  }

  /** An order size outside the limits keeps the engine flat: over any network and
      any exchange, nothing is ever sent. */
  lemma UnfitSizeSendsNothing(c: Config, steps: seq<Step>)
    requires c.Valid() && !c.Fits() && Runs(c, Start(c), steps)
    ensures var s := Exec(c, Start(c), steps);
            s.wire == [] && s.matched == [] && s.strat.position == s.gw.gate.position == 0
  {
    StartHasNoToken(c);
    RunKeepsInv(c, Start(c), steps);
  }

  /** The condition on the order size is exact: wherever a run has an order before
      the gate, its size and position checks pass if and only if the size fits. */
  lemma ChecksPassIff(c: Config, steps: seq<Step>, now: nat)
    requires c.Valid() && c.honest && Runs(c, Start(c), steps)
    requires Exec(c, Start(c), steps).gpc.GHolding?
    ensures var s := Exec(c, Start(c), steps);
            Risk.Judge(c.l, s.gw.gate, s.gpc.o, false, now) !in {Risk.SizeLimit, Risk.PositionLimit} <==> c.Fits()
  {
    StartHasNoToken(c);
    RunKeepsInv(c, Start(c), steps);
    InFlightOnlyOne(c, Exec(c, Start(c), steps));
  }

  // ---- contents and counts ------------------------------------------------------------

  /** The orders the strategy sent over a run, as it sent them. */
  ghost function Sent(c: Config, s: System, steps: seq<Step>): seq<OrderRequest>
    requires Runs(c, s, steps)
    decreases |steps|
  {
    if steps == [] then []
    else
      var t := Apply(c, s, steps[0]);
      (if steps[0].SEvent? && t.spc.SPushing? then [t.spc.o] else []) + Sent(c, t, steps[1..])
  }

  /** Orders on their way to the wire. */
  function OnTheWay(s: System): seq<OrderRequest> {
    (if s.gpc.GHolding? then [s.gpc.o] else []) + s.orderQ + (if s.spc.SPushing? then [s.spc.o] else [])
  }

  lemma StepCarries(c: Config, s: System, a: Step)
    requires Enabled(c, s, a)
    ensures var t := Apply(c, s, a);
            && (forall o :: o in t.wire ==> o in s.wire || o in OnTheWay(s))
            && (forall o :: o in OnTheWay(t) ==> o in OnTheWay(s) || (a.SEvent? && t.spc.SPushing? && o == t.spc.o))
  {
    if a.GTake? { assert s.orderQ[0] in s.orderQ; }
  }

  /** What is on the wire is what the strategy sent, unchanged. */
  lemma {:induction false} WireIsSent(c: Config, s: System, steps: seq<Step>)
    requires Runs(c, s, steps)
    ensures forall o :: o in Exec(c, s, steps).wire ==> o in s.wire || o in OnTheWay(s) || o in Sent(c, s, steps)
    decreases |steps|
  {
    if steps != [] {
      var t := Apply(c, s, steps[0]);
      StepCarries(c, s, steps[0]);
      WireIsSent(c, t, steps[1..]);
    }
  }

  /** The counters count: orders on the wire, refusals by kind, matched fills. */
  predicate Tallied(s: System) {
    && |s.wire| == s.gw.sent == s.gw.gate.accepted && |s.matched| == s.gw.fillsMatched
    && s.gw.riskRejected == s.gw.gate.rejKill + s.gw.gate.rejSize + s.gw.gate.rejPos + s.gw.gate.rejRate
  }

  lemma {:induction false} RunTallies(c: Config, s: System, steps: seq<Step>)
    requires Runs(c, s, steps) && Tallied(s)
    ensures Tallied(Exec(c, s, steps))
    decreases |steps|
  {
    if steps != [] { RunTallies(c, Apply(c, s, steps[0]), steps[1..]); }
  }

  /** From start-up: every order on the wire was sent by the strategy just so, and the
      counters agree with what happened. */
  lemma WireAndCounters(c: Config, steps: seq<Step>)
    requires c.Valid() && Runs(c, Start(c), steps)
    ensures var s := Exec(c, Start(c), steps);
            Tallied(s) && forall o :: o in s.wire ==> o in Sent(c, Start(c), steps)
  {
    WireIsSent(c, Start(c), steps);
    RunTallies(c, Start(c), steps);
  }

  // ---- the kill switch -----------------------------------------------------------------

  /** A dispatch with the kill switch set: the order goes nowhere and is counted. */
  lemma KilledOrderGoesNowhere(c: Config, s: System, now: nat)
    requires Enabled(c, s, GDispatch(true, now))
    ensures var t := Apply(c, s, GDispatch(true, now));
            && t.wire == s.wire && t.gw.inflight == s.gw.inflight && t.gw.sent == s.gw.sent
            && t.strat == s.strat && t.fillQ == s.fillQ && t.gpc == GIdle
            && t.gw.gate == s.gw.gate.(rejKill := s.gw.gate.rejKill + 1)
            && t.gw.riskRejected == s.gw.riskRejected + 1
  {
  }

  predicate AllKilled(steps: seq<Step>) {
    forall i :: 0 <= i < |steps| && steps[i].GDispatch? ==> steps[i].kill
  }

  function Dispatches(steps: seq<Step>): nat {
    if steps == [] then 0 else (if steps[0].GDispatch? then 1 else 0) + Dispatches(steps[1..])
  }

  /** Some live slot carries the id. */
  ghost predicate LiveId(t: seq<InFlight>, id: nat) {
    exists i :: 0 <= i < |t| && t[i].active && t[i].orderId == id
  }

  /** Over any run whose dispatches are all killed: nothing reaches the wire, nothing
      is matched but what was live before, and each dispatch is counted. */
  lemma {:induction false} KilledRunSendsNothing(c: Config, s: System, steps: seq<Step>)
    requires Runs(c, s, steps) && AllKilled(steps)
    ensures var t := Exec(c, s, steps);
            && t.wire == s.wire && t.gw.gate.limiter == s.gw.gate.limiter
            && t.gw.gate.rejKill == s.gw.gate.rejKill + Dispatches(steps)
            && t.gw.gate.accepted == s.gw.gate.accepted
            && (forall m :: m in t.matched ==> m in s.matched || LiveId(s.gw.inflight, m))
            && (forall id :: LiveId(t.gw.inflight, id) ==> LiveId(s.gw.inflight, id))
    decreases |steps|
  {
    if steps != [] {
      var s1 := Apply(c, s, steps[0]);
      if steps[0].GDispatch? { KilledOrderGoesNowhere(c, s, steps[0].now); }
      KilledStep(c, s, steps[0]);
      assert AllKilled(steps[1..]);
      KilledRunSendsNothing(c, s1, steps[1..]);
    }
  }

  lemma KilledStep(c: Config, s: System, a: Step)
    requires Enabled(c, s, a) && (a.GDispatch? ==> a.kill)
    ensures var t := Apply(c, s, a);
            && (forall m :: m in t.matched ==> m in s.matched || LiveId(s.gw.inflight, m))
            && (forall id :: LiveId(t.gw.inflight, id) ==> LiveId(s.gw.inflight, id))
  {
    var t := Apply(c, s, a);
    if a.GReceive? && Matches(c.logCap, s.gw, a.r) {
      assert s.gw.inflight[SlotOf(c.logCap, a.r.orderId)].active;
      assert LiveId(s.gw.inflight, a.r.orderId);
      forall id | LiveId(t.gw.inflight, id) ensures LiveId(s.gw.inflight, id) {
        var i :| 0 <= i < |t.gw.inflight| && t.gw.inflight[i].active && t.gw.inflight[i].orderId == id;
        assert s.gw.inflight[i].active && s.gw.inflight[i].orderId == id;
      }
    }
  }

  // ---- what a report's status does ----------------------------------------------------

  /** A matched report has the same effect with any status: it frees the slot, moves
      both positions unless it is for no shares, and clears the latch. */
  lemma StatusIsIgnored(logCap: nat, gw: Gateway, st: Strat.Strategy, r: ExecReport, status: Byte)
    requires |gw.inflight| == Pow2(logCap) && Matches(logCap, gw, r)
    ensures var r' := r.(status := status);
            && Matches(logCap, gw, r')
            && TakeReport(logCap, gw, r') == TakeReport(logCap, gw, r)
            && Strat.OnFill(st, r') == Strat.OnFill(st, r)
            && !Strat.OnFill(st, r').inFlight
            && (TakeReport(logCap, gw, r').gate.position == gw.gate.position <==> r.fillSize == 0)
            && (Strat.OnFill(st, r').position == st.position <==> r.fillSize == 0)
  {
  }

  /** Equal but for the status of a report. */
  predicate SameReport(r: ExecReport, r': ExecReport) { r' == r.(status := r'.status) }

  predicate SameStep(a: Step, a': Step) {
    if a.GReceive? then a'.GReceive? && SameReport(a.r, a'.r) else a' == a
  }

  predicate SameSteps(steps: seq<Step>, steps': seq<Step>) {
    |steps'| == |steps| && forall i :: 0 <= i < |steps| ==> SameStep(steps[i], steps'[i])
  }

  predicate SameSystem(s: System, s': System) {
    && s' == s.(gpc := s'.gpc, fillQ := s'.fillQ)
    && (if s.gpc.GForwarding? then s'.gpc.GForwarding? && SameReport(s.gpc.r, s'.gpc.r) else s'.gpc == s.gpc)
    && |s'.fillQ| == |s.fillQ| && forall i :: 0 <= i < |s.fillQ| ==> SameReport(s.fillQ[i], s'.fillQ[i])
  }

  lemma SameStepSameEffect(c: Config, s: System, s': System, a: Step, a': Step)
    requires !c.honest && SameSystem(s, s') && SameStep(a, a') && Enabled(c, s, a)
    ensures Enabled(c, s', a') && SameSystem(Apply(c, s, a), Apply(c, s', a'))
  {
  }

  /** Two runs whose reports differ in nothing but their statuses have the same
      orders, positions, latch and counts throughout. */
  lemma {:induction false} StatusesNeverMatter(c: Config, s: System, s': System, steps: seq<Step>, steps': seq<Step>)
    requires !c.honest && SameSystem(s, s') && SameSteps(steps, steps') && Runs(c, s, steps)
    ensures Runs(c, s', steps') && SameSystem(Exec(c, s, steps), Exec(c, s', steps'))
    decreases |steps|
  {
    if steps != [] {
      SameStepSameEffect(c, s, s', steps[0], steps'[0]);
      assert SameSteps(steps[1..], steps'[1..]);
      StatusesNeverMatter(c, Apply(c, s, steps[0]), Apply(c, s', steps'[0]), steps[1..], steps'[1..]);
    }
  }

  lemma {:induction false} RunsAppend(c: Config, s: System, xs: seq<Step>, ys: seq<Step>)
    requires Runs(c, s, xs) && Runs(c, Exec(c, s, xs), ys)
    ensures Runs(c, s, xs + ys) && Exec(c, s, xs + ys) == Exec(c, Exec(c, s, xs), ys)
    decreases |xs|
  {
    if xs == [] {
      assert xs + ys == ys;
    } else {
      assert (xs + ys)[1..] == xs[1..] + ys;
      RunsAppend(c, Apply(c, s, xs[0]), xs[1..], ys);
    }
  }

  lemma OneMore(c: Config, s: System, xs: seq<Step>, a: Step)
    requires Runs(c, s, xs) && Enabled(c, Exec(c, s, xs), a)
    ensures Runs(c, s, xs + [a]) && Exec(c, s, xs + [a]) == Apply(c, Exec(c, s, xs), a)
  {
    var t := Apply(c, Exec(c, s, xs), a);
    assert Runs(c, t, [a][1..]) && Exec(c, t, [a][1..]) == t;
    RunsAppend(c, s, xs, [a]);
  }

  /** Wherever an order is live, a report that says it was rejected fills it. */
  lemma RejectedReportFills(c: Config, s: System, r: ExecReport) returns (steps: seq<Step>)
    requires Inv(c, s) && !c.honest && s.spc.SIdle? && s.gpc.GIdle?
    requires r.status == STATUS_REJECTED && Matches(c.logCap, s.gw, r)
    ensures steps == [GReceive(r), GForward, STakeFill] && Runs(c, s, steps)
    ensures var t := Exec(c, s, steps);
            && t.strat.position == s.strat.position + Signed(r.side, r.fillSize) && !t.strat.inFlight
            && t.gw.gate.position == s.gw.gate.position + Signed(r.side, r.fillSize)
  {
    steps := [GReceive(r), GForward, STakeFill];
    StepKeepsInv(c, s, steps[0]);
    InFlightOnlyOne(c, Apply(c, s, steps[0]));
    var s1 := Apply(c, s, steps[0]);
    assert s1.fillQ == [];
    var s2 := Apply(c, s1, GForward);
    var s3 := Apply(c, s2, STakeFill);
    assert Runs(c, s3, []) && Exec(c, s3, []) == s3;
    assert steps[1..] == [GForward, STakeFill] && steps[1..][1..] == [STakeFill] && steps[1..][1..][1..] == [];
    assert Runs(c, s2, [STakeFill]) && Exec(c, s2, [STakeFill]) == s3;
    assert Runs(c, s1, steps[1..]) && Exec(c, s1, steps[1..]) == s3;
  }

  /** An order that passes the gate goes out into its slot. */
  lemma SendFlows(c: Config, s: System, now: nat) returns (steps: seq<Step>)
    requires Inv(c, s) && s.spc.SPushing? && Admits(c.l, s.gw, s.spc.o, false, now)
    ensures Runs(c, s, steps)
    ensures var t := Exec(c, s, steps);
            && t.spc.SIdle? && t.gpc.GIdle? && t.strat == s.strat && t.gw.gate.position == s.gw.gate.position
            && t.gw.inflight == s.gw.inflight[SlotOf(c.logCap, s.spc.o.orderId) :=
                                              InFlight(s.spc.o.orderId, s.spc.o.mdTimestamp, true)]
  {
    InFlightOnlyOne(c, s);
    assert s.orderQ == [] && s.gpc.GIdle?;
    assert Runs(c, s, []) && Exec(c, s, []) == s;
    OneMore(c, s, [], SPush);
    assert [] + [SPush] == [SPush];
    OneMore(c, s, [SPush], GTake);
    OneMore(c, s, [SPush] + [GTake], GDispatch(false, now));
    steps := [SPush] + [GTake] + [GDispatch(false, now)];
  }

  /** A thin ask, then a thicker bid: the first order of a small engine. */
  lemma FirstSignal(p: Strat.Params, ask: MdEvent, bid: MdEvent)
    requires p == Strat.Params(BookSpec.Grid(4, 0, 1), 5, 0)
    requires ask.msg == ItchMessage(0, 1, 0, 1, 0, ADD, SELL, 0) && bid.msg == ItchMessage(0, 0, 0, 2, 1, ADD, BUY, 0)
    ensures var d := Strat.OnMd(p, Strat.START, ask);
            var e := Strat.OnMd(p, d.st, bid);
            && d.order.None? && !d.st.inFlight && d.st.position == d.st.lastOrderId == 0
            && e.order.Some? && e.st.inFlight && e.st.position == 0
            && e.order.value.orderId == 1 && e.order.value.size == 5 && e.order.value.side == BUY
  {
    var d := Strat.OnMd(p, Strat.START, ask);
    var b := BookSpec.Apply(p.g, d.st.book, bid.msg);
    assert BookSpec.IndexOf(p.g, 0) == 0 && BookSpec.IndexOf(p.g, 1) == 1;
    assert d.st.book == BookSpec.MapBook(map[], map[1 := 1], 0);
    assert b == BookSpec.MapBook(map[0 := 2], map[1 := 1], 0);
    assert BookSpec.IsHighest(b.bids, 0) && BookSpec.IsLowest(b.asks, 1);
    assert Strat.BestBid(b) == 2 && Strat.BestAsk(b) == 1;
    Strat.SignalsExact(2, 1, 0);
  }

  lemma FirstOrder(c: Config) returns (steps: seq<Step>)
    requires c.Valid() && c.p == Strat.Params(BookSpec.Grid(4, 0, 1), 5, 0)
    ensures Runs(c, Start(c), steps) && Inv(c, Exec(c, Start(c), steps))
    ensures var s := Exec(c, Start(c), steps);
            && s.gw == Start(c).gw && s.strat.position == 0
            && s.spc.SPushing? && s.spc.o.orderId == 1 && s.spc.o.size == 5 && s.spc.o.side == BUY
  {
    var ask := MdEvent(ItchMessage(0, 1, 0, 1, 0, ADD, SELL, 0), 0);
    var bid := MdEvent(ItchMessage(0, 0, 0, 2, 1, ADD, BUY, 0), 0);
    FirstSignal(c.p, ask, bid);
    var s, a := Start(c), SEvent(ask);
    assert Runs(c, s, []) && Exec(c, s, []) == s;
    OneMore(c, s, [], a);
    steps := [] + [a];
    OneMore(c, s, steps, SEvent(bid));
    steps := steps + [SEvent(bid)];
    StartHasNoToken(c);
    RunKeepsInv(c, s, steps);
  }

  /** It happens: from start-up, an order for five shares goes out, a report comes
      back that it was rejected, and both sides hold five shares. */
  lemma RejectedReportIsReachable(c: Config) returns (steps: seq<Step>, r: ExecReport)
    requires c.Valid() && c.Fits() && !c.honest && c.l.cyclesPerToken == 0
    requires c.p == Strat.Params(BookSpec.Grid(4, 0, 1), 5, 0)
    ensures Runs(c, Start(c), steps) && GReceive(r) in steps && r.status == STATUS_REJECTED
    ensures var t := Exec(c, Start(c), steps); t.strat.position == t.gw.gate.position == 5
  {
    r := ExecReport(1, 0, 0, 0, 5, BUY, STATUS_REJECTED);
    var ordering := FirstOrder(c);
    var s1 := Exec(c, Start(c), ordering);
    var sending := SendFlows(c, s1, 0);
    RunKeepsInv(c, s1, sending);
    var s2 := Exec(c, s1, sending);
    var filling := RejectedReportFills(c, s2, r);
    RunsAppend(c, s1, sending, filling);
    RunsAppend(c, Start(c), ordering, sending + filling);
    steps := ordering + (sending + filling);
    assert filling[0] == GReceive(r);
  }

  // ---- what a rejection costs ----------------------------------------------------------

  /** The latch is set and nothing is left that could clear it. */
  predicate Silenced(s: System) { s.strat.inFlight && Tokens(s) == 0 }

  /** The latch outlives its order exactly when the gate refuses one. */
  lemma SilencedOnlyByRejection(c: Config, s: System, a: Step)
    requires Inv(c, s) && Enabled(c, s, a)
    ensures Silenced(Apply(c, s, a))
            <==> Silenced(s) || (a.GDispatch? && !Admits(c.l, s.gw, s.gpc.o, a.kill, a.now))
  {
    StepKeepsToken(c, s, a);
    InFlightOnlyOne(c, s);
    match a {
      case SEvent(ev) => EventShape(c.p, s.strat, ev);
      case GDispatch(kill, now) =>
        var o := s.gpc.o;
        SlotUpdate(s.gw.inflight, SlotOf(c.logCap, o.orderId), InFlight(o.orderId, o.mdTimestamp, true));
      case GReceive(r) =>
        var i := SlotOf(c.logCap, r.orderId);
        SlotUpdate(s.gw.inflight, i, s.gw.inflight[i].(active := false));
      case _ =>
    }
  }

  /** One step: a silenced loop stays silenced, and each rejection silences. */
  lemma StepSilences(c: Config, s: System, a: Step)
    requires Inv(c, s) && Enabled(c, s, a) && (Silenced(s) <==> s.gw.riskRejected > 0)
    ensures Silenced(Apply(c, s, a)) <==> Apply(c, s, a).gw.riskRejected > 0
  {
    SilencedOnlyByRejection(c, s, a);
  }

  lemma {:induction false} RunSilences(c: Config, s: System, steps: seq<Step>)
    requires Inv(c, s) && Runs(c, s, steps) && (Silenced(s) <==> s.gw.riskRejected > 0)
    ensures Silenced(Exec(c, s, steps)) <==> Exec(c, s, steps).gw.riskRejected > 0
    decreases |steps|
  {
    if steps != [] {
      StepKeepsInv(c, s, steps[0]);
      StepSilences(c, s, steps[0]);
      RunSilences(c, Apply(c, s, steps[0]), steps[1..]);
    }
  }

  /** In every run the strategy is silenced if and only if the gate has refused an order. */
  lemma SilencedIffRejected(c: Config, steps: seq<Step>)
    requires c.Valid() && Runs(c, Start(c), steps)
    ensures var s := Exec(c, Start(c), steps); Silenced(s) <==> s.gw.riskRejected > 0
  {
    StartHasNoToken(c);
    RunSilences(c, Start(c), steps);
  }

  /** After a rejection the strategy never emits another order, whatever arrives. */
  lemma {:induction false} RejectionIsFinal(c: Config, s: System, steps: seq<Step>)
    requires Inv(c, s) && Silenced(s) && Runs(c, s, steps)
    ensures var t := Exec(c, s, steps);
            && Silenced(t)
            && t.strat.ordersSent == s.strat.ordersSent && t.strat.fillsSeen == s.strat.fillsSeen
            && t.wire == s.wire && t.matched == s.matched
    decreases |steps|
  {
    if steps != [] {
      var a := steps[0];
      var s1 := Apply(c, s, a);
      StepKeepsInv(c, s, a);
      SilencedOnlyByRejection(c, s, a);
      if a.SEvent? { EventShape(c.p, s.strat, a.ev); }
      if a.GReceive? { InFlightOnlyOne(c, s); }
      RejectionIsFinal(c, s1, steps[1..]);
    }
  }
}
