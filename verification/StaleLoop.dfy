/** The closed loop on rings whose positions are loaded stale.

    Each thread acts on what it has acquired: an acquire load of the other side's
    position returns any value between the newest one that happens before it and the
    current one, and with a position comes everything its publisher had seen.  A
    push is refused when the position it loads leaves no room, a pop when it shows
    nothing.  The gateway's answer carries its pop of the order back to the
    strategy, and the next order carries the strategy's pop of the fill to the
    gateway; so the two pushes that spin succeed at the first try. */
module StaleLoop {
  import opened Messages
  import opened GatewaySpec
  import opened ClosedLoop
  import opened Engine
  import Strat = StrategySpec

  datatype Views = Views(
    ordersPushed: nat, ordersPopped: nat,   // positions of the order ring
    fillsPushed: nat, fillsPopped: nat,     // positions of the fill ring
    stratCache: nat,                        // the strategy's cached pop position of the order ring
    gwCache: nat,                           // the gateway's cached pop position of the fill ring
    stratSeesPops: nat,                     // newest order-ring pops that happen before the strategy's next load
    stratSeesFills: nat,                    // newest fill-ring pushes the strategy has acquired
    gwSeesPops: nat,
    gwSeesOrders: nat,
    orderTag: seq<nat>,                     // fills popped when each order position was published
    fillTag: seq<nat>)                      // orders popped when each fill position was published

  datatype Whole = Whole(s: System, v: Views)

  datatype Move =
    | Other(a: Step)          // a step that touches neither ring
    | PushOrder(seen: nat)
    | PushFill(seen: nat)
    | LoadFills(seen: nat)    // the acquire load of a pop
    | LoadOrders(seen: nat)
    | TakeFill
    | TakeOrder

  function Begin(c: ClosedLoop.Config): Whole {
    Whole(Start(c), Views(0, 0, 0, 0, 0, 0, 0, 0, 0, 0, [0], [0]))
  }

  ghost predicate Can(c: ClosedLoop.Config, w: Whole, m: Move) {
    var s, v := w.s, w.v;
    match m
    case Other(a) => (a.SEvent? || a.GDispatch? || a.GReceive? || a.XEcho?) && Enabled(c, s, a)
    case PushOrder(seen) => s.spc.SPushing? && v.stratSeesPops <= seen <= v.ordersPopped
    case PushFill(seen) => s.gpc.GForwarding? && v.gwSeesPops <= seen <= v.fillsPopped
    case LoadFills(seen) => s.spc.SIdle? && v.stratSeesFills <= seen <= v.fillsPushed && seen < |v.fillTag|
    case LoadOrders(seen) => s.gpc.GIdle? && v.gwSeesOrders <= seen <= v.ordersPushed && seen < |v.orderTag|
    case TakeFill => s.spc.SIdle? && v.fillsPopped < v.stratSeesFills && s.fillQ != []
    case TakeOrder => s.gpc.GIdle? && v.ordersPopped < v.gwSeesOrders && s.orderQ != []
  }

  function Most(x: nat, y: nat): nat { if x > y then x else y }

  /** The two tests of a push: on the cached position, else on the loaded one. */
  predicate OrderFits(c: ClosedLoop.Config, v: Views, seen: nat) {
    v.ordersPushed - v.stratCache < c.orderCap || v.ordersPushed - seen < c.orderCap
  }

  predicate FillFits(c: ClosedLoop.Config, v: Views, seen: nat) {
    v.fillsPushed - v.gwCache < c.fillCap || v.fillsPushed - seen < c.fillCap
  }

  ghost function Act(c: ClosedLoop.Config, w: Whole, m: Move): Whole
    requires Can(c, w, m)
  {
    var s, v := w.s, w.v;
    match m
    case Other(a) => w.(s := Apply(c, s, a))
    case PushOrder(seen) =>
      var loads := v.ordersPushed - v.stratCache >= c.orderCap;
      var v' := if loads then v.(stratCache := seen, stratSeesPops := seen) else v;
      if OrderFits(c, v, seen) then
        Whole(s.(orderQ := s.orderQ + [s.spc.o], spc := SIdle),
              v'.(ordersPushed := v.ordersPushed + 1, orderTag := v.orderTag + [v.fillsPopped]))
      else w.(v := v')
    case PushFill(seen) =>
      var loads := v.fillsPushed - v.gwCache >= c.fillCap;
      var v' := if loads then v.(gwCache := seen, gwSeesPops := seen) else v;
      if FillFits(c, v, seen) then
        Whole(s.(fillQ := s.fillQ + [s.gpc.r], gpc := GIdle),
              v'.(fillsPushed := v.fillsPushed + 1, fillTag := v.fillTag + [v.ordersPopped]))
      else w.(v := v')
    case LoadFills(seen) =>
      w.(v := v.(stratSeesFills := seen, stratSeesPops := Most(v.stratSeesPops, v.fillTag[seen])))
    case LoadOrders(seen) =>
      w.(v := v.(gwSeesOrders := seen, gwSeesPops := Most(v.gwSeesPops, v.orderTag[seen])))
    case TakeFill => Whole(Apply(c, s, STakeFill), v.(fillsPopped := v.fillsPopped + 1))
    case TakeOrder => Whole(Apply(c, s, GTake), v.(ordersPopped := v.ordersPopped + 1))
  }

  // ---- the invariant --------------------------------------------------------------------

  /** The four positions follow each other round the loop, at most one apart. */
  ghost predicate Counts(s: System, v: Views) {
    && v.fillsPopped <= v.fillsPushed <= v.ordersPopped <= v.ordersPushed <= v.fillsPopped + 1
    && |s.orderQ| == v.ordersPushed - v.ordersPopped && |s.fillQ| == v.fillsPushed - v.fillsPopped
    && (!s.strat.inFlight || s.spc.SPushing? ==> v.ordersPushed == v.fillsPopped)
    && (s.gpc.GHolding? || s.gpc.GForwarding? || ActiveSlots(s.gw.inflight) > 0 ==>
          v.fillsPushed + 1 == v.ordersPopped)
  }

  /** A fill position brings as many order pops; an order position all fill pops but one. */
  ghost predicate Tags(v: Views) {
    && |v.orderTag| == v.ordersPushed + 1 && |v.fillTag| == v.fillsPushed + 1
    && (forall k :: 0 <= k < |v.orderTag| ==> k <= v.orderTag[k] + 1 && v.orderTag[k] <= v.fillsPopped)
    && (forall k :: 0 <= k < |v.fillTag| ==> k <= v.fillTag[k] <= v.ordersPopped)
  }

  ghost predicate Seen(v: Views) {
    && v.stratCache <= v.stratSeesPops <= v.ordersPopped && v.gwCache <= v.gwSeesPops <= v.fillsPopped
    && v.fillsPopped <= v.stratSeesFills <= v.fillsPushed && v.stratSeesFills <= v.stratSeesPops
    && v.ordersPopped <= v.gwSeesOrders <= v.ordersPushed && v.gwSeesOrders <= v.gwSeesPops + 1
  }

  ghost predicate Sound(c: ClosedLoop.Config, w: Whole) {
    Inv(c, w.s) && Counts(w.s, w.v) && Tags(w.v) && Seen(w.v)
  }

  /** Whatever the loads return, the position a spinning push goes by is the end of
      the other side's pops: it finds its ring empty. */
  lemma PushesAreAccepted(c: ClosedLoop.Config, w: Whole, seen: nat)
    requires Sound(c, w)
    ensures Can(c, w, PushOrder(seen)) ==> w.v.ordersPushed == seen && OrderFits(c, w.v, seen)
    ensures Can(c, w, PushFill(seen)) ==> w.v.fillsPushed == seen && FillFits(c, w.v, seen)
  {
  }

  /** A load that shows something shows something that is there. */
  lemma TakesAreThere(c: ClosedLoop.Config, w: Whole)
    requires Sound(c, w)
    ensures w.v.fillsPopped < w.v.stratSeesFills ==> w.s.fillQ != []
    ensures w.v.ordersPopped < w.v.gwSeesOrders ==> w.s.orderQ != []
  {
  }

  // ---- preservation, and the step of the loop each move is -------------------------------

  /** The loop's step a move takes, if it is not a load alone. */
  function StepOf(m: Move): Option<Step> {
    match m
    case Other(a) => Some(a)
    case PushOrder(_) => Some(SPush)
    case PushFill(_) => Some(GForward)
    case TakeFill => Some(STakeFill)
    case TakeOrder => Some(GTake)
    case _ => None
  }

  /** No move is refused: each is a step of the loop on queues that refuse only when
      full, or a load. */
  lemma MoveIsStep(c: ClosedLoop.Config, w: Whole, m: Move)
    requires Sound(c, w) && Can(c, w, m)
    ensures var a := StepOf(m);
            if a.Some? then Enabled(c, w.s, a.value) && Act(c, w, m).s == Apply(c, w.s, a.value)
            else Act(c, w, m).s == w.s
  {
    if m.PushOrder? { PushesAreAccepted(c, w, m.seen); }
    if m.PushFill? { PushesAreAccepted(c, w, m.seen); }
  }

  lemma OtherKeepsCounts(c: ClosedLoop.Config, s: System, v: Views, a: Step)
    requires Inv(c, s) && Counts(s, v) && Enabled(c, s, a) && (a.SEvent? || a.GDispatch? || a.GReceive? || a.XEcho?)
    ensures Counts(Apply(c, s, a), v)
  {
    InFlightOnlyOne(c, s);
    match a {
      case SEvent(ev) => EventShape(c.p, s.strat, ev);
      case GDispatch(kill, now) =>
        var o := s.gpc.o;
        SlotUpdate(s.gw.inflight, SlotOf(c.logCap, o.orderId), InFlight(o.orderId, o.mdTimestamp, true));
      case GReceive(r) =>
        var i := SlotOf(c.logCap, r.orderId);
        SlotUpdate(s.gw.inflight, i, s.gw.inflight[i].(active := false));
      case _ =>
    }
  }

  lemma RingMoveKeepsCounts(c: ClosedLoop.Config, w: Whole, m: Move)
    requires Sound(c, w) && Can(c, w, m) && !m.Other?
    ensures Counts(Act(c, w, m).s, Act(c, w, m).v)
  {
    InFlightOnlyOne(c, w.s);
    if m.PushOrder? { PushesAreAccepted(c, w, m.seen); }
    if m.PushFill? { PushesAreAccepted(c, w, m.seen); }
  }

  lemma MoveKeepsSeen(c: ClosedLoop.Config, w: Whole, m: Move)
    requires Sound(c, w) && Can(c, w, m)
    ensures Seen(Act(c, w, m).v)
  {
    match m {
      case LoadFills(seen) => LoadFillsKeepsSeen(w.v, seen);
      case LoadOrders(seen) => LoadOrdersKeepsSeen(w.v, seen);
      case PushOrder(seen) => PushesAreAccepted(c, w, seen);
      case PushFill(seen) => PushesAreAccepted(c, w, seen);
      case _ =>
    }
  }

  lemma LoadFillsKeepsSeen(v: Views, seen: nat)
    requires Tags(v) && Seen(v) && v.stratSeesFills <= seen <= v.fillsPushed
    ensures Seen(v.(stratSeesFills := seen, stratSeesPops := Most(v.stratSeesPops, v.fillTag[seen])))
  {
    assert seen <= v.fillTag[seen] <= v.ordersPopped;
  }

  lemma LoadOrdersKeepsSeen(v: Views, seen: nat)
    requires Tags(v) && Seen(v) && v.gwSeesOrders <= seen <= v.ordersPushed
    ensures Seen(v.(gwSeesOrders := seen, gwSeesPops := Most(v.gwSeesPops, v.orderTag[seen])))
  {
    assert seen <= v.orderTag[seen] + 1 && v.orderTag[seen] <= v.fillsPopped;
  }

  lemma MoveKeepsTags(c: ClosedLoop.Config, w: Whole, m: Move)
    requires Sound(c, w) && Can(c, w, m)
    ensures Tags(Act(c, w, m).v)
  {
    if m.PushOrder? { PushesAreAccepted(c, w, m.seen); }
    if m.PushFill? { PushesAreAccepted(c, w, m.seen); }
  }

  lemma MoveKeepsSound(c: ClosedLoop.Config, w: Whole, m: Move)
    requires Sound(c, w) && Can(c, w, m)
    ensures Sound(c, Act(c, w, m))
  {
    MoveIsStep(c, w, m);
    if StepOf(m).Some? { StepKeepsInv(c, w.s, StepOf(m).value); }
    if m.Other? { OtherKeepsCounts(c, w.s, w.v, m.a); } else { RingMoveKeepsCounts(c, w, m); }
    MoveKeepsTags(c, w, m);
    MoveKeepsSeen(c, w, m);
  }

  // ---- whole runs -------------------------------------------------------------------------

  ghost predicate Moves(c: ClosedLoop.Config, w: Whole, ms: seq<Move>)
    decreases |ms|
  {
    ms == [] || (Can(c, w, ms[0]) && Moves(c, Act(c, w, ms[0]), ms[1..]))
  }

  ghost function AfterMoves(c: ClosedLoop.Config, w: Whole, ms: seq<Move>): Whole
    requires Moves(c, w, ms)
    decreases |ms|
  {
    if ms == [] then w else AfterMoves(c, Act(c, w, ms[0]), ms[1..])
  }

  lemma {:induction false} MovesAreRuns(c: ClosedLoop.Config, w: Whole, ms: seq<Move>)
    requires Sound(c, w) && Moves(c, w, ms)
    ensures Sound(c, AfterMoves(c, w, ms)) && Leads(c, w.s, AfterMoves(c, w, ms).s)
    decreases |ms|
  {
    LeadsNowhere(c, w.s);
    if ms != [] {
      var w1 := Act(c, w, ms[0]);
      MoveIsStep(c, w, ms[0]);
      MoveKeepsSound(c, w, ms[0]);
      if StepOf(ms[0]).Some? { Take(c, w.s, w.s, StepOf(ms[0]).value); }
      MovesAreRuns(c, w1, ms[1..]);
      LeadsOn(c, w.s, w1.s, AfterMoves(c, w, ms).s);
    }
  }

  lemma BeginIsSound(c: ClosedLoop.Config)
    requires c.Valid()
    ensures Sound(c, Begin(c))
  {
    StartHasNoToken(c);
    assert Inv(c, Start(c));
  }

  /** From start-up, over any network, against any exchange and however stale every
      load: the states are those of the closed loop, so all that is proved of its
      runs holds; and each of the two spinning pushes succeeds at its first try. */
  lemma NoPushEverSpins(c: ClosedLoop.Config, ms: seq<Move>, seen: nat)
    requires c.Valid() && Moves(c, Begin(c), ms)
    ensures var w := AfterMoves(c, Begin(c), ms);
            && Reached(c, w.s)
            && (Can(c, w, PushOrder(seen)) ==> OrderFits(c, w.v, seen) && w.s.orderQ == [])
            && (Can(c, w, PushFill(seen)) ==> FillFits(c, w.v, seen) && w.s.fillQ == [])
  {
    BeginIsSound(c);
    MovesAreRuns(c, Begin(c), ms);
    PushesAreAccepted(c, AfterMoves(c, Begin(c), ms), seen);
  }
}
