/** The imbalance strategy over the reference book: it compares the exact
    rational imbalance with the exact rational threshold. */
module StrategySpec {
  import opened Messages
  import opened BookSpec

  const THRESHOLD_DENOMINATOR := 16384

  datatype Params = Params(g: Grid, orderSize: U32, thrNum: int) {
    /** |threshold| up to 2^16; the documented range (0, 1) is 0 <= thrNum <= 16384. */
    predicate Valid() { g.Valid() && -0x4000_0000 <= thrNum <= 0x4000_0000 }
  }

  datatype Strategy = Strategy(
    book: MapBook, position: int, inFlight: bool, lastOrderId: nat,
    ordersSent: nat, fillsSeen: nat, mdSeen: nat)

  const START := Strategy(EMPTY, 0, false, 0, 0, 0, 0)

  datatype Decision = Decision(st: Strategy, order: Option<OrderRequest>)

  ghost function BestBid(b: MapBook): U32 { LevelAt(b.bids, Highest(b.bids)) }

  ghost function BestAsk(b: MapBook): U32 { LevelAt(b.asks, Lowest(b.asks)) }

  /** (bid - ask) / (bid + ask), and 0 when there is nothing on either side. */
  function Imbalance(bid: U32, ask: U32): real {
    if bid + ask > 0 then (bid - ask) as real / (bid + ask) as real else 0.0
  }

  function Threshold(thrNum: int): real { thrNum as real / THRESHOLD_DENOMINATOR as real }

  ghost predicate WantBuy(p: Params, st: Strategy) {
    Imbalance(BestBid(st.book), BestAsk(st.book)) > Threshold(p.thrNum) && st.position <= 0
  }

  ghost predicate WantSell(p: Params, st: Strategy) {
    Imbalance(BestBid(st.book), BestAsk(st.book)) < -Threshold(p.thrNum) && st.position >= 0
  }

  /** The order a signal produces: at the touch, on the next id, tagged with the event's arrival. */
  ghost function NewOrder(p: Params, st: Strategy, ev: MdEvent, buy: bool): OrderRequest {
    OrderRequest(
      st.lastOrderId + 1, ev.arrival,
      PriceAt(p.g, if buy then Highest(st.book.bids) else Lowest(st.book.asks)),
      ev.msg.symbol, p.orderSize, if buy then BUY else SELL, ACTION_NEW)
  }

  /** What the strategy does with the book as it stands. */
  ghost function Decide(p: Params, st: Strategy, ev: MdEvent): Decision {
    if !TwoSided(st.book) || st.inFlight || !(WantBuy(p, st) || WantSell(p, st))
    then Decision(st, None)
    else
      Decision(
        st.(inFlight := true, lastOrderId := st.lastOrderId + 1, ordersSent := st.ordersSent + 1),
        Some(NewOrder(p, st, ev, WantBuy(p, st))))
  }

  ghost function OnMd(p: Params, st: Strategy, ev: MdEvent): Decision
    requires p.Valid()
  {
    Decide(p, st.(book := Apply(p.g, st.book, ev.msg), mdSeen := st.mdSeen + 1), ev)
  }

  function OnFill(st: Strategy, r: ExecReport): Strategy {
    st.(position := st.position + Signed(r.side, r.fillSize), inFlight := false,
        fillsSeen := st.fillsSeen + 1)
  }

  datatype Input = Md(ev: MdEvent) | Fill(r: ExecReport)

  datatype Outcome = Outcome(st: Strategy, orders: seq<OrderRequest>)

  ghost function React(p: Params, st: Strategy, i: Input): Outcome
    requires p.Valid()
  {
    match i
    case Md(ev) =>
      var d := OnMd(p, st, ev);
      Outcome(d.st, if d.order.Some? then [d.order.value] else [])
    case Fill(r) => Outcome(OnFill(st, r), [])
  }

  /** The orders emitted over a run of market data and fills, and the state after it. */
  ghost function Run(p: Params, st: Strategy, inputs: seq<Input>): Outcome
    requires p.Valid()
  {
    if inputs == [] then Outcome(st, [])
    else
      var before := Run(p, st, inputs[..|inputs| - 1]);
      var last := React(p, before.st, inputs[|inputs| - 1]);
      Outcome(last.st, before.orders + last.orders)
  }

  lemma RunStep(p: Params, st: Strategy, inputs: seq<Input>, i: Input)
    requires p.Valid()
    ensures var before := Run(p, st, inputs);
            var last := React(p, before.st, i);
            Run(p, st, inputs + [i]) == Outcome(last.st, before.orders + last.orders)
  {
    assert (inputs + [i])[..|inputs|] == inputs;
  }

  /** Cross-multiplying is exact: no rounding separates the integer test from the rational one. */
  lemma CrossMultiply(a: int, s: int, n: int, d: int)
    requires s > 0 && d > 0
    ensures a * d > n * s <==> a as real / s as real > n as real / d as real
  {
    var x, y := a as real / s as real, n as real / d as real;
    var sd := s as real * d as real;
    assert x * s as real == a as real && y * d as real == n as real;
    assert x * sd == (a * d) as real;
    assert y * sd == (n * s) as real;
    assert x * sd - y * sd == (x - y) * sd;
    assert (x - y) * sd > 0.0 <==> x - y > 0.0 by { PositiveFactor(x - y, sd); }
  }

  lemma PositiveFactor(z: real, f: real)
    requires f > 0.0
    ensures z * f > 0.0 <==> z > 0.0
  {
    if z > 0.0 { assert z * f > 0.0; } else { assert z * f <= 0.0; }
  }

  /** The integer tests of the hot path decide the two rational comparisons. */
  lemma SignalsExact(bid: U32, ask: U32, thrNum: int)
    requires bid + ask > 0
    ensures (bid - ask) * THRESHOLD_DENOMINATOR > thrNum * (bid + ask)
            <==> Imbalance(bid, ask) > Threshold(thrNum)
    ensures -((bid - ask) * THRESHOLD_DENOMINATOR) > thrNum * (bid + ask)
            <==> Imbalance(bid, ask) < -Threshold(thrNum)
  {
    CrossMultiply(bid - ask, bid + ask, thrNum, THRESHOLD_DENOMINATOR);
    CrossMultiply(ask - bid, bid + ask, thrNum, THRESHOLD_DENOMINATOR);
    NegateQuotient((bid - ask) as real, (bid + ask) as real);
  }

  lemma NegateQuotient(a: real, s: real)
    requires s > 0.0
    ensures (-a) / s == -(a / s)
  {
  }

  /** Buy and sell can never fire together exactly when the threshold is not negative. */
  lemma SignalsExclusiveIff(thrNum: int)
    ensures (forall bid: U32, ask: U32 ::
               !(Imbalance(bid, ask) > Threshold(thrNum) && Imbalance(bid, ask) < -Threshold(thrNum)))
            <==> thrNum >= 0
  {
    if thrNum < 0 {
      assert Imbalance(1, 1) == 0.0;
      assert Threshold(thrNum) < 0.0;
    } else {
      assert Threshold(thrNum) >= 0.0;
    }
  }

  // ---- what an order says ---------------------------------------------------------------

  /** i is the highest non-empty bid and j the lowest non-empty ask. */
  ghost predicate TouchAt(b: MapBook, i: int, j: int) {
    && i in b.bids && (forall k :: k in b.bids ==> k <= i)
    && j in b.asks && (forall k :: k in b.asks ==> j <= k)
  }

  /** More on the bids than the threshold allows, in whole numbers. */
  predicate Heavy(p: Params, here: U32, there: U32) { (here - there) * 16384 > p.thrNum * (here + there) }

  /** An order for this event over this book: a buy at the highest non-empty bid, a
      sell at the lowest non-empty ask, on the heavier side, from flat or against the
      position, tagged with the event's arrival and symbol. */
  ghost predicate AtTouch(p: Params, b: MapBook, position: int, ev: MdEvent, o: OrderRequest) {
    && o.mdTimestamp == ev.arrival && o.symbol == ev.msg.symbol && o.size == p.orderSize && o.action == 78
    && exists i, j :: TouchAt(b, i, j) &&
         if Heavy(p, b.bids[i], b.asks[j]) && position <= 0
         then o.side == 66 && o.price == p.g.base + i * p.g.tick
         else Heavy(p, b.asks[j], b.bids[i]) && position >= 0 && o.side == 83 && o.price == p.g.base + j * p.g.tick
  }

  /** The touch calls for an order at this position. */
  ghost predicate Signalled(p: Params, b: MapBook, position: int) {
    exists i, j ::
      && TouchAt(b, i, j)
      && ((Heavy(p, b.bids[i], b.asks[j]) && position <= 0) || (Heavy(p, b.asks[j], b.bids[i]) && position >= 0))
  }

  lemma TouchIsUnique(b: MapBook, i: int, j: int)
    requires TouchAt(b, i, j)
    ensures Highest(b.bids) == i && Lowest(b.asks) == j && TwoSided(b)
  {
    assert IsHighest(b.bids, i) && IsLowest(b.asks, j);
  }

  lemma WantsIff(p: Params, st: Strategy, i: int, j: int)
    requires p.Valid() && Tidy(p.g, st.book) && TouchAt(st.book, i, j)
    ensures WantBuy(p, st) <==> Heavy(p, st.book.bids[i], st.book.asks[j]) && st.position <= 0
    ensures WantSell(p, st) <==> Heavy(p, st.book.asks[j], st.book.bids[i]) && st.position >= 0
  {
    TouchIsUnique(st.book, i, j);
    SignalsExact(st.book.bids[i], st.book.asks[j], p.thrNum);
  }

  /** When an event makes the strategy send, and what it sends. */
  lemma EventSendsIff(p: Params, st: Strategy, ev: MdEvent)
    requires p.Valid() && Tidy(p.g, st.book)
    ensures var d := OnMd(p, st, ev);
            var b := d.st.book;
            && Tidy(p.g, b)
            && (d.order.Some? <==> !st.inFlight && Signalled(p, b, st.position))
            && (d.order.Some? ==> AtTouch(p, b, st.position, ev, d.order.value))
  {
    ApplyKeepsTidy(p.g, st.book, ev.msg);
    var now := st.(book := Apply(p.g, st.book, ev.msg), mdSeen := st.mdSeen + 1);
    var b := now.book;
    TouchIsExtreme(p.g, b);
    if TwoSided(b) {
      var i, j := Highest(b.bids), Lowest(b.asks);
      assert TouchAt(b, i, j);
      WantsIff(p, now, i, j);
      forall i', j' | TouchAt(b, i', j') ensures i' == i && j' == j { TouchIsUnique(b, i', j'); }
    }
  }

  lemma {:induction false} RunKeepsTidy(p: Params, inputs: seq<Input>)
    requires p.Valid()
    ensures Tidy(p.g, Run(p, START, inputs).st.book)
  {
    if inputs != [] {
      RunKeepsTidy(p, inputs[..|inputs| - 1]);
      var last := inputs[|inputs| - 1];
      if last.Md? { EventSendsIff(p, Run(p, START, inputs[..|inputs| - 1]).st, last.ev); }
    }
  }

  /** The n-th input is an event, and it sent the k-th order of the run. */
  ghost predicate SentBy(p: Params, inputs: seq<Input>, n: nat, k: nat, o: OrderRequest)
    requires p.Valid()
  {
    && n < |inputs| && inputs[n].Md?
    && var before, after := Run(p, START, inputs[..n]), Run(p, START, inputs[..n + 1]);
       && |before.orders| == k && after.orders == before.orders + [o] && !before.st.inFlight
       && AtTouch(p, after.st.book, before.st.position, inputs[n].ev, o)
  }

  /** Every order of any run was sent by an event of it, at the touch of the book as it
      stood then, one at a time. */
  lemma {:induction false} EveryOrderAtTouch(p: Params, inputs: seq<Input>, k: nat) returns (n: nat)
    requires p.Valid() && k < |Run(p, START, inputs).orders|
    ensures SentBy(p, inputs, n, k, Run(p, START, inputs).orders[k])
  {
    var front := inputs[..|inputs| - 1];
    if k < |Run(p, START, front).orders| {
      n := EveryOrderAtTouch(p, front, k);
      assert inputs[..n] == front[..n] && inputs[..n + 1] == front[..n + 1];
    } else {
      n := |front|;
      LastSends(p, inputs, k);
    }
  }

  lemma LastSends(p: Params, inputs: seq<Input>, k: nat)
    requires p.Valid() && inputs != []
    requires |Run(p, START, inputs[..|inputs| - 1]).orders| <= k < |Run(p, START, inputs).orders|
    ensures SentBy(p, inputs, |inputs| - 1, k, Run(p, START, inputs).orders[k])
  {
    var n := |inputs| - 1;
    RunKeepsTidy(p, inputs[..n]);
    if inputs[n].Md? { EventSendsIff(p, Run(p, START, inputs[..n]).st, inputs[n].ev); }
    assert inputs[..n + 1] == inputs;
  }

  function NetFills(inputs: seq<Input>): int {
    if inputs == [] then 0
    else
      var i := inputs[|inputs| - 1];
      NetFills(inputs[..|inputs| - 1])
      + if i.Fill? then (if i.r.side == 66 then i.r.fillSize as int else -(i.r.fillSize as int)) else 0
  }

  function CountMd(inputs: seq<Input>): nat {
    if inputs == [] then 0 else CountMd(inputs[..|inputs| - 1]) + if inputs[|inputs| - 1].Md? then 1 else 0
  }

  /** The position is the shares bought less those sold, the counters count, and the
      latch is set exactly while no fill has followed the last order. */
  lemma {:induction false} RunTotals(p: Params, inputs: seq<Input>)
    requires p.Valid()
    ensures var r := Run(p, START, inputs);
            && r.st.position == NetFills(inputs) && r.st.mdSeen == CountMd(inputs)
            && r.st.fillsSeen == |inputs| - CountMd(inputs) && r.st.ordersSent == |r.orders|
            && (inputs != [] && inputs[|inputs| - 1].Fill? ==> !r.st.inFlight)
            && (inputs != [] && inputs[|inputs| - 1].Md? ==>
                  (r.st.inFlight <==> |r.orders| > |Run(p, START, inputs[..|inputs| - 1]).orders|
                                      || Run(p, START, inputs[..|inputs| - 1]).st.inFlight))
  {
    if inputs != [] { RunTotals(p, inputs[..|inputs| - 1]); }
  }

  /** Only emitted orders use ids, one each and in order. */
  lemma {:induction false} RunIds(p: Params, st: Strategy, inputs: seq<Input>)
    requires p.Valid()
    ensures var r := Run(p, st, inputs);
            && r.st.lastOrderId == st.lastOrderId + |r.orders|
            && forall k :: 0 <= k < |r.orders| ==> r.orders[k].orderId == st.lastOrderId + 1 + k
  {
    if inputs != [] { RunIds(p, st, inputs[..|inputs| - 1]); }
  }
}

/** include/hft/strategy.hpp: the decision on the flat book in 64-bit integers, and the runner. */
module ImbalanceStrategy {
  import opened Bits
  import opened Messages
  import opened BookSpec
  import opened StrategySpec
  import BookView

  class ImbalanceStrategy {
    const p: Params
    const book: BookView.BookView
    var position: int
    var lastOrderId: nat
    var ordersSent: nat
    var fillsSeen: nat
    var mdSeen: nat
    var inFlight: bool

    ghost predicate Valid()
      reads this, book, book.bid, book.ask
    {
      p.Valid() && book.g == p.g && book.Valid()
    }

    ghost function View(): Strategy
      reads this, book, book.bid, book.ask
    {
      Strategy(book.View(), position, inFlight, lastOrderId, ordersSent, fillsSeen, mdSeen)
    }

    constructor (p: Params)
      requires p.Valid()
      ensures Valid() && View() == START && this.p == p
      ensures fresh(book) && fresh(book.bid) && fresh(book.ask)
    {
      this.p := p;
      book := new BookView.BookView(p.g);
      position, lastOrderId, ordersSent, fillsSeen, mdSeen, inFlight := 0, 0, 0, 0, 0, false;
    }

    /** One event: the flat book and the integer test take the reference decision.
        The declared 64-bit types of the products are part of what is proved. */
    method OnMd(ev: MdEvent) returns (order: Option<OrderRequest>)
      requires Valid()
      modifies this, book, book.bid, book.ask
      ensures Valid()
      ensures Decision(View(), order) == StrategySpec.OnMd(p, old(View()), ev)
    {
      ghost var st := View().(book := BookSpec.Apply(p.g, book.View(), ev.msg), mdSeen := mdSeen + 1);
      mdSeen := mdSeen + 1;
      book.Apply(ev.msg);
      assert View() == st;
      order := Decide(ev);
    }

    /** The touch as the strategy reads it is the touch of the reference book. */
    lemma Touch()
      requires Valid()
      ensures TwoSided(book.View()) <==> book.HasBid() && book.HasAsk()
      ensures book.HasBid() && book.HasAsk() ==>
                && BestBid(book.View()) == book.BestBidSize() > 0
                && BestAsk(book.View()) == book.BestAskSize() > 0
                && PriceAt(p.g, Highest(book.View().bids)) == book.BestBidPrice()
                && PriceAt(p.g, Lowest(book.View().asks)) == book.BestAskPrice()
    {
      book.TopOfBook();
    }

    method Decide(ev: MdEvent) returns (order: Option<OrderRequest>)
      requires Valid()
      modifies this
      ensures Valid()
      ensures Decision(View(), order) == StrategySpec.Decide(p, old(View()), ev)
    {
      Touch();
      order := None;
      if !(book.HasBid() && book.HasAsk()) { return; }
      var buy, sell := Signals(book.BestBidSize(), book.BestAskSize());
      var wantBuy := buy && position <= 0;
      var wantSell := sell && position >= 0;
      if inFlight || !(wantBuy || wantSell) { return; }
      lastOrderId := lastOrderId + 1;
      order := Some(OrderRequest(
        lastOrderId, ev.arrival, if wantBuy then book.BestBidPrice() else book.BestAskPrice(),
        ev.msg.symbol, p.orderSize, if wantBuy then BUY else SELL, ACTION_NEW));
      inFlight := true;
      ordersSent := ordersSent + 1;
    }

    method Signals(bidSize: U32, askSize: U32) returns (buy: bool, sell: bool)
      requires p.Valid() && bidSize + askSize > 0
      ensures buy <==> Imbalance(bidSize, askSize) > Threshold(p.thrNum)
      ensures sell <==> Imbalance(bidSize, askSize) < -Threshold(p.thrNum)
    {
      var diff: I64 := bidSize - askSize;
      var sum: I64 := bidSize + askSize;
      ProductFits(p.thrNum, sum);
      var lhs: I64 := diff * THRESHOLD_DENOMINATOR;
      var rhs: I64 := p.thrNum * sum;
      buy := lhs > rhs;
      sell := -lhs > rhs;
      SignalsExact(bidSize, askSize, p.thrNum);
    }

    /** The bound on the numerator is exact: the product fits 64 bits for every
        pair of level sizes if and only if the numerator is within 2^30. */
    static lemma ProductFitsIff(n: int)
      ensures (forall sum: int :: 0 <= sum <= 2 * MAX_U32 ==> FitsI64(Product(n, sum)))
              <==> -0x4000_0000 <= n <= 0x4000_0000
    {
      if -0x4000_0000 <= n <= 0x4000_0000 {
        forall sum: int | 0 <= sum <= 2 * MAX_U32 ensures FitsI64(Product(n, sum)) { ProductFits(n, sum); }
      } else {
        assert !FitsI64(Product(n, 2 * MAX_U32));
      }
    }

    static predicate FitsI64(x: int) { -0x8000_0000_0000_0000 <= x <= 0x7FFF_FFFF_FFFF_FFFF }

    static function Product(n: int, sum: int): int { n * sum }

    static lemma ProductFits(n: int, sum: int)
      requires -0x4000_0000 <= n <= 0x4000_0000 && 0 <= sum <= 2 * MAX_U32
      ensures FitsI64(Product(n, sum))
    {
      if n >= 0 {
        MulMonotone(n, 0x4000_0000, sum);
      } else {
        MulMonotone(-n, 0x4000_0000, sum);
        assert (-n) * sum == -(n * sum);
      }
    }

    method OnFill(r: ExecReport)
      requires Valid()
      modifies this
      ensures Valid() && View() == StrategySpec.OnFill(old(View()), r)
    {
      if r.side == BUY {
        position := position + r.fillSize;
      } else {
        position := position - r.fillSize;
      }
      inFlight := false;
      fillsSeen := fillsSeen + 1;
    }

    /** Any run of events and fills: the flat-book strategy emits exactly the
        orders of the reference strategy, and ends in its state. */
    method RunInputs(inputs: seq<Input>) returns (orders: seq<OrderRequest>)
      requires Valid()
      modifies this, book, book.bid, book.ask
      ensures Valid() && Outcome(View(), orders) == Run(p, old(View()), inputs)
    {
      orders := [];
      for i := 0 to |inputs|
        invariant Valid() && Outcome(View(), orders) == Run(p, old(View()), inputs[..i])
      {
        RunStep(p, old(View()), inputs[..i], inputs[i]);
        assert inputs[..i] + [inputs[i]] == inputs[..i + 1];
        match inputs[i] {
          case Md(ev) =>
            var order := OnMd(ev);
            if order.Some? { orders := orders + [order.value]; }
          case Fill(r) =>
            OnFill(r);
        }
      }
      assert inputs[..|inputs|] == inputs;
    }
  }

  function FillInputs(rs: seq<ExecReport>): seq<Input> { seq(|rs|, i requires 0 <= i < |rs| => Fill(rs[i])) }

  lemma OneMoreFill(p: Params, st: Strategy, rs: seq<ExecReport>, d: nat, now: Strategy)
    requires p.Valid() && d < |rs| && Run(p, st, FillInputs(rs[..d])) == Outcome(now, [])
    ensures Run(p, st, FillInputs(rs[..d + 1])) == Outcome(StrategySpec.OnFill(now, rs[d]), [])
    ensures rs[d..][0] == rs[d] && rs[d..][1..] == rs[d + 1..]
  {
    assert FillInputs(rs[..d + 1]) == FillInputs(rs[..d]) + [Fill(rs[d])];
    RunStep(p, st, FillInputs(rs[..d]), Fill(rs[d]));
  }

  /** The fills one poll takes off the queue when its loads show `seen` of them. */
  function Drained(fills: seq<ExecReport>, seen: nat): seq<ExecReport> {
    var n := if seen < 16 then seen else 16;
    if |fills| < n then fills else fills[..n]
  }

  /** The first sixteen at most, of what is queued and seen. */
  lemma DrainedIsPrefix(fills: seq<ExecReport>, seen: nat)
    ensures var n := |Drained(fills, seen)|;
            && Drained(fills, seen) == fills[..n]
            && n == (if seen <= 16 && seen <= |fills| then seen else if |fills| <= 16 then |fills| else 16)
  {
  }

  /** The thread's loop body, on queues taken as bounded FIFOs whose pops may miss
      what a stale load does not show.  The order push spins while it is refused;
      StaleLoop shows it never is. */
  class StrategyRunner {
    const strat: ImbalanceStrategy
    var feed: seq<MdEvent>
    var fills: seq<ExecReport>
    var orders: seq<OrderRequest>
    var ordersPushed: nat
    var processed: nat

    constructor (p: Params)
      requires p.Valid()
      ensures strat.Valid() && strat.View() == START && strat.p == p && fresh(strat)
      ensures feed == [] && fills == [] && orders == [] && ordersPushed == processed == 0
    {
      strat := new ImbalanceStrategy(p);
      feed, fills, orders, ordersPushed, processed := [], [], [], 0, 0;
    }

    /** At most sixteen queued fills, then at most one event, in queue order: of each
        queue as many as the loads of this poll show. */
    method PollOnce(seenFills: nat, seesEvent: bool) returns (busy: bool)
      requires strat.Valid()
      modifies this, strat, strat.book, strat.book.bid, strat.book.ask
      ensures strat.Valid()
      ensures busy == (|old(feed)| > 0 && seesEvent)
      ensures var md := if busy then [Md(old(feed)[0])] else [];
              var out := Run(strat.p, old(strat.View()), FillInputs(Drained(old(fills), seenFills)) + md);
              && strat.View() == out.st
              && orders == old(orders) + out.orders
              && ordersPushed == old(ordersPushed) + |out.orders|
              && fills == old(fills)[|Drained(old(fills), seenFills)|..]
              && feed == old(feed)[|md|..]
              && processed == old(processed) + |md|
    {
      ghost var st0, drained := strat.View(), Drained(fills, seenFills);
      DrainFills(seenFills);
      if |feed| == 0 || !seesEvent {
        assert FillInputs(drained) + [] == FillInputs(drained);
        return false;
      }
      RunStep(strat.p, st0, FillInputs(drained), Md(feed[0]));
      var order := strat.OnMd(feed[0]);
      feed := feed[1..];
      if order.Some? {
        orders := orders + [order.value];
        ordersPushed := ordersPushed + 1;
      }
      processed := processed + 1;
      return true;
    }

    method DrainFills(seen: nat)
      requires strat.Valid()
      modifies this`fills, strat
      ensures strat.Valid()
      ensures fills == old(fills)[|Drained(old(fills), seen)|..]
      ensures |fills| == |old(fills)| - (if seen <= 16 && seen <= |old(fills)| then seen
                                         else if |old(fills)| <= 16 then |old(fills)| else 16)
      ensures Outcome(strat.View(), []) == Run(strat.p, old(strat.View()), FillInputs(Drained(old(fills), seen)))
    {
      ghost var st0, was := strat.View(), fills;
      ghost var st := st0;
      var d := 0;
      while d < 16 && d < seen && |fills| > 0
        invariant strat.Valid() && 0 <= d <= 16 && d <= seen && d <= |was| && fills == was[d..]
        invariant strat.View() == st && Run(strat.p, st0, FillInputs(was[..d])) == Outcome(st, [])
      {
        OneMoreFill(strat.p, st0, was, d, st);
        st := StrategySpec.OnFill(st, was[d]);
        strat.OnFill(fills[0]);
        fills := fills[1..];
        d := d + 1;
      }
      assert was[..d] == Drained(was, seen);
    }
  }
}
