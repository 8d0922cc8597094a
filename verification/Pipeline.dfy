/** The market-data path end to end: exchange, datagrams, feed handler, ring,
    strategy. */
module Pipeline {
  import opened Messages
  import opened BookSpec
  import opened ExchangeSpec
  import opened SimExchange
  import Feed = FeedHandler
  import Strat = StrategySpec

  /** The market-data events among the strategy's inputs, in order. */
  function EventsIn(inputs: seq<Strat.Input>): seq<MdEvent> {
    if inputs == [] then []
    else
      var last := inputs[|inputs| - 1];
      EventsIn(inputs[..|inputs| - 1]) + if last.Md? then [last.ev] else []
  }

  function MessagesOf(evs: seq<MdEvent>): seq<ItchMessage> {
    seq(|evs|, i requires 0 <= i < |evs| => evs[i].msg)
  }

  lemma MessagesAppend(xs: seq<MdEvent>, ys: seq<MdEvent>)
    ensures MessagesOf(xs + ys) == MessagesOf(xs) + MessagesOf(ys)
  {
  }

  lemma BookAppend(g: Grid, ms: seq<ItchMessage>, m: ItchMessage)
    requires g.Valid()
    ensures BookOf(g, ms + [m]) == BookSpec.Apply(g, BookOf(g, ms), m)
  {
    assert (ms + [m])[..|ms|] == ms;
  }

  /** However events and fills interleave, the strategy's book is that of its events. */
  lemma {:induction false} BookOfRun(p: Strat.Params, inputs: seq<Strat.Input>)
    requires p.Valid()
    ensures Strat.Run(p, Strat.START, inputs).st.book == BookOf(p.g, MessagesOf(EventsIn(inputs)))
    decreases |inputs|
  {
    if inputs != [] {
      var front, last := inputs[..|inputs| - 1], inputs[|inputs| - 1];
      BookOfRun(p, front);
      if last.Md? {
        MessagesAppend(EventsIn(front), [last.ev]);
        BookAppend(p.g, MessagesOf(EventsIn(front)), last.ev.msg);
        assert MessagesOf([last.ev]) == [last.ev.msg];
      } else {
        assert EventsIn(inputs) == EventsIn(front);
      }
    }
  }

  /** The datagrams as the feed handler's polls find them. */
  function Deliveries(wire: seq<seq<Byte>>, stamps: seq<U64>): seq<Feed.Inbound>
    requires |stamps| == |wire|
  {
    seq(|wire|, i requires 0 <= i < |wire| => Feed.Datagram(wire[i], stamps[i]))
  }

  lemma {:induction false} ArrivalsAreRead(wire: seq<seq<Byte>>, stamps: seq<U64>)
    requires |stamps| == |wire|
    ensures MessagesOf(Feed.Arrivals(Deliveries(wire, stamps))) == Read(wire)
    decreases |wire|
  {
    if wire != [] {
      var n := |wire| - 1;
      var ds := Deliveries(wire, stamps);
      ArrivalsAreRead(wire[..n], stamps[..n]);
      assert ds[..n] == Deliveries(wire[..n], stamps[..n]);
      MessagesAppend(Feed.Arrivals(ds[..n]), Feed.EventsOf(ds[n]));
      var ms := Frames.Parsed(Feed.FeedHandler.Cut(wire[n]));
      assert MessagesOf(Feed.Stamped(ms, stamps[n])) == ms;
    }
  }

  /** An order at the touch of a book that shows the quotes: a buy is at the index of
      the bid and a sell at that of the ask, and at the very quote if the grid has it. */
  ghost predicate AtQuote(g: Grid, q: Quotes, o: OrderRequest)
    requires g.Valid()
  {
    var quote := if o.side == 66 then q.bid else q.ask;
    && (o.side == 66 || o.side == 83)
    && o.price == g.base + IndexOf(g, quote) * g.tick
    && (forall i :: InWindow(g, i) && quote == PriceAt(g, i) ==> o.price == quote)
  }

  lemma TouchIsQuote(p: Strat.Params, b: MapBook, q: Quotes, position: int, ev: MdEvent, o: OrderRequest)
    requires p.Valid() && Shows(p.g, b, q) && Strat.AtTouch(p, b, position, ev, o)
    ensures AtQuote(p.g, q, o)
  {
    var quote := if o.side == 66 then q.bid else q.ask;
    forall i | InWindow(p.g, i) && quote == PriceAt(p.g, i) ensures IndexOf(p.g, quote) == i { AlignedIndex(p.g, i); }
  }

  /** On the exchange's stream: an order that the latest event sends carries the
      exchange's best bid if it is a buy and its best ask if it is a sell, the arrival
      of that event and its symbol. */
  lemma OrderCarriesQuote(x: SimExchange, p: Strat.Params, inputs: seq<Strat.Input>, k: nat)
    requires p.Valid() && inputs != []
    requires Shows(p.g, Strat.Run(p, Strat.START, inputs).st.book, x.View())
    requires |Strat.Run(p, Strat.START, inputs[..|inputs| - 1]).orders| <= k
    requires k < |Strat.Run(p, Strat.START, inputs).orders|
    ensures var o, last := Strat.Run(p, Strat.START, inputs).orders[k], inputs[|inputs| - 1];
            && AtQuote(p.g, x.View(), o)
            && last.Md? && o.mdTimestamp == last.ev.arrival && o.symbol == last.ev.msg.symbol
  {
    var n := |inputs| - 1;
    Strat.LastSends(p, inputs, k);
    var o := Strat.Run(p, Strat.START, inputs).orders[k];
    assert inputs[..n + 1] == inputs;
    TouchIsQuote(p, Strat.Run(p, Strat.START, inputs).st.book, x.View(),
                 Strat.Run(p, Strat.START, inputs[..n]).st.position, inputs[n].ev, o);
  }

  const IDLE := Feed.Tally(Feed.Line([], [], 0, 0), 0, 0, 0)

  /** For any draws, batch size, ring capacity and arrival times, and any fills in
      between: if in every round of tries some pop is made and shown, then a strategy
      that has taken all that got into the ring holds exactly the exchange's quotes. */
  lemma QuotesReachTheStrategy(x: SimExchange, draws: seq<Draw>, p: Strat.Params, cap: nat, peer: Feed.Peer,
                               stamps: seq<U64>, inputs: seq<Strat.Input>)
    requires x.Follows(draws) && x.dgram == [] && p.Valid() && Covers(p.g, x.c) && |stamps| == |x.wire|
    requires 0 < cap && forall n: nat :: Feed.Shown(peer, false, n, Feed.SPIN_LIMIT)
    requires EventsIn(inputs) ==
             Feed.Handled(cap, peer, IDLE, Feed.Arrivals(Deliveries(x.wire, stamps))).line.Through()
    ensures Shows(p.g, Strat.Run(p, Strat.START, inputs).st.book, x.View())
  {
    var evs := Feed.Arrivals(Deliveries(x.wire, stamps));
    Feed.NothingDropped(cap, peer, IDLE, evs);
    assert IDLE.line.Through() + evs == evs;
    BookOfRun(p, inputs);
    ArrivalsAreRead(x.wire, stamps);
    QuotesReachTheBook(x, draws, p.g);
  }
}
