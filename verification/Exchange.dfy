/** The simulated exchange (include/hft/sim_exchange.hpp): a random walk of the
    top of book published as Delete/Add pairs, and immediate fills.  The random
    draws are arbitrary values of the ranges drawn from. */
module ExchangeSpec {
  import opened Messages
  import opened BookSpec

  datatype Config = Config(base: int, tick: int, symbol: U32, batch: int) {
    predicate Valid() {
      tick > 0 && -0x8000_0000_0000_0000 <= base - 1501 * tick && base + 1501 * tick <= 0x7FFF_FFFF_FFFF_FFFF
    }

    /** Messages per datagram, clamped to 1..40. */
    function Batch(): (b: nat)
      ensures 1 <= b <= 40
      ensures if batch < 1 then b == 1 else if batch <= 40 then b == batch else b == 40
    {
      if batch < 1 then 1 else if batch > 40 then 40 else batch
    }
  }

  datatype Quotes = Quotes(mid: int, bid: int, ask: int, bidSize: U32, askSize: U32)

  datatype Draw = Draw(doBid: bool, drift: int, cross: bool, size: U32) {
    predicate Valid() { -1 <= drift <= 1 && (100 <= size <= 800 || 2000 <= size <= 5000) }
  }

  function Opening(c: Config): Quotes {
    Quotes(c.base, c.base - c.tick, c.base + c.tick, 500, 500)
  }

  function Drift(c: Config, mid: int, drift: int): int {
    var m := mid + drift * c.tick;
    var lo, hi := c.base - 1500 * c.tick, c.base + 1500 * c.tick;
    if m < lo then lo else if m > hi then hi else m
  }

  /** One side moves to the drifted mid, one tick out, or one tick across it. */
  function Move(c: Config, q: Quotes, d: Draw): Quotes {
    var mid := Drift(c, q.mid, d.drift);
    var spread := if d.cross then -c.tick else c.tick;
    if d.doBid then q.(mid := mid, bid := mid - spread, bidSize := d.size)
    else q.(mid := mid, ask := mid + spread, askSize := d.size)
  }

  /** A message without its stamps. */
  datatype Change = Change(kind: Byte, side: Byte, price: int, size: U32)

  function Announce(c: Config): seq<Change> {
    var q := Opening(c);
    [Change(ADD, BUY, q.bid, q.bidSize), Change(ADD, SELL, q.ask, q.askSize)]
  }

  function Refresh(q: Quotes, q': Quotes, doBid: bool): seq<Change> {
    if doBid then [Change(DELETE, BUY, q.bid, q.bidSize), Change(ADD, BUY, q'.bid, q'.bidSize)]
    else [Change(DELETE, SELL, q.ask, q.askSize), Change(ADD, SELL, q'.ask, q'.askSize)]
  }

  function QuotesAfter(c: Config, draws: seq<Draw>): Quotes {
    if draws == [] then Opening(c)
    else Move(c, QuotesAfter(c, draws[..|draws| - 1]), draws[|draws| - 1])
  }

  /** Everything published over a run. */
  function Stream(c: Config, draws: seq<Draw>): seq<Change> {
    if draws == [] then Announce(c)
    else
      var before := draws[..|draws| - 1];
      Stream(c, before)
      + Refresh(QuotesAfter(c, before), QuotesAfter(c, draws), draws[|draws| - 1].doBid)
  }

  predicate AllValid(draws: seq<Draw>) { forall i :: 0 <= i < |draws| ==> draws[i].Valid() }

  /** The window holds every price within 1501 ticks of the starting mid. */
  ghost predicate Covers(g: Grid, c: Config)
    requires g.Valid()
  {
    forall k: int :: -1501 <= k <= 1501 ==> InWindow(g, IndexOf(g, TickPrice(c, k)))
  }

  function TickPrice(c: Config, k: int): int { c.base + k * c.tick }

  /** The mid stays within 1500 ticks of its start, the quotes within 1501, on the grid. */
  ghost predicate InBand(c: Config, q: Quotes) {
    && (exists k :: -1500 <= k <= 1500 && q.mid == TickPrice(c, k))
    && (exists k :: -1501 <= k <= 1501 && q.bid == TickPrice(c, k))
    && (exists k :: -1501 <= k <= 1501 && q.ask == TickPrice(c, k))
    && q.bidSize > 0 && q.askSize > 0
  }

  lemma NextTick(c: Config, k: int)
    ensures TickPrice(c, k + 1) == TickPrice(c, k) + c.tick && TickPrice(c, k - 1) == TickPrice(c, k) - c.tick
  {
    assert (k + 1) * c.tick == k * c.tick + c.tick;
    assert (k - 1) * c.tick == k * c.tick - c.tick;
  }

  lemma TicksAscend(c: Config, j: int, k: int)
    requires c.tick > 0 && j <= k
    ensures TickPrice(c, j) <= TickPrice(c, k)
  {
    assert (k - j) * c.tick >= 0;
  }

  /** The clamped drift lands on a tick of the band. */
  lemma DriftInTicks(c: Config, k: int, drift: int) returns (k': int)
    requires c.Valid() && -1500 <= k <= 1500 && -1 <= drift <= 1
    ensures -1500 <= k' <= 1500 && Drift(c, TickPrice(c, k), drift) == TickPrice(c, k')
  {
    NextTick(c, k);
    var m := k + drift;
    assert TickPrice(c, m) == TickPrice(c, k) + drift * c.tick;
    k' := if m < -1500 then -1500 else if m > 1500 then 1500 else m;
    TicksAscend(c, if m < -1500 then m else -1500, if m < -1500 then -1500 else m);
    TicksAscend(c, if m > 1500 then 1500 else m, if m > 1500 then m else 1500);
    if m < -1500 { NextTick(c, -1500); }
    if m > 1500 { NextTick(c, 1500); }
  }

  lemma MoveStaysInBand(c: Config, q: Quotes, d: Draw)
    requires c.Valid() && d.Valid() && InBand(c, q)
    ensures InBand(c, Move(c, q, d))
  {
    var k :| -1500 <= k <= 1500 && q.mid == TickPrice(c, k);
    var k' := DriftInTicks(c, k, d.drift);
    NextTick(c, k');
    var q' := Move(c, q, d);
    assert q'.mid == TickPrice(c, k');
    var up, down := k' + 1, k' - 1;
    assert TickPrice(c, down) == q'.mid - c.tick && TickPrice(c, up) == q'.mid + c.tick;
  }

  // ---- the walk in ticks from the starting mid -------------------------------------------

  /** The mid drifts a tick a draw at most, held within 1500 of its start. */
  function MidTick(draws: seq<Draw>): int {
    if draws == [] then 0
    else
      var k := MidTick(draws[..|draws| - 1]) + draws[|draws| - 1].drift;
      if k < -1500 then -1500 else if k > 1500 then 1500 else k
  }

  /** The last draw for this side put its quote a tick outside the mid of then, or a tick across it. */
  function QuoteTick(draws: seq<Draw>, bid: bool): int {
    if draws == [] then if bid then -1 else 1
    else
      var d := draws[|draws| - 1];
      if d.doBid != bid then QuoteTick(draws[..|draws| - 1], bid)
      else MidTick(draws) + if bid != d.cross then -1 else 1
  }

  function QuoteSize(draws: seq<Draw>, bid: bool): U32 {
    if draws == [] then 500
    else if draws[|draws| - 1].doBid == bid then draws[|draws| - 1].size
    else QuoteSize(draws[..|draws| - 1], bid)
  }

  /** Mid, quotes and sizes after any draws. */
  lemma {:induction false} QuotesInTicks(c: Config, draws: seq<Draw>)
    requires c.Valid() && AllValid(draws)
    ensures var q := QuotesAfter(c, draws);
            && -1500 <= MidTick(draws) <= 1500
            && q.mid == TickPrice(c, MidTick(draws))
            && q.bid == TickPrice(c, QuoteTick(draws, true)) && q.bidSize == QuoteSize(draws, true)
            && q.ask == TickPrice(c, QuoteTick(draws, false)) && q.askSize == QuoteSize(draws, false)
    decreases |draws|
  {
    if draws != [] {
      var front, d := draws[..|draws| - 1], draws[|draws| - 1];
      QuotesInTicks(c, front);
      MidMoves(c, MidTick(front), d.drift);
      NextTick(c, MidTick(draws));
    }
  }

  lemma MidMoves(c: Config, k: int, drift: int)
    requires c.Valid() && -1500 <= k <= 1500 && -1 <= drift <= 1
    ensures var m := k + drift;
            Drift(c, TickPrice(c, k), drift) == TickPrice(c, if m < -1500 then -1500 else if m > 1500 then 1500 else m)
  {
    NextTick(c, k);
    var m := k + drift;
    assert TickPrice(c, m) == TickPrice(c, k) + drift * c.tick;
    TicksAscend(c, if m < -1500 then m else -1500, if m < -1500 then -1500 else m);
    TicksAscend(c, if m > 1500 then 1500 else m, if m > 1500 then m else 1500);
    if m < -1500 { NextTick(c, -1500); }
    if m > 1500 { NextTick(c, 1500); }
  }

  // ---- the book at the other end ---------------------------------------------------------

  function AsMessage(x: Change, stamp: U64, symbol: U32, seqNo: U32): ItchMessage
    requires -0x8000_0000_0000_0000 <= x.price <= 0x7FFF_FFFF_FFFF_FFFF
  {
    ItchMessage(stamp, x.price, symbol, x.size, seqNo, x.kind, x.side, 0)
  }

  function Unstamped(m: ItchMessage): Change { Change(m.kind, m.side, m.price, m.size) }

  function Changes(ms: seq<ItchMessage>): seq<Change> {
    seq(|ms|, i requires 0 <= i < |ms| => Unstamped(ms[i]))
  }

  function BookOf(g: Grid, ms: seq<ItchMessage>): MapBook
    requires g.Valid()
  {
    if ms == [] then EMPTY else BookSpec.Apply(g, BookOf(g, ms[..|ms| - 1]), ms[|ms| - 1])
  }

  /** Exactly one level a side: the quote, with its size; and nothing fell outside. */
  predicate Shows(g: Grid, b: MapBook, q: Quotes)
    requires g.Valid()
  {
    && b.bids == map[IndexOf(g, q.bid) := q.bidSize]
    && b.asks == map[IndexOf(g, q.ask) := q.askSize]
    && b.outOfRange == 0
  }

  lemma TwoMore(g: Grid, ms: seq<ItchMessage>)
    requires g.Valid() && |ms| >= 2
    ensures BookOf(g, ms) ==
            BookSpec.Apply(g, BookSpec.Apply(g, BookOf(g, ms[..|ms| - 2]), ms[|ms| - 2]), ms[|ms| - 1])
  {
    var front := ms[..|ms| - 1];
    assert front[..|front| - 1] == ms[..|ms| - 2] && front[|front| - 1] == ms[|ms| - 2];
  }

  lemma RefreshShows(g: Grid, c: Config, b: MapBook, q: Quotes, q': Quotes, doBid: bool,
                     del: ItchMessage, add: ItchMessage)
    requires g.Valid() && Covers(g, c) && InBand(c, q) && InBand(c, q') && Shows(g, b, q)
    requires if doBid then q'.ask == q.ask && q'.askSize == q.askSize
             else q'.bid == q.bid && q'.bidSize == q.bidSize
    requires [Unstamped(del), Unstamped(add)] == Refresh(q, q', doBid)
    ensures Shows(g, BookSpec.Apply(g, BookSpec.Apply(g, b, del), add), q')
  {
    assert [Unstamped(del), Unstamped(add)][0] == Unstamped(del);
    assert [Unstamped(del), Unstamped(add)][1] == Unstamped(add);
    InBandShown(g, c, q);
    InBandShown(g, c, q');
    var l := if doBid then b.bids else b.asks;
    assert l - {IndexOf(g, del.price)} == map[];
  }

  lemma InBandShown(g: Grid, c: Config, q: Quotes)
    requires g.Valid() && Covers(g, c) && InBand(c, q)
    ensures InWindow(g, IndexOf(g, q.bid)) && InWindow(g, IndexOf(g, q.ask))
  {
  }

  /** After the opening adds and after every later step, a book fed everything
      published shows exactly the exchange's quotes. */
  lemma {:induction false} StreamShowsQuotes(c: Config, g: Grid, draws: seq<Draw>, ms: seq<ItchMessage>)
    requires c.Valid() && g.Valid() && Covers(g, c) && AllValid(draws)
    requires Changes(ms) == Stream(c, draws)
    ensures InBand(c, QuotesAfter(c, draws)) && Shows(g, BookOf(g, ms), QuotesAfter(c, draws))
    decreases |draws|
  {
    if draws == [] {
      OpeningShows(c, g, ms);
    } else {
      var before := draws[..|draws| - 1];
      var d := draws[|draws| - 1];
      var q, q' := QuotesAfter(c, before), QuotesAfter(c, draws);
      var n := |ms| - 2;
      SplitStream(c, draws, ms);
      StreamShowsQuotes(c, g, before, ms[..n]);
      MoveStaysInBand(c, q, d);
      TwoMore(g, ms);
      RefreshShows(g, c, BookOf(g, ms[..n]), q, q', d.doBid, ms[n], ms[n + 1]);
    }
  }

  lemma SplitStream(c: Config, draws: seq<Draw>, ms: seq<ItchMessage>)
    requires draws != [] && Changes(ms) == Stream(c, draws)
    ensures var before := draws[..|draws| - 1];
            var n := |ms| - 2;
            && n >= 0 && Changes(ms[..n]) == Stream(c, before)
            && [Unstamped(ms[n]), Unstamped(ms[n + 1])] ==
               Refresh(QuotesAfter(c, before), QuotesAfter(c, draws), draws[|draws| - 1].doBid)
  {
    var n := |ms| - 2;
    assert Changes(ms[..n]) == Changes(ms)[..n];
    assert Changes(ms)[n] == Unstamped(ms[n]) && Changes(ms)[n + 1] == Unstamped(ms[n + 1]);
  }

  lemma OpeningShows(c: Config, g: Grid, ms: seq<ItchMessage>)
    requires c.Valid() && g.Valid() && Covers(g, c) && Changes(ms) == Announce(c)
    ensures InBand(c, Opening(c)) && Shows(g, BookOf(g, ms), Opening(c))
  {
    var q := Opening(c);
    assert TickPrice(c, 0) == q.mid && TickPrice(c, -1) == q.bid && TickPrice(c, 1) == q.ask;
    InBandShown(g, c, q);
    assert Changes(ms)[0] == Unstamped(ms[0]) && Changes(ms)[1] == Unstamped(ms[1]);
    TwoMore(g, ms);
    assert ms[..0] == [];
  }

  // ---- orders -------------------------------------------------------------------------------

  /** The fill of an order: its id, tag, price, symbol, size and side come back. */
  function Echo(o: OrderRequest): ExecReport {
    ExecReport(o.orderId, o.mdTimestamp, o.price, o.symbol, o.size, o.side, STATUS_FILLED)
  }

  /** Orders at the front of the inbox. */
  function LeadingOrders(inbox: seq<Option<OrderRequest>>): (n: nat)
    ensures n <= |inbox|
  {
    if inbox == [] || inbox[0].None? then 0 else 1 + LeadingOrders(inbox[1..])
  }

  /** r is the fill of o: its own id, tag, price, symbol, size and side, filled. */
  predicate Answers(r: ExecReport, o: OrderRequest) {
    && r.orderId == o.orderId && r.mdTimestamp == o.mdTimestamp && r.fillPrice == o.price
    && r.symbol == o.symbol && r.fillSize == o.size && r.side == o.side && r.status == 70
  }

  lemma {:induction false} ServedInOrder(inbox: seq<Option<OrderRequest>>, budget: nat)
    ensures var served := Serviced(inbox, budget);
            && |served| == (if LeadingOrders(inbox) < budget then LeadingOrders(inbox) else budget)
            && forall i :: 0 <= i < |served| ==>
                 inbox[i] == Some(served[i]) && Answers(Echo(served[i]), inbox[i].value)
    decreases |inbox|
  {
    if budget > 0 && inbox != [] && inbox[0].Some? { ServedInOrder(inbox[1..], budget - 1); }
  }

  /** The orders one service turn takes: up to `budget`, ending at a datagram of another size. */
  function Serviced(inbox: seq<Option<OrderRequest>>, budget: nat): seq<OrderRequest>
    decreases |inbox|
  {
    if budget == 0 || inbox == [] || inbox[0].None? then []
    else [inbox[0].value] + Serviced(inbox[1..], budget - 1)
  }
}

module SimExchange {
  import opened Messages
  import opened BookSpec
  import opened ExchangeSpec
  import opened Frames
  import Feed = FeedHandler

  const ORDERS_PER_TURN: nat := 32

  function Joined(batches: seq<seq<ItchMessage>>): seq<ItchMessage> {
    if batches == [] then [] else Joined(batches[..|batches| - 1]) + batches[|batches| - 1]
  }

  /** Sequence numbers count the messages, wrapping at 32 bits. */
  predicate Numbered(ms: seq<ItchMessage>) {
    forall i :: 0 <= i < |ms| ==> ms[i].seqNo == i % 0x1_0000_0000
  }

  function Wrapped(n: nat): U32 { n % 0x1_0000_0000 }

  lemma NumberedAppend(ms: seq<ItchMessage>, m: ItchMessage)
    requires Numbered(ms) && m.seqNo == Wrapped(|ms|)
    ensures Numbered(ms + [m]) && (Wrapped(|ms|) + 1) % 0x1_0000_0000 == Wrapped(|ms + [m]|)
  {
  }

  class SimExchange {
    const c: Config
    var mid: int
    var bestBid: int
    var bestAsk: int
    var bidSize: U32
    var askSize: U32
    var seqNo: U32
    var dgram: seq<ItchMessage>                // frames of the datagram being filled
    var wire: seq<seq<Byte>>                   // datagrams sent
    var feedCount: nat
    var orderCount: nat
    var fillCount: nat
    ghost var emitted: seq<ItchMessage>
    ghost var batches: seq<seq<ItchMessage>>   // what each datagram carries

    /** Nothing emitted is lost, repeated or reordered between the walk and the
        datagrams, none of which exceeds the batch size. */
    ghost predicate Batching()
      reads this
    {
      Buffered() && |dgram| < c.Batch()
    }

    ghost predicate Buffered()
      reads this
    {
      && emitted == Joined(batches) + dgram && feedCount == |emitted|
      && Numbered(emitted) && seqNo == Wrapped(|emitted|)
      && (forall i :: 0 <= i < |emitted| ==> emitted[i].symbol == c.symbol)
      && |wire| == |batches| && |dgram| <= c.Batch()
      && (forall i :: 0 <= i < |wire| ==> wire[i] == Encoded(batches[i]) && 0 < |batches[i]| <= c.Batch())
    }

    ghost function View(): Quotes
      reads this
    {
      Quotes(mid, bestBid, bestAsk, bidSize, askSize)
    }

    /** The quotes and the stream are those of the draws so far. */
    ghost predicate Follows(draws: seq<Draw>)
      reads this
    {
      && c.Valid() && Batching() && AllValid(draws)
      && View() == QuotesAfter(c, draws) && InBand(c, View())
      && Changes(emitted) == Stream(c, draws)
    }

    constructor (c: Config)
      requires c.Valid()
      ensures Batching() && emitted == [] && wire == [] && View() == Opening(c) && this.c == c
      ensures orderCount == fillCount == 0
    {
      this.c := c;
      mid, bestBid, bestAsk := c.base, c.base - c.tick, c.base + c.tick;
      bidSize, askSize := 500, 500;
      seqNo, dgram, wire := 0, [], [];
      feedCount, orderCount, fillCount := 0, 0, 0;
      emitted, batches := [], [];
    }

    method Emit(kind: Byte, side: Byte, px: int, size: U32, stamp: U64)
      requires Batching() && Fits(px)
      modifies this`seqNo, this`dgram, this`wire, this`feedCount, this`emitted, this`batches
      ensures Batching() && old(wire) <= wire
      ensures emitted == old(emitted) + [AsMessage(Change(kind, side, px, size), stamp, c.symbol, old(seqNo))]
      ensures var filled := old(dgram) + [emitted[|old(emitted)|]];
              if |filled| < c.Batch() then dgram == filled && wire == old(wire)
              else dgram == [] && wire == old(wire) + [Encoded(filled)]
    {
      var m := ItchMessage(stamp, px, c.symbol, size, seqNo, kind, side, 0);
      NumberedAppend(emitted, m);
      assert (Joined(batches) + dgram) + [m] == Joined(batches) + (dgram + [m]);
      seqNo := (seqNo + 1) % 0x1_0000_0000;
      dgram := dgram + [m];
      feedCount := feedCount + 1;
      emitted := emitted + [m];
      if |dgram| >= c.Batch() { Flush(); }
    }

    method Flush()
      requires Buffered()
      modifies this`dgram, this`wire, this`batches
      ensures Batching() && dgram == []
      ensures wire == old(wire) + if old(dgram) == [] then [] else [Encoded(old(dgram))]
    {
      if |dgram| > 0 {
        wire := wire + [Encoded(dgram)];
        batches := batches + [dgram];
        assert batches[..|batches| - 1] == old(batches);
        dgram := [];
      }
    }

    /** The two opening adds. */
    method Announce(stamp: U64)
      requires c.Valid() && Batching() && emitted == [] && View() == Opening(c)
      modifies this
      ensures Follows([]) && dgram == [] && View() == old(View())
    {
      EmitOpening(stamp);
      Flush();
      Opened(c, emitted);
    }

    method EmitOpening(stamp: U64)
      requires Batching() && emitted == [] && Fits(bestBid) && Fits(bestAsk)
      modifies this`seqNo, this`dgram, this`wire, this`feedCount, this`emitted, this`batches
      ensures Batching() && |emitted| == 2
      ensures [Unstamped(emitted[0]), Unstamped(emitted[1])] ==
              [Change(ADD, BUY, bestBid, bidSize), Change(ADD, SELL, bestAsk, askSize)]
    {
      Emit(ADD, BUY, bestBid, bidSize, stamp);
      Emit(ADD, SELL, bestAsk, askSize, stamp);
    }

    static lemma Opened(c: Config, ms: seq<ItchMessage>)
      requires c.Valid() && |ms| == 2 && [Unstamped(ms[0]), Unstamped(ms[1])] == ExchangeSpec.Announce(c)
      ensures Changes(ms) == Stream(c, []) && InBand(c, Opening(c))
    {
      var q := Opening(c);
      assert TickPrice(c, 0) == q.mid && TickPrice(c, -1) == q.bid && TickPrice(c, 1) == q.ask;
      assert Changes(ms) == [Unstamped(ms[0]), Unstamped(ms[1])];
    }

    /** One turn of the walk, for any draw. */
    method Step(d: Draw, stamp: U64, ghost draws: seq<Draw>)
      requires Follows(draws) && d.Valid()
      modifies this
      ensures Follows(draws + [d])
    {
      ghost var q, was := View(), emitted;
      StepFits(c, draws, d);
      Walk(d.drift);
      Republish(d, stamp);
      assert View() == Move(c, q, d);
      StreamGrows(c, draws, d, was, emitted);
    }

    method Walk(drift: int)
      modifies this`mid
      ensures mid == Drift(c, old(mid), drift)
    {
      mid := mid + drift * c.tick;
      var lo, hi := c.base - 1500 * c.tick, c.base + 1500 * c.tick;
      if mid < lo {
        mid := lo;
      } else if mid > hi {
        mid := hi;
      }
    }

    /** One side moves one tick out from the mid, or one across it. */
    method Republish(d: Draw, stamp: U64)
      requires Batching()
      requires var spread := if d.cross then -c.tick else c.tick;
               if d.doBid then Fits(bestBid) && Fits(mid - spread) else Fits(bestAsk) && Fits(mid + spread)
      modifies this`seqNo, this`dgram, this`wire, this`feedCount, this`emitted, this`batches,
               this`bestBid, this`bidSize, this`bestAsk, this`askSize
      ensures Batching()
      ensures var spread := if d.cross then -c.tick else c.tick;
              View() == if d.doBid then old(View()).(bid := mid - spread, bidSize := d.size)
                        else old(View()).(ask := mid + spread, askSize := d.size)
      ensures Adds(old(emitted), emitted, Refresh(old(View()), View(), d.doBid))
    {
      var spread := if d.cross then -c.tick else c.tick;
      if d.doBid {
        RepublishBid(mid - spread, d.size, stamp);
      } else {
        RepublishAsk(mid + spread, d.size, stamp);
      }
    }

    method RepublishBid(px: int, size: U32, stamp: U64)
      requires Batching() && Fits(bestBid) && Fits(px)
      modifies this`seqNo, this`dgram, this`wire, this`feedCount, this`emitted, this`batches,
               this`bestBid, this`bidSize
      ensures Batching() && View() == old(View()).(bid := px, bidSize := size)
      ensures Adds(old(emitted), emitted, Refresh(old(View()), View(), true))
    {
      Requote(BUY, bestBid, bidSize, px, size, stamp);
      bestBid := px;
      bidSize := size;
    }

    method RepublishAsk(px: int, size: U32, stamp: U64)
      requires Batching() && Fits(bestAsk) && Fits(px)
      modifies this`seqNo, this`dgram, this`wire, this`feedCount, this`emitted, this`batches,
               this`bestAsk, this`askSize
      ensures Batching() && View() == old(View()).(ask := px, askSize := size)
      ensures Adds(old(emitted), emitted, Refresh(old(View()), View(), false))
    {
      Requote(SELL, bestAsk, askSize, px, size, stamp);
      bestAsk := px;
      askSize := size;
    }

    /** Delete the old level of a side, then add the new one. */
    method Requote(side: Byte, oldPx: int, oldSize: U32, px: int, size: U32, stamp: U64)
      requires Batching() && Fits(oldPx) && Fits(px)
      modifies this`seqNo, this`dgram, this`wire, this`feedCount, this`emitted, this`batches
      ensures Batching()
      ensures Adds(old(emitted), emitted, [Change(DELETE, side, oldPx, oldSize), Change(ADD, side, px, size)])
    {
      Emit(DELETE, side, oldPx, oldSize, stamp);
      Emit(ADD, side, px, size, stamp);
    }

    /** Two more messages, which say these two things. */
    static predicate Adds(was: seq<ItchMessage>, now: seq<ItchMessage>, news: seq<Change>) {
      && |now| == |was| + 2 && now[..|was|] == was
      && [Unstamped(now[|was|]), Unstamped(now[|was| + 1])] == news
    }

    static predicate Fits(px: int) { -0x8000_0000_0000_0000 <= px <= 0x7FFF_FFFF_FFFF_FFFF }

    static lemma StreamGrows(c: Config, draws: seq<Draw>, d: Draw, was: seq<ItchMessage>, now: seq<ItchMessage>)
      requires Changes(was) == Stream(c, draws)
      requires var q := QuotesAfter(c, draws);
               Adds(was, now, Refresh(q, Move(c, q, d), d.doBid))
      ensures Changes(now) == Stream(c, draws + [d])
      ensures QuotesAfter(c, draws + [d]) == Move(c, QuotesAfter(c, draws), d)
    {
      assert (draws + [d])[..|draws|] == draws;
      assert Changes(now) == Changes(was) + [Unstamped(now[|was|]), Unstamped(now[|was| + 1])];
    }

    static lemma StepFits(c: Config, draws: seq<Draw>, d: Draw)
      requires c.Valid() && d.Valid() && InBand(c, QuotesAfter(c, draws))
      ensures var q := QuotesAfter(c, draws);
              var q' := Move(c, q, d);
              InBand(c, q') && Fits(q.bid) && Fits(q.ask) && Fits(q'.bid) && Fits(q'.ask)
    {
      var q := QuotesAfter(c, draws);
      MoveStaysInBand(c, q, d);
      PricesFit(c, q);
      PricesFit(c, Move(c, q, d));
    }

    static lemma PricesFit(c: Config, q: Quotes)
      requires c.Valid() && InBand(c, q)
      ensures Fits(q.bid) && Fits(q.ask)
    {
      var i :| -1501 <= i <= 1501 && q.bid == TickPrice(c, i);
      var j :| -1501 <= j <= 1501 && q.ask == TickPrice(c, j);
      TicksAscend(c, -1501, i);
      TicksAscend(c, i, 1501);
      TicksAscend(c, -1501, j);
      TicksAscend(c, j, 1501);
    }

    /** Answers waiting orders, one fill each, in order. */
    method ServiceOrders(inbox: seq<Option<OrderRequest>>) returns (reports: seq<ExecReport>)
      modifies this`orderCount, this`fillCount
      ensures |reports| == if LeadingOrders(inbox) < 32 then LeadingOrders(inbox) else 32
      ensures forall i :: 0 <= i < |reports| ==> inbox[i].Some? && Answers(reports[i], inbox[i].value)
      ensures orderCount == old(orderCount) + |reports| && fillCount == old(fillCount) + |reports|
    {
      ServedInOrder(inbox, ORDERS_PER_TURN);
      reports := AnswerOrders(inbox);
    }

    method AnswerOrders(inbox: seq<Option<OrderRequest>>) returns (reports: seq<ExecReport>)
      modifies this`orderCount, this`fillCount
      ensures var served := Serviced(inbox, ORDERS_PER_TURN);
              && |reports| == |served| && (forall i :: 0 <= i < |reports| ==> reports[i] == Echo(served[i]))
              && orderCount == old(orderCount) + |served| && fillCount == old(fillCount) + |served|
    {
      reports := [];
      var d, rest := 0, inbox;
      ghost var done := [];
      while d < ORDERS_PER_TURN && rest != [] && rest[0].Some?
        invariant d == |reports| == |done| <= ORDERS_PER_TURN
        invariant done + Serviced(rest, ORDERS_PER_TURN - d) == Serviced(inbox, ORDERS_PER_TURN)
        invariant forall i :: 0 <= i < |reports| ==> reports[i] == Echo(done[i])
        invariant orderCount == old(orderCount) + d && fillCount == old(fillCount) + d
        decreases |rest|
      {
        var ord := rest[0].value;
        orderCount := orderCount + 1;
        reports := reports + [ExecReport(ord.orderId, ord.mdTimestamp, ord.price, ord.symbol,
                                         ord.size, ord.side, STATUS_FILLED)];
        fillCount := fillCount + 1;
        done := done + [ord];
        d, rest := d + 1, rest[1..];
      }
    }
  }

  // ---- from the walk to the strategy's book -------------------------------------------------

  /** What a feed handler reads from datagrams that arrive in order. */
  function Read(datagrams: seq<seq<Byte>>): seq<ItchMessage> {
    if datagrams == [] then []
    else Read(datagrams[..|datagrams| - 1]) + Parsed(Feed.FeedHandler.Cut(datagrams[|datagrams| - 1]))
  }

  /** Batching then reading is lossless: no datagram is cut by the receive buffer. */
  lemma {:induction false} ReadIsJoined(datagrams: seq<seq<Byte>>, batches: seq<seq<ItchMessage>>)
    requires |datagrams| == |batches|
    requires forall i :: 0 <= i < |datagrams| ==> datagrams[i] == Encoded(batches[i]) && |batches[i]| <= 40
    ensures Read(datagrams) == Joined(batches)
    decreases |datagrams|
  {
    if datagrams != [] {
      var n := |datagrams| - 1;
      ReadIsJoined(datagrams[..n], batches[..n]);
      BatchRoundTrip(batches[n], []);
      assert Encoded(batches[n]) + [] == datagrams[n];
    }
  }

  /** For any draws, batch size and window that covers the band: once the stream
      is flushed, a book fed the messages read from the datagrams shows exactly
      the exchange's current quotes. */
  lemma QuotesReachTheBook(x: SimExchange, draws: seq<Draw>, g: Grid)
    requires x.Follows(draws) && x.dgram == [] && g.Valid() && Covers(g, x.c)
    ensures Read(x.wire) == x.emitted
    ensures Shows(g, BookOf(g, Read(x.wire)), x.View())
  {
    ReadIsJoined(x.wire, x.batches);
    assert Joined(x.batches) + [] == Joined(x.batches);
    StreamShowsQuotes(x.c, g, draws, x.emitted);
  }
}
