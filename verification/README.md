# A verified model of the trading pipeline

The repository is a three-thread trading engine: a feed handler, a strategy and an
order gateway joined by lock-free rings, with a flat-array order book, a Nasdaq
TotalView-ITCH 5.0 decoder, a pre-trade risk gate with a GCRA rate limiter, a
log-linear latency histogram and a simulated exchange. This project models each of
them in Dafny and proves what they are for.

Every component that updates its fields in place is a class here. Its methods follow
the source branch by branch and are proved against a specification on values, and the
specification is what the theorems are about.

| file | models | main results |
|---|---|---|
| `SpscProtocol.dfy`, `SpscQueue.dfy` | the ring, as a two-thread protocol of single loads, tests, slot accesses and stores, and as the object | every interleaving, stale loads included, is race-free and a run of a bounded FIFO |
| `ClosedLoop.dfy` | strategy, order queue, gateway, exchange, fill queue over a network that loses, repeats and reorders | at most one order or fill in play; exact positions; each id filled at most once |
| `StaleLoop.dfy` | the closed loop on rings whose positions are loaded stale | its states are those of the closed loop; both spinning pushes succeed at the first try |
| `Engine.dfy` | the strategy runner and the gateway as objects taking turns | each poll is a run of the closed loop, so its theorems hold of the objects |
| `Strategy.dfy`, `Gateway.dfy`, `RiskGate.dfy` | the three objects in that loop | integer signals equal the rational ones; GCRA is a token bucket; the exact condition under which the position limit holds; no order fills twice |
| `Book.dfy` | the flat book | it equals a map from tick index to size, with the touch cached |
| `Itch50.dfy`, `Replay.dfy` | framing, decoder, and decoder plus book over a file | cut-anywhere round trip; the exact condition under which levels equal the sum of live shares, for any message and any stream |
| `LiveOrders.dfy` | the decoder's live orders, told from the messages alone | which references are live after any stream; what counts as unknown |
| `Histogram.dfy` | index arithmetic, recording, percentiles, merge | index and bucket top are exact inverses; percentiles against order statistics; merge is union |
| `Feed.dfy`, `Exchange.dfy` | the engine's frames, the feed stage, the exchange | frames are lossless; a book fed the stream shows exactly the exchange's quotes |
| `Pipeline.dfy` | exchange, datagrams, feed handler, ring and strategy end to end | the strategy's own book shows exactly the exchange's quotes |
| `Bits.dfy`, `Messages.dfy` | masks, shifts and leading bits; the message records | |

## How to read the model

- Integers are unbounded. Where a width decides the result it is written out: the
  saturating 32-bit level sizes, the narrowing of a tick index to `int`, truncating
  division, the 64-bit products of the strategy's test, the 32-bit sequence number and
  sub-bucket index, the end of the 64-bit range in the histogram.
- The queue positions, `tat_`, the counters, the positions and the histogram's totals
  are taken not to wrap, as the ring's comments assume for its own positions
  (include/hft/spsc_queue.hpp:11-13).
- Time is a natural number passed in by the caller. The interval per token and the
  threshold numerator are integers; their conversion from floating point is outside the
  model.
- In the strategy, the gateway and the feed handler a ring is a sequence. That is what
  `SpscProtocol.EveryRunIsFifo` allows: a pop yields the oldest value, and a refusal
  changes nothing. Loads may be stale throughout: how many fills, whether an event and
  whether an order is shown to a poll are parameters of it; the feed handler's bounded
  spin runs against a ring of any capacity, a consumer that takes any number of events
  before each try, and loads that show any part of its pops (`FeedHandler.TryIsPush` ties
  one such try to a push of the protocol); and `StaleLoop` puts the acquire loads of the
  order and fill rings, and what a published position brings with it, into the closed loop.
  `ClosedLoop` itself has queues that refuse a push only when full; by
  `StaleLoop.NoPushEverSpins` the stale rings add no state to it.
- Random draws of the exchange are arbitrary values of the ranges drawn from.

## What the code does differently from what is said of it

- The limiter lets one order more than its depth through at once: a rested limiter
  accepts max(burst, 1) + 1 simultaneous orders, though the field is documented as the
  orders allowed back-to-back (include/hft/risk_gate.hpp:46). `RiskSpec.BurstAdmitsOneMore`
  gives the exact count, and the bucket in `RiskSpec.GcraIsTokenBucket` has that depth.
- "genuinely full" (include/hft/spsc_queue.hpp:93) and "genuinely empty"
  (include/hft/spsc_queue.hpp:71) are true of the position that was loaded. An acquire
  load may be stale, and then a ring with room can refuse a push, and a ring with values
  a pop. `SpscProtocol.StepRefinesFifo` says exactly which steps those are,
  `SpscProtocol.SpuriousRefusalIff` and `SpscProtocol.SpuriousEmptyIff` in which states
  they can occur, and `SpscProtocol.StaleRefusalIsReachable` and
  `SpscProtocol.StaleEmptyIsReachable` give runs.
- `size_approx` loads the producer's position before the consumer's. The two threads of
  the ring always get a size within the capacity; a third thread does, for any loads it
  may make, exactly when the consumer position it loads does not pass the producer's
  (`SpscProtocol.SizeSeenByOthersIff`), and otherwise a number near 2^64
  (`SpscProtocol.WrappedSizeIsReachable`).
- The gate checks the projected position against fills only. Two accepted orders that
  are both out can fill past the limit (`RiskSpec.OutstandingOrderEscapesLimit`). For any
  accepted orders that are out, the limit holds whatever of them fills, in whatever order,
  if and only if the position plus all their buys and the position less all their sells
  are inside it (`RiskSpec.LimitHoldsIff`, `RiskSpec.AcceptedOrdersFitIff`); for a single
  order acceptance is enough (`RiskSpec.AcceptanceIsEnoughAlone`), and the strategy keeps
  one order in flight (`ClosedLoop.PositionsAgree`).
- The strategy's latch is cleared only by a fill. When the gate refuses an order the
  strategy never sends another (`ClosedLoop.RejectionIsFinal`), and refusal is the only
  step that leads there (`ClosedLoop.SilencedOnlyByRejection`).
- A fill's status byte is never looked at: any matched report clears the latch and moves
  the position by its size, also one that says "rejected" (include/hft/strategy.hpp:98-106,
  include/hft/risk_gate.hpp:101-106). `ClosedLoop.StatusIsIgnored` and
  `ClosedLoop.StatusesNeverMatter` state it for one report and for whole runs, and
  `ClosedLoop.RejectedReportIsReachable` gives a run in which a rejected order ends as a
  position.
- An ITCH Add on a live reference, a Replace onto one, and a Replace of an unknown order
  (which is recorded as a buy without any level change) can make the book and the live
  orders disagree, and so can a level sum past 32 bits. `Conservation.MessageConservesIff`
  gives the exact condition for every message, with no hypothesis on references or sums,
  and `Conservation.StreamConservesIff` for every stream. A message that breaks both rules
  can still be exact (`Conservation.OverwriteCanBeExact`).
- Level sizes saturate at 2^32 - 1; the map in the differential test wraps instead
  (tests/test_book.cpp:18-50). The reference book here saturates. With sound references a
  message keeps the levels exact if and only if its sums fit 32 bits, and with sums that
  fit if and only if its references are sound (`Conservation.ExactIffSound`).
- Prices outside the window are said to be counted and ignored
  (include/hft/book_view.hpp:26-28) and never folded back into a valid index
  (tests/test_book.cpp:356-358). The code folds two kinds of them back: truncation takes
  a price less than one tick below the base to index 0, and narrowing takes a price a
  multiple of 2^32 ticks away to the same index. `BookSpec.HoldsPriceIff` gives all the
  prices an index holds, `BookSpec.OutsideIsIgnoredIff` when a price outside the window is
  ignored, and `BookSpec.FarPriceHitsLevel` a Delete far outside the window that empties a
  resting level and is not counted.
- `record_n` with a count of zero still moves the maximum and the minimum.
  `HistogramSpec.ZeroCountIff` says when that is harmless.
- The decoder reads an eleven-byte header before it compares the length
  (include/hft/itch50.hpp:200-206), so a short body at the end of a file is read past
  its end: the file 0, 1, 65 is one (`Replay.ShortBodyIsOverread`). All header reads of a
  file stay inside it if and only if its last whole body and what is left behind it are
  eleven bytes or more (`Replay.HeadersReadableIff`). `Decoder.Apply` therefore requires
  eleven readable bytes for any non-empty body, and a file is replayed under that
  condition.
- "Buy and sell are mutually exclusive" (include/hft/strategy.hpp:74-75) holds exactly for
  a threshold that is not negative (`StrategySpec.SignalsExclusiveIff`).

## Model

| member | source | states |
|---|---|---|
| SpscProtocol.InitInv | include/hft/spsc_queue.hpp:101-109 | the empty ring satisfies the protocol invariant: cached positions conservative, occupancy within capacity, live slots hold exactly the unpopped values in order, no race |
| SpscProtocol.WriteKeepsInv | include/hft/spsc_queue.hpp:95 | the producer's plain store is ordered after the pop that freed the slot and hits no live slot |
| SpscProtocol.MoveKeepsInv | include/hft/spsc_queue.hpp:73 | the consumer's plain move is ordered after the push that filled the slot and disturbs no other live slot |
| SpscProtocol.ProducerKeepsInv | include/hft/spsc_queue.hpp:88-98 | loads, tests and publication of the producer keep the invariant, for any value an acquire load may return |
| SpscProtocol.ConsumerKeepsInv | include/hft/spsc_queue.hpp:66-76 | the same for the consumer |
| SpscProtocol.StepKeepsInv | include/hft/spsc_queue.hpp:66-98 | every micro-step of either thread keeps the invariant |
| SpscProtocol.SlotsAreExclusive | include/hft/spsc_queue.hpp:26-29 | a pending or unpublished store and a pending or unpublished move are never on the same slot |
| SpscProtocol.StepRefinesFifo | include/hft/spsc_queue.hpp:66-98 | each step acts on the contents as the bounded queue does, and is a legal step of it if and only if it is not a refusal taken on a stale load |
| SpscProtocol.SpuriousRefusalIff | include/hft/spsc_queue.hpp:89-93 | a push can be refused with room left exactly when the consumer has moved past what the producer last acquired |
| SpscProtocol.SpuriousEmptyIff | include/hft/spsc_queue.hpp:67-72 | a pop can find a ring empty that holds values exactly when the producer has moved past what the consumer last acquired |
| SpscProtocol.RunRefines | include/hft/spsc_queue.hpp:66-98 | a whole run from any reachable state is a run of the bounded FIFO |
| SpscProtocol.RunHistory | include/hft/spsc_queue.hpp:66-98 | the values recorded as pushed and popped are those of the successful calls, in order |
| SpscProtocol.EveryRunIsFifo | include/hft/spsc_queue.hpp:1-30 | for every interleaving from the empty ring: no race, pushed values equal popped values followed by the contents, occupancy within capacity; with current loads every refusal is due |
| SpscProtocol.StaleRefusalIsReachable | include/hft/spsc_queue.hpp:92-93 | a run in which a ring of two that holds one value refuses a push |
| SpscProtocol.StaleEmptyIsReachable | include/hft/spsc_queue.hpp:70-71 | a run in which a ring that holds one value refuses a pop |
| SpscProtocol.CallsReturnTheirEvents | include/hft/spsc_queue.hpp:66-98 | over any run each thread's calls return, call by call, what their events showed: a refusal is returned exactly when it was decided at the reload, save one decided and not yet returned |
| SpscProtocol.SizeSeenByProducer | include/hft/spsc_queue.hpp:79-83 | asked by the producer, for any stale load and any consumer steps meanwhile: at least the true size and at most the capacity |
| SpscProtocol.SizeSeenByConsumer | include/hft/spsc_queue.hpp:79-83 | asked by the consumer: at most the true size |
| SpscProtocol.SizeSeenByOthersIff | include/hft/spsc_queue.hpp:79-83 | asked by a third thread, for any coherent pair of loads, however stale: within the capacity if and only if the consumer position does not pass the producer position |
| SpscProtocol.CurrentSizeIff | include/hft/spsc_queue.hpp:79-83 | with current loads: if and only if the consumer has not overtaken the position first loaded |
| SpscProtocol.ViewAtBounds | include/hft/spsc_queue.hpp:89-96 | what the producer had acquired when it published a position was within a capacity of it, and never ahead of the consumer |
| SpscProtocol.PushAttempt | include/hft/spsc_queue.hpp:88-98 | a whole push, for any position its load may return: accepted if and only if the cached or else the loaded position leaves room; then the value is appended |
| SpscProtocol.PopAttempt | include/hft/spsc_queue.hpp:66-76 | a whole pop, likewise: yields the oldest value if and only if the cached or else the loaded position shows one |
| SpscProtocol.WrappedSizeIsReachable | include/hft/spsc_queue.hpp:79-83 | a run in which an empty ring is reported to hold 2^64 - 1 values |
| SpscQueue.SpscQueue.constructor | include/hft/spsc_queue.hpp:53 | the new ring is empty and has its capacity in slots |
| SpscQueue.SpscQueue.Push | include/hft/spsc_queue.hpp:61-62 | from one thread of control: accepted if and only if not full; the contents gain the value at the end, else stay |
| SpscQueue.SpscQueue.FindRoom | include/hft/spsc_queue.hpp:89-94 | the cached test and the reload decide fullness exactly, and are the protocol's steps |
| SpscQueue.SpscQueue.Store | include/hft/spsc_queue.hpp:95-96 | masked store and publication append the value |
| SpscQueue.SpscQueue.Pop | include/hft/spsc_queue.hpp:66-76 | yields the oldest value if and only if not empty, and removes just that |
| SpscQueue.SpscQueue.FindItem | include/hft/spsc_queue.hpp:67-72 | the cached test and the reload decide emptiness exactly |
| SpscQueue.SpscQueue.Take | include/hft/spsc_queue.hpp:73-75 | the masked slot holds the oldest value; publishing removes it |
| ClosedLoop.StartHasNoToken | include/hft/strategy.hpp:117-126 | at start nothing is in play |
| ClosedLoop.EventShape | include/hft/strategy.hpp:57-95 | an event emits at most one order, only with the latch clear, on the next id, and only one that opens from flat or reduces the position |
| ClosedLoop.StepKeepsToken | include/hft/strategy.hpp:76-106 | every step of strategy, gateway, exchange or network keeps: orders plus live slots plus fills at most 1, and 0 while the latch is clear |
| ClosedLoop.DispatchKeepsIds | include/hft/order_gateway.hpp:75-91 | sending or dropping an order keeps the wire's ids increasing and the matched ids among them |
| ClosedLoop.ReceiveKeepsIds | include/hft/order_gateway.hpp:117-130 | any report at all, repeated or stale, keeps each id matched at most once |
| ClosedLoop.StepKeepsInv | include/hft/order_gateway.hpp:69-130 | token and id invariants are kept by every step |
| ClosedLoop.DispatchKeepsMoney | include/hft/risk_gate.hpp:68-80 | a strategy order passes the size and position checks, and the sent order still flattens or opens one unit |
| ClosedLoop.ReceiveKeepsMoney | include/hft/order_gateway.hpp:119-126 | with an echoing exchange the fill that matches is the fill of the one live order, in spite of aliasing slots |
| ClosedLoop.StepKeepsMoney | include/hft/strategy.hpp:98-106 | every step keeps gate position equal to strategy position plus fills on their way, the position in {-s, 0, s}, and no size or position reject |
| ClosedLoop.StepKeepsAgree | include/hft/order_gateway.hpp:119-126 | every step, against any exchange, keeps the gate's position equal to the strategy's plus fills on their way |
| ClosedLoop.StepSendsNothing | include/hft/risk_gate.hpp:68-80 | with an order size outside the limits every step leaves the wire empty and both positions flat |
| ClosedLoop.RunKeepsInv | include/hft/order_gateway.hpp:69-130 | the same over whole runs |
| ClosedLoop.OneOrderInPlay | include/hft/strategy.hpp:150-154 | for every run over any network and any exchange: at most one order or fill in play, both spinning pushes find their queue empty, no live slot overwritten, wire ids increasing, each matched at most once |
| ClosedLoop.PositionsAgree | include/hft/strategy.hpp:118 | for every run with an echoing exchange and a size inside both limits: the position is -s, 0 or s, the gate's is that plus fills in transit and inside its limit, no size or position reject |
| ClosedLoop.GateAndStrategyAgree | include/hft/strategy.hpp:98-106 | for every run against any exchange, honest or not, and any size: gate position is strategy position plus fills in transit |
| ClosedLoop.UnfitSizeSendsNothing | include/hft/risk_gate.hpp:68-80 | for every run against any exchange, a size outside the limits never reaches the wire and both positions stay 0 |
| ClosedLoop.ChecksPassIff | include/hft/risk_gate.hpp:68-80 | with an echoing exchange, wherever a run has an order before the gate, its size and position checks pass if and only if the configured size is positive and inside both limits |
| ClosedLoop.WireAndCounters | include/hft/order_gateway.hpp:75-91 | in every run each order on the wire is one the strategy sent, unchanged, and the counters of sent, accepted, refused and matched agree with what happened |
| ClosedLoop.WireIsSent | include/hft/order_gateway.hpp:86 | the same from any state: a wire order was there, on its way, or sent in the run |
| ClosedLoop.RunTallies | include/hft/order_gateway.hpp:77-90 | sent, accepted and wire length stay equal, refusals add up by kind, matched fills are counted |
| ClosedLoop.KilledOrderGoesNowhere | include/hft/risk_gate.hpp:62-66 | a dispatch with the kill switch set leaves wire, slots, positions and limiter as they were and adds one to the count of killed orders |
| ClosedLoop.KilledRunSendsNothing | include/hft/risk_gate.hpp:62-66 | over any run whose dispatches are all killed, nothing reaches the wire, no id is matched but those already live, and each dispatch is counted |
| ClosedLoop.KilledStep | include/hft/risk_gate.hpp:62-66 | a step without a dispatch that could send opens no slot |
| ClosedLoop.StatusIsIgnored | include/hft/strategy.hpp:98-106 | for every matched report and every status: same effect on table, gate and strategy, the latch clears, and the positions stay put if and only if the report is for no shares |
| ClosedLoop.StatusesNeverMatter | include/hft/risk_gate.hpp:101-106 | two runs whose reports differ only in their statuses have the same orders, positions, latch and counts |
| ClosedLoop.RejectedReportFills | include/hft/order_gateway.hpp:117-130 | wherever an order is live, a matching report that says rejected moves both positions by its size |
| ClosedLoop.RejectedReportIsReachable | include/hft/strategy.hpp:98-106 | a run from start-up in which a report of a rejection leaves both sides holding five shares |
| ClosedLoop.SendFlows | include/hft/order_gateway.hpp:69-92 | an order that passes the gate reaches the wire and its slot |
| ClosedLoop.SilencedOnlyByRejection | include/hft/order_gateway.hpp:77-80 | a step leaves the latch set with nothing in play if and only if it was so before or the gate refused an order |
| ClosedLoop.SilencedIffRejected | include/hft/strategy.hpp:79 | in every run the latch is set with nothing in play if and only if the gate has refused an order |
| ClosedLoop.RejectionIsFinal | include/hft/strategy.hpp:79 | from then on no order is emitted, sent or filled in any run |
| StaleLoop.PushesAreAccepted | include/hft/spsc_queue.hpp:88-98 | whatever an acquire load returns, the order push and the fill push go by a position that shows their ring empty |
| StaleLoop.TakesAreThere | include/hft/spsc_queue.hpp:66-76 | what a stale load shows to a pop is there |
| StaleLoop.MoveIsStep | include/hft/spsc_queue.hpp:66-98 | every move on the stale rings is a step of the closed loop, or a load that changes nothing in it |
| StaleLoop.OtherKeepsCounts | include/hft/order_gateway.hpp:75-130 | a step that touches neither ring keeps the four ring positions in order round the loop, at most one apart |
| StaleLoop.RingMoveKeepsCounts | include/hft/spsc_queue.hpp:66-98 | so does every push, pop and load |
| StaleLoop.MoveKeepsTags | include/hft/spsc_queue.hpp:74-96 | each published fill position brings as many order pops, each order position all fill pops but one |
| StaleLoop.MoveKeepsSeen | include/hft/spsc_queue.hpp:70-93 | each thread has acquired what it needs before its next push |
| StaleLoop.MovesAreRuns | include/hft/spsc_queue.hpp:66-98 | runs on stale rings are runs of the closed loop |
| StaleLoop.NoPushEverSpins | include/hft/strategy.hpp:151 | for every run over any network, against any exchange and with any stale loads: the state is one of the closed loop, and each of the two spinning pushes succeeds at its first try |
| Engine.ReceiveRuns | include/hft/order_gateway.hpp:108-130 | a drain of any inbox is a run of the closed loop: receives and forwards |
| Engine.GatewayPollRuns | include/hft/order_gateway.hpp:69-92 | a gateway poll, whether or not its load shows the order, is a run of the closed loop: receives and forwards, take, dispatch |
| Engine.FillsRun | include/hft/strategy.hpp:142-145 | taking the first n queued fills is a run of the closed loop |
| Engine.EventRuns | include/hft/strategy.hpp:146-157 | one event and the push of its order is a run of the closed loop; the push finds room |
| Engine.RunnerPollRuns | include/hft/strategy.hpp:141-158 | a runner poll, whatever its loads show, is a run of the closed loop: fills, event, push |
| Engine.Engine.constructor | include/hft/strategy.hpp:135-137 | the two objects start in the closed loop's start state |
| Engine.Engine.RunnerTurn | include/hft/strategy.hpp:141-158 | the runner object's poll takes the system to the state of that run |
| Engine.Engine.GatewayTurn | include/hft/order_gateway.hpp:69-92 | the gateway object's poll takes the system to the state of that run |
| Engine.Engine.FillTurns | include/hft/strategy.hpp:98-106 | if one of the first 32 datagrams is the first report of the live order, a gateway turn and a runner turn that sees the fill clear the latch, unless the next order has gone out, and move both positions by the report |
| Engine.OneFillThenEvent | include/hft/strategy.hpp:141-158 | a runner poll on one queued fill takes it, moves the position and clears the latch |
| Engine.Engine.ExchangeTurn | include/hft/sim_exchange.hpp:149-166 | an answered order is a step of the closed loop |
| Engine.Engine.OneInPlay | include/hft/order_gateway.hpp:125 | whatever turns the objects take: queued orders, live slots and queued fills are at most one together, none with the latch clear, and the positions agree |
| Engine.Engine.PositionsBounded | include/hft/strategy.hpp:118 | with an echoing exchange and a size inside both limits: the runner's position is -s, 0 or s, the gate's is inside its limit, no size or position reject |
| StrategySpec.SignalsExact | include/hft/strategy.hpp:67-72 | the two integer tests hold exactly when the rational imbalance is beyond plus or minus the threshold |
| StrategySpec.SignalsExclusiveIff | include/hft/strategy.hpp:74-75 | buy and sell exclude each other for all sizes if and only if the threshold is not negative |
| StrategySpec.RunIds | include/hft/strategy.hpp:84 | over any run the emitted orders carry consecutive ids, and nothing else uses ids |
| StrategySpec.EventSendsIff | include/hft/strategy.hpp:57-95 | an event sends an order if and only if the latch is clear and the touch, in whole numbers, calls for one at this position; the order is a buy at the highest non-empty bid or a sell at the lowest non-empty ask, with the event's arrival and symbol |
| StrategySpec.EveryOrderAtTouch | include/hft/strategy.hpp:82-94 | over any run, every order was sent by one event, at the touch of the book as it stood then |
| StrategySpec.LastSends | include/hft/strategy.hpp:82-94 | what the last input sends is at the touch of the book it left |
| StrategySpec.RunTotals | include/hft/strategy.hpp:97-106 | the position is the shares bought less those sold, the counters count, and the latch is set while no fill has followed the last order |
| ImbalanceStrategy.ImbalanceStrategy.constructor | include/hft/strategy.hpp:49-52 | starts flat with an empty book |
| ImbalanceStrategy.ImbalanceStrategy.OnMd | include/hft/strategy.hpp:57-95 | on the flat book and in 64-bit integers it takes the decision of the rational strategy on the map book, state and order alike |
| ImbalanceStrategy.ImbalanceStrategy.Touch | include/hft/book_view.hpp:101-112 | the touch the strategy reads is the highest bid and lowest ask of the map book |
| ImbalanceStrategy.ImbalanceStrategy.Decide | include/hft/strategy.hpp:60-94 | the decision after the book update |
| ImbalanceStrategy.ImbalanceStrategy.Signals | include/hft/strategy.hpp:62-72 | the products fit 64 bits and the two flags are the rational comparisons |
| ImbalanceStrategy.ImbalanceStrategy.ProductFits | include/hft/strategy.hpp:69-70 | no product overflows for a threshold numerator of at most 2^30 in magnitude |
| ImbalanceStrategy.ImbalanceStrategy.ProductFitsIff | include/hft/strategy.hpp:69-70 | the product fits 64 bits for all level sizes if and only if the numerator is at most 2^30 in magnitude |
| ImbalanceStrategy.ImbalanceStrategy.OnFill | include/hft/strategy.hpp:98-106 | moves the position by the signed size and clears the latch |
| ImbalanceStrategy.ImbalanceStrategy.RunInputs | include/hft/strategy.hpp:57-106 | over any run of events and fills the same orders as the rational strategy on the map book |
| ImbalanceStrategy.StrategyRunner.constructor | include/hft/strategy.hpp:135-137 | starts with a fresh strategy and empty queues |
| ImbalanceStrategy.StrategyRunner.PollOnce | include/hft/strategy.hpp:141-158 | takes the first sixteen queued fills at most, then one event, in queue order, of each as many as its loads show, and appends the order they lead to |
| ImbalanceStrategy.StrategyRunner.DrainFills | include/hft/strategy.hpp:142-145 | exactly the first min(16, n, shown) fills are applied and removed |
| ImbalanceStrategy.DrainedIsPrefix | include/hft/strategy.hpp:144 | of the queued and seen fills the first sixteen at most are taken |
| GatewaySpec.QuietForwardsNothing | include/hft/order_gateway.hpp:127-129 | with no live order any datagrams at all change only the count of unmatched ones |
| GatewaySpec.NoOrderFillsTwice | include/hft/order_gateway.hpp:117-130 | among the fills one drain forwards, no id occurs twice and each matched the table as it stood |
| GatewaySpec.DrainReads | include/hft/order_gateway.hpp:108-115 | a drain consumes the reports at the front up to its limit, and a datagram of another size it runs into; each report is counted as matched or unmatched |
| GatewaySpec.LoneReportIsTaken | include/hft/order_gateway.hpp:117-126 | if a drain comes to the first report of the one live order, it alone is forwarded, its slot is freed and the gate's position moves by it |
| GatewaySpec.SlotsStandApart | include/hft/order_gateway.hpp:82-84 | once an order is sent, a report matches if it has its id, or matched before and differs in the low bits |
| OrderGateway.OrderGateway.constructor | include/hft/order_gateway.hpp:48-59 | all slots free, nothing counted |
| OrderGateway.OrderGateway.HandleFill | include/hft/order_gateway.hpp:117-130 | a report is forwarded, booked and its slot freed exactly when the slot is active with its id; else only counted |
| OrderGateway.OrderGateway.DrainFills | include/hft/order_gateway.hpp:108-115 | reads at most the limit, stops at and consumes a datagram of another size, leaves the rest |
| OrderGateway.OrderGateway.PollOnce | include/hft/order_gateway.hpp:69-92 | drains up to 32 datagrams, then, if the pop shows an order, sends exactly the head order if admitted, into its slot, and drops it if not; nothing is sent with the kill switch set |
| OrderGateway.OrderGateway.SendOne | include/hft/order_gateway.hpp:72-91 | the half of a poll that pops, checks and sends |
| RiskSpec.AgreeDecides | include/hft/risk_gate.hpp:83-91 | arrival time and bucket decide alike now and after taking a token |
| RiskSpec.GateAnswers | include/hft/risk_gate.hpp:61-94 | which check answers, in their order, on the numbers alone: kill, size, projected position, arrival time; each answer moves its own counter and only an accept moves the limiter |
| RiskSpec.KillSwitchStopsAll | include/hft/risk_gate.hpp:62-66 | no order asked with the kill switch set is accepted: a run is as if those had not been asked, but for the count of them |
| RiskSpec.GcraIsTokenBucket | include/hft/risk_gate.hpp:61-94 | on every run with a clock that does not go back, GCRA gives every verdict of the explicit bucket of depth max(burst, 1) + 1 |
| RiskSpec.StartsAsFullBucket | include/hft/risk_gate.hpp:125-127 | from start-up the bucket is full |
| RiskSpec.AcceptsWait | include/hft/risk_gate.hpp:85-90 | the k-th accept from a state waits k tokens beyond its arrival time, less the burst |
| RiskSpec.RateBound | include/hft/risk_gate.hpp:51-94 | accepts i and j satisfy (j - i) T <= t_j - t_i + max(burst, 1) T, in any run and for any clock |
| RiskSpec.RejectedOrdersAreFree | include/hft/risk_gate.hpp:81-82 | removing all rejected orders from a run leaves every accept, the limiter and the position as they were |
| RiskSpec.BurstAdmitsOneMore | include/hft/risk_gate.hpp:46 | of n simultaneous orders a rested limiter accepts exactly min(n, max(burst, 1) + 1) |
| RiskSpec.SpacedSenderNeverLimited | include/hft/risk_gate.hpp:83-91 | a sender that keeps one interval between orders is never refused for rate |
| RiskSpec.FillsStayBetween | include/hft/risk_gate.hpp:101-106 | any fills of orders that are out, whole or in parts, in any order, end between all sells filled and all buys filled |
| RiskSpec.ExtremeReached | include/hft/risk_gate.hpp:101-106 | each of the two extremes is reached by some fills |
| RiskSpec.LimitHoldsIff | include/hft/risk_gate.hpp:72-80 | for any position and orders that are out: the limit holds at every moment of every schedule of whole and partial fills if and only if position plus all buys and position less all sells are inside it |
| RiskSpec.AcceptedOrdersFitIff | include/hft/risk_gate.hpp:72-80 | the same for orders the gate accepted one after the other, on the position before the first of them |
| RiskSpec.AcceptanceIsEnoughAlone | include/hft/risk_gate.hpp:72-80 | with nothing else out, acceptance alone keeps the limit |
| RiskSpec.ReservingTestIff | include/hft/risk_gate.hpp:76-80 | the condition lasts over one more order if and only if the gate's test holds from the extreme on the order's side |
| RiskSpec.FillKeepsExtremes | include/hft/risk_gate.hpp:101-106 | a fill, whole or in part, uses up its own reservation, so the condition lasts over fills |
| RiskSpec.OutstandingOrderEscapesLimit | include/hft/risk_gate.hpp:72-80 | for any size, two accepted orders of the full limit fill to twice the limit |
| RiskGate.RiskGate.constructor | include/hft/risk_gate.hpp:119-133 | all state and counters at zero |
| RiskGate.RiskGate.Check | include/hft/risk_gate.hpp:61-94 | verdict by the first check that fails, one counter, and a token only for an accepted order; with the kill switch set, always refused and only counted |
| RiskGate.RiskGate.OnFill | include/hft/risk_gate.hpp:101-106 | moves the position by the signed size |
| BookSpec.HoldsPriceIff | include/hft/book_view.hpp:136-138 | index i holds exactly the prices of its own tick and of the ticks a multiple of 2^32 away, and index 0 also those less than a tick below the base |
| BookSpec.TickOfIff | include/hft/book_view.hpp:137 | truncating division sends a price to tick q exactly when it lies in the tick from the q-th price outward, or for q = 0 within a tick of the base |
| BookSpec.IndexOfIff | include/hft/book_view.hpp:136-138 | for any price the index is i if and only if the truncated quotient is i modulo 2^32 |
| BookSpec.OutsideIsIgnoredIff | include/hft/book_view.hpp:55-59 | a message priced outside the window moves only the counter if and only if its quotient modulo 2^32 is outside the window |
| BookSpec.InsideIsOwnIndex | include/hft/book_view.hpp:136-141 | a price inside the window goes to the index of its own tick |
| BookSpec.FarPriceHitsLevel | include/hft/book_view.hpp:55-59 | a Delete priced 2^32 ticks above a resting level empties it and is not counted as out of range |
| BookSpec.TouchIsExtreme | include/hft/book_view.hpp:169-170 | on a book of window levels the highest bid and lowest ask exist and are the extremes |
| BookSpec.AlignedIndex | include/hft/book_view.hpp:136-141 | an on-grid price maps to its own index and back |
| BookSpec.ApplyKeepsTidy | include/hft/book_view.hpp:54-98 | no empty and no out-of-window level is ever held |
| BookSpec.MessageDoes | include/hft/book_view.hpp:63-97 | what each message does to the one level it names: an Add joins it up to the limit, a reduction takes from it and a greater one empties it, a Delete empties it, others leave it; no other level changes |
| BookView.BookView.constructor | include/hft/book_view.hpp:50 | the empty book, with the empty sentinels |
| BookView.BookView.TopOfBook | include/hft/book_view.hpp:100-112 | the cached indices are the highest bid and lowest ask of the map book, a side with a best has size there, and the sentinels mean empty |
| BookView.BookView.Apply | include/hft/book_view.hpp:54-98 | one message changes the flat book exactly as the saturating map book; out of the window only the counter moves |
| BookView.BookView.ApplyAt | include/hft/book_view.hpp:60-97 | one level of one side changes, everything else stays, and the cached indices are right again |
| BookView.BookView.SetSize | include/hft/book_view.hpp:81-90 | one cell changes, and the cached indices are right but for that level |
| BookView.BookView.OnSizeIncreased | include/hft/book_view.hpp:143-149 | repairs the best index after a level grew |
| BookView.BookView.OnLevelEmptied | include/hft/book_view.hpp:153-165 | repairs the best index after a level emptied |
| BigEndian.Be16 | include/hft/itch50.hpp:86-89 | the two bytes as a big-endian number |
| BigEndian.Be32 | include/hft/itch50.hpp:91-95 | the four bytes as a big-endian number |
| BigEndian.ReadBe | include/hft/itch50.hpp:97-111 | the byte loops of be48 and be64 read the big-endian number |
| BigEndian.HighByteFirst | include/hft/itch50.hpp:81-111 | the first byte of a field is the most significant |
| BigEndian.FieldRoundTrip | tests/test_itch50.cpp:33-45 | every value that fits a 2, 4, 6 or 8 byte field is read back |
| Framing.CutRoundTrip | include/hft/itch50.hpp:353-361 | framing any bodies, cutting the bytes anywhere and reading back yields exactly the bodies whose frames are whole |
| Framing.ZeroLengthEnds | include/hft/itch50.hpp:356 | a zero length ends the reading |
| Framing.BinaryFileReader.constructor | include/hft/itch50.hpp:349-350 | starts at the first byte |
| Framing.BinaryFileReader.Next | include/hft/itch50.hpp:353-361 | yields the next whole frame and moves past it, strictly; otherwise no frame is left and the cursor stays |
| Itch50Spec.EnginePriceIsExact | include/hft/itch50.hpp:309-312 | price conversion loses nothing |
| Itch50Spec.DecodesWhatWasEncoded | include/hft/itch50.hpp:122-288 | decoding a body laid out by the specification's tables (sections 4.3 and 4.4 of the Nasdaq TotalView-ITCH 5.0 specification) recovers its header and every field the decoder uses |
| Itch50Spec.BodyTable | include/hft/itch50.hpp:63-75 | the bodies decoded, by type and length, are those of the specification's tables; other lengths are malformed, other types ignored |
| Itch50Spec.SideByte | include/hft/itch50.hpp:221-222 | an Add whose side byte is not B is a sell |
| Itch50Spec.AddRoundTrip | tests/test_itch50.cpp:60-70 | reference, side, shares and price of an Add are read back |
| Itch50Spec.ReduceRoundTrip | include/hft/itch50.hpp:233-245 | reference and shares of E, C and X are read back |
| Itch50Spec.ReplaceRoundTrip | include/hft/itch50.hpp:261-269 | both references, shares and price of a Replace are read back |
| Itch50Decoder.Decoder.constructor | include/hft/itch50.hpp:338-340 | no orders, nothing pending, counters zero |
| Itch50Decoder.Decoder.Apply | include/hft/itch50.hpp:194-297 | live orders, pending delta, counters and result are those of the parsed message; empty, unknown and wrong-length bodies only count |
| Itch50Decoder.Decoder.Dispatch | include/hft/itch50.hpp:217-294 | the switch performs the message's effect on the live orders and emits its level changes |
| Itch50Decoder.Decoder.ReduceOrder | include/hft/itch50.hpp:321-336 | takes at most what remains and removes an exhausted order; an unknown one only counts |
| Itch50Decoder.Decoder.TakePending | include/hft/itch50.hpp:301-305 | hands the pending delta over once |
| LiveOrders.LiveIff | include/hft/itch50.hpp:217-338 | after any stream a reference is live if and only if it was opened, and since then neither deleted nor replaced nor reduced by as much as it was opened with; it has what is left, at its own price |
| LiveOrders.NoEmptyOrderIsLive | include/hft/itch50.hpp:334 | if every order is opened with shares, every live order has some |
| LiveOrders.UnknownIff | include/hft/itch50.hpp:246-276 | a reduction, removal or replacement counts as unknown and changes no level if and only if its reference is executed out, closed or never seen |
| LiveOrders.AddSays | include/hft/itch50.hpp:225-230 | an Add opens an order and a level change with its own side, price and shares |
| LiveOrders.ReductionSays | include/hft/itch50.hpp:327-333 | a reduction is an execution for E and C and a cancellation for X, of what remains at most, at the order's price |
| LiveOrders.RemovalSays | include/hft/itch50.hpp:246-287 | a removal or replacement cancels all that remains; the replacement, on the same side, is pending |
| LiveOrders.DecoderCounts | include/hft/itch50.hpp:184-190 | over any bodies the live orders are those of the decoded messages, and decoded, ignored, malformed and live count them |
| LiveOrders.ChangesAreStamped | include/hft/itch50.hpp:213-215 | every level change carries its own message's time and stock |
| Conservation.SharesWithout | include/hft/itch50.hpp:338 | the sum over live orders does not depend on their order |
| Conservation.TakeConserves | include/hft/itch50.hpp:327-334 | reducing or removing an order takes the same shares from its level |
| Conservation.AddConservesIff | include/hft/itch50.hpp:219-232 | for any Add: every level is exact again if and only if it goes on a reference the window does not show and its sum fits, or overwrites an order on its own level by just what saturation cuts off |
| Conservation.AddAgreesIff | include/hft/book_view.hpp:81 | one level after an Add is exact if and only if its old sum with the new order, saturated, is its new sum |
| Conservation.SharesAfterAdd | include/hft/itch50.hpp:225 | the new sum gains the new order and loses the overwritten one |
| Conservation.UnknownReplaceIff | include/hft/itch50.hpp:271-275 | a Replace of an unknown order keeps every level exact if and only if the order it records is indistinguishable in the window from what it overwrites |
| Conservation.MessageConservesIff | include/hft/itch50.hpp:217-305 | for any message, whatever its references and sums: after its deltas are drained every in-window level is the sum of live shares there if and only if the message is exact |
| Conservation.ExactIffSound | include/hft/itch50.hpp:217-305 | with sums that fit, a message is exact if and only if its references are sound; with sound references, if and only if its sums fit |
| Conservation.OverwriteCanBeExact | include/hft/book_view.hpp:73-81 | a message with unsound references and a sum past 32 bits that is exact |
| Conservation.MessageDrains | tools/itch50_replay.cpp:71-72 | the replay loop applies all of a message's level changes, in order, and leaves nothing pending |
| Conservation.BodyMeansMessage | tools/itch50_replay.cpp:66-87 | a body has the effect of the message it encodes, and no effect on orders and levels otherwise |
| Conservation.StreamConservesIff | tools/itch50_replay.cpp:66-87 | for every stream of bodies whatever: each in-window level is the sum of live shares there after every body if and only if every message is exact |
| Conservation.WellFormedIsExact | tools/itch50_replay.cpp:66-87 | streams with sound references and sums that fit are exact |
| Conservation.StreamConserves | tools/itch50_replay.cpp:66-87 | for every stream with sound references and sums that fit, at the end each in-window level is exactly the sum of live shares there |
| Replay.ImbalanceBounded | include/hft/book_view.hpp:117-123 | the imbalance lies in [-1, 1] |
| Replay.CheckTouch | tools/itch50_replay.cpp:82-85 | none of the three checks can fail on any book: a side that has a best has size there, and the imbalance lies in [-1, 1] |
| Replay.HeadersReadableIff | include/hft/itch50.hpp:200-206 | for any data all header reads stay inside it if and only if there is no frame or the last body and what is left behind it are eleven bytes or more |
| Replay.FramedReadableIff | include/hft/itch50.hpp:200-206 | a file of whole frames is read inside its bounds if and only if its last body has eleven bytes |
| Replay.ShortBodyIsOverread | include/hft/itch50.hpp:200-206 | the bytes 0, 1, 65 are a whole frame whose header read leaves the file |
| Replay.ReplayBody | tools/itch50_replay.cpp:71-86 | all deltas of a body reach the book and none of the tool's three checks fails |
| Replay.ReplayNext | tools/itch50_replay.cpp:66-87 | one turn consumes one frame and has its effect |
| Replay.ReplayLoop | tools/itch50_replay.cpp:66-87 | the file loop visits exactly the whole frames |
| Replay.ReplayFile | tools/itch50_replay.cpp:51-87 | for any file whose header reads stay inside it, the checks never fail and decoder and flat book end where the message semantics and the map book do; on an exact stream the touch is exactly the live shares there |
| HistogramSpec.BucketIndexAsComputed | include/hft/histogram.hpp:137-140 | the leading-zero formula gives the octave |
| HistogramSpec.CountsIndexAsComputed | include/hft/histogram.hpp:141-155 | shifted base plus signed offset gives the index and the 32-bit sub-bucket loses nothing |
| HistogramSpec.OctaveAsComputed | include/hft/histogram.hpp:158-166 | shift and mask recover octave and sub-bucket |
| HistogramSpec.ValueInBucket | include/hft/histogram.hpp:25-26 | each value lies in its bucket, whose top overshoots it by at most value / 2^precision |
| HistogramSpec.BucketsTile | include/hft/histogram.hpp:158-170 | buckets follow each other without gap or overlap |
| HistogramSpec.IndexUnique | include/hft/histogram.hpp:144-155 | the index is the only bucket that holds the value |
| HistogramSpec.IndexInverse | include/hft/histogram.hpp:144-170 | index and highest-equivalent value are an exact inverse pair, and order agrees both ways |
| HistogramSpec.IndexMonotone | include/hft/histogram.hpp:144-155 | the index is monotone |
| HistogramSpec.IndexInRange | include/hft/histogram.hpp:52-53 | every recordable value indexes inside the counts array, for every precision and range |
| HistogramSpec.TopsFit | include/hft/histogram.hpp:167-169 | no bucket top overflows 64 bits |
| HistogramSpec.OneMoreSample | include/hft/histogram.hpp:59-67 | recording adds the sample to the histogram of those recorded |
| HistogramSpec.MinIsSample | include/hft/histogram.hpp:66 | the minimum is one of the samples |
| HistogramSpec.LeastSample | include/hft/histogram.hpp:65-66 | the maximum is one of the samples and no sample is outside minimum and maximum |
| HistogramSpec.ManySamples | include/hft/histogram.hpp:69-76 | recording n > 0 at once is recording n times |
| HistogramSpec.ZeroCountIff | include/hft/histogram.hpp:69-76 | a zero count changes nothing if and only if the value is no new extreme |
| HistogramSpec.MergeIsUnion | include/hft/histogram.hpp:107-116 | merging gives the histogram of all samples: counts, total, sum, maximum, minimum, also with an empty side |
| HistogramSpec.CumulativeIsCountLe | include/hft/histogram.hpp:98-102 | the count through a bucket is the number of samples at most its top |
| HistogramSpec.AllCounted | include/hft/histogram.hpp:98-102 | all buckets together count every sample |
| HistogramSpec.KthExists | include/hft/histogram.hpp:93-96 | every rank from 1 to n has its sample |
| HistogramSpec.RankBounds | include/hft/histogram.hpp:91-96 | for n samples every percentile names a rank from 1 to n, and the hundredth names n |
| HistogramSpec.RankMonotone | include/hft/histogram.hpp:91-96 | a greater percentile names no smaller rank |
| HistogramSpec.RankFitsIff | include/hft/histogram.hpp:91-96 | the rank is the one number that is the percentage of n rounded to the nearest, halves up, or 1 where that is nothing; outside 0 to 100 the nearer end acts |
| HistogramSpec.ReportSplits | include/hft/histogram.hpp:98-102 | at least k samples are at most the report of rank k, and fewer than k are below its bucket |
| HistogramSpec.CountLeCounts | include/hft/histogram.hpp:98-102 | the count used is the number of places that hold a sample of at most x |
| HistogramSpec.RankReports | include/hft/histogram.hpp:86-104 | reports grow with the rank, are never below the sample of the rank, within the relative error, and at rank n at least the maximum |
| HistogramSpec.FirstBucketReaching | include/hft/histogram.hpp:98-102 | the bucket where the running count reaches the rank is that of the sample of the rank |
| Histogram.BucketsNeeded | include/hft/histogram.hpp:40-50 | the doubling loop, with its overflow exit, counts the octaves of the range |
| Histogram.Histogram.constructor | include/hft/histogram.hpp:172-176 | the histogram of no samples |
| Histogram.Histogram.BucketIndexOf | include/hft/histogram.hpp:137-140 | the octave from leading zeros |
| Histogram.Histogram.IndexOf | include/hft/histogram.hpp:137-155 | the computed index is the bucket's, inside the array |
| Histogram.Histogram.BucketUpperBound | include/hft/histogram.hpp:158-170 | the computed top is the bucket's highest value |
| Histogram.Histogram.Record | include/hft/histogram.hpp:59-67 | afterwards it is the histogram of the samples and this value, or the top of the range if it is greater |
| Histogram.Histogram.RecordMany | include/hft/histogram.hpp:69-76 | afterwards n more samples, and a histogram of them if and only if n > 0 or the value is no new extreme |
| Histogram.Histogram.RecordN | include/hft/histogram.hpp:69-76 | the counter, total, sum and extremes after n occurrences |
| Histogram.Histogram.Percentile | include/hft/histogram.hpp:89-104 | at each rank the bucket top of the sample of that rank; past the last rank the maximum; 0 when empty |
| Histogram.Histogram.PercentileAt | include/hft/histogram.hpp:89-104 | for any percentage: for the rank it rounds to, at least that many samples are at most the result, which tops the bucket of the sample of that rank, and fewer are below that bucket; 0 when empty |
| Histogram.RankFor | include/hft/histogram.hpp:91-96 | the computed rank is the rounded percentage, from 1 to n |
| Histogram.Histogram.Add | include/hft/histogram.hpp:107-116 | afterwards the histogram of both sample sequences, also when merged with itself |
| Frames.FrameRoundTrip | include/hft/itch_parser.hpp:21-30 | every message survives its 32-byte frame |
| Frames.FieldsAt | include/hft/itch_message.hpp:79-88 | each field stands at its own offset |
| Frames.LowByteFirst | include/hft/itch_parser.hpp:21-30 | the low byte of a field comes first |
| Frames.BatchRoundTrip | include/hft/itch_parser.hpp:35-57 | reading any batch back, with any partial frame behind it, gives the batch |
| FeedHandler.FeedReader.constructor | include/hft/itch_parser.hpp:37 | the cursor has all whole frames before it |
| FeedHandler.FeedReader.HasNext | include/hft/itch_parser.hpp:40-42 | true exactly while a whole frame remains |
| FeedHandler.FeedReader.Next | include/hft/itch_parser.hpp:45-49 | yields the next frame's message and leaves the rest |
| FeedHandler.OfferIff | include/hft/feed_handler.hpp:85-89 | on a ring of any capacity, for any consumer and any stale loads: the bounded spin succeeds if and only if the ring has room as seen, or a pop becomes visible at one of the tries |
| FeedHandler.ShownIff | include/hft/feed_handler.hpp:85-89 | a pop becomes visible within the tries if and only if some load shows one and one was hidden before or made by then |
| FeedHandler.GivesUpWithRoom | include/hft/feed_handler.hpp:85-89 | a producer that is shown no pop gives up on a ring the consumer has emptied |
| FeedHandler.TryIsPush | include/hft/spsc_queue.hpp:88-98 | one try is a push of the two-thread protocol, with the load it makes |
| FeedHandler.TryIff | include/hft/spsc_queue.hpp:89-94 | one push succeeds if and only if there is room as seen or its load shows a hidden pop; it keeps order and capacity |
| FeedHandler.OfferKeeps | include/hft/feed_handler.hpp:85-89 | what got in stays in order across the ring and the consumer, and the ring within its capacity |
| FeedHandler.NothingDropped | include/hft/feed_handler.hpp:58-68 | over any stream, if in every 65536 tries some pop is made and shown, every event gets in, in order, and none is counted as dropped |
| FeedHandler.DroppedIff | include/hft/feed_handler.hpp:85-89 | an event is dropped if and only if the ring is full as seen and no pop is shown in 65536 tries |
| FeedHandler.HandledAppend | include/hft/feed_handler.hpp:51-70 | handling one stream after another is handling them as one |
| FeedHandler.PickedInOrder | include/hft/feed_handler.hpp:58-68 | what is enqueued, over any number of datagrams, is an in-order subsequence of what was received |
| FeedHandler.HandledInAll | include/hft/feed_handler.hpp:58-68 | over any stream of events: ring and consumer hold what they held and the pushed ones, in order, and received = pushed + dropped |
| FeedHandler.EventsOfDatagram | include/hft/feed_handler.hpp:51-60 | a datagram gives one event for each of its first 64 whole frames, in order, each with that datagram's arrival |
| FeedHandler.ArrivalsInOrder | include/hft/feed_handler.hpp:51-70 | the events of a stream are those of its datagrams, one datagram after the other |
| FeedHandler.FeedHandler.constructor | include/hft/feed_handler.hpp:98-100 | nothing queued, counters zero |
| FeedHandler.FeedHandler.PushWithBackpressure | include/hft/feed_handler.hpp:85-89 | the bounded spin against the consumer ends as the specification of `OfferIff` says |
| FeedHandler.FeedHandler.PollOnce | include/hft/feed_handler.hpp:51-70 | a poll handles the datagram's whole frames in order, with the arrival stamp, and does nothing without a datagram |
| FeedHandler.FeedHandler.PollAll | include/hft/feed_handler.hpp:114-120 | any number of polls handle everything that arrived as one stream |
| FeedHandler.FeedHandler.ConsumerTakes | include/hft/spsc_queue.hpp:66-76 | the strategy's pops take the oldest events and are hidden at first |
| FeedHandler.FeedHandler.Push | include/hft/spsc_queue.hpp:88-98 | the cached position first, then a load that shows any part of the hidden pops |
| FeedHandler.FeedHandler.TryOnce | include/hft/feed_handler.hpp:86-87 | the consumer runs, then one push |
| FeedHandler.FeedHandler.DrainReader | include/hft/feed_handler.hpp:58-68 | the loop over the frames left in the reader |
| FeedHandler.FeedHandler.HandleOne | include/hft/feed_handler.hpp:59-67 | one frame is counted as received and either pushed or dropped |
| ExchangeSpec.MoveStaysInBand | include/hft/sim_exchange.hpp:103-118 | the mid stays within 1500 ticks of its start, the quotes within 1501, on the grid |
| ExchangeSpec.QuotesInTicks | include/hft/sim_exchange.hpp:100-120 | mid, bid, ask and sizes after any draws, in ticks from the start: the mid drifts by the draw within 1500, the drawn side is requoted a tick outside it or across it |
| ExchangeSpec.OpeningShows | include/hft/sim_exchange.hpp:89-91 | after the two adds the book shows the opening quotes |
| ExchangeSpec.RefreshShows | include/hft/sim_exchange.hpp:109-119 | a Delete/Add pair replaces one side's only level |
| ExchangeSpec.StreamShowsQuotes | include/hft/sim_exchange.hpp:100-120 | for all draws, a book whose window covers the band, fed everything published, has one level per side, equal to the current quotes, and nothing out of range |
| SimExchange.SimExchange.constructor | include/hft/sim_exchange.hpp:57-69 | opening quotes, nothing emitted |
| SimExchange.SimExchange.Emit | include/hft/sim_exchange.hpp:122-140 | the message joins the stream once, numbered modulo 2^32, with the exchange's symbol; a datagram goes out exactly when it holds the batch |
| SimExchange.SimExchange.Flush | include/hft/sim_exchange.hpp:142-147 | the buffered frames become one datagram; nothing is lost, repeated or reordered |
| SimExchange.SimExchange.Announce | include/hft/sim_exchange.hpp:88-91 | the opening stream is out |
| SimExchange.SimExchange.Step | include/hft/sim_exchange.hpp:100-120 | for any draw, quotes and stream follow the walk |
| SimExchange.SimExchange.Walk | include/hft/sim_exchange.hpp:102-105 | the mid drifts and is clamped to the band |
| SimExchange.SimExchange.Republish | include/hft/sim_exchange.hpp:106-119 | one side is requoted at the mid plus or minus the spread, the other untouched |
| SimExchange.SimExchange.ServiceOrders | include/hft/sim_exchange.hpp:149-166 | the first 32 orders at most, up to a datagram of another size, are answered once each in order, with their own id, tag, price, symbol, size and side, as filled |
| ExchangeSpec.ServedInOrder | include/hft/sim_exchange.hpp:151-165 | the orders served are the first of the inbox, and each answer carries its order's id, tag, price, symbol, size and side |
| SimExchange.ReadIsJoined | include/hft/feed_handler.hpp:51-70 | reading the datagrams gives the emitted messages in order; none is cut by the 64-frame buffer |
| SimExchange.QuotesReachTheBook | include/hft/sim_exchange.hpp:87-97 | once flushed, a book fed from the datagrams shows exactly the exchange's quotes |
| Pipeline.BookOfRun | include/hft/strategy.hpp:57-59 | however events and fills interleave, the strategy's book is that of its events |
| Pipeline.ArrivalsAreRead | include/hft/feed_handler.hpp:51-70 | the events of all polls carry the messages of the datagrams, in order |
| Pipeline.QuotesReachTheStrategy | include/hft/feed_handler.hpp:51-70 | for any draws, batch size, ring, arrival times and interleaved fills: if in every round of tries some pop is made and shown, a strategy that has taken what got through holds exactly the exchange's quotes |
| Pipeline.TouchIsQuote | include/hft/strategy.hpp:90 | an order at the touch of a book that shows the quotes is at the index of the bid or ask, and at the very quote if the grid has it |
| Pipeline.OrderCarriesQuote | include/hft/strategy.hpp:82-94 | on the exchange's stream a buy carries the exchange's best bid and a sell its best ask, with the arrival and symbol of the event that sent it |

## Left out

- ImbalanceStrategy.ImbalanceStrategy.ProductFits: the threshold numerator is bounded by 2^30 in magnitude (thresholds up to 65536; the documented range is 0 to 1). Past that the 64-bit products of the source overflow for some level sizes, as `ProductFitsIff` states.
- Engine.Engine.RunnerTurn: the two objects take turns poll by poll; finer interleavings of the two threads are those of `ClosedLoop`.
- SpscQueue.SpscQueue.Push: the object is proved for one thread of control; two threads at once are the subject of `SpscProtocol`, whose steps the object's statements are paired with.
- BookView.BookView.Apply: `price - base` is taken not to overflow 64 bits. Statements are per tick index, since several prices can share one.
- Itch50Decoder.Decoder.Apply: the memory readable from the body's first byte on is a parameter, with the eleven bytes the header read needs.
- FeedHandler.FeedHandler.PollOnce: how many events the consumer takes before each try, and how many of its pops the load at that try shows, are parameters, any functions of the number of the try.
- Histogram.Histogram.PercentileAt: the rank is computed over exact arithmetic, where the source multiplies doubles.
- Replay.ImbalanceBounded: exact rationals stand for the source's doubles.
- Replay.ReplayFile: a file whose header reads leave it is not replayed, since what the source reads there is not defined; `Replay.HeadersReadableIff` says which files those are.
- Frames.FrameRoundTrip: the host is taken to be little-endian.
- OrderGateway.OrderGateway.HandleFill: the push to the fill queue is not shown waiting; that it never waits is `StaleLoop.NoPushEverSpins`.
- SimExchange.SimExchange.Emit: the pacing wait is not modelled, and the clock stamp is a parameter.
- Sockets, thread pinning, wait policies and intrinsics: the network is whatever datagrams arrive.
- Clock calibration and floating point: rate to cycles per token, threshold to numerator, and the histogram's mean.
- Wrap-around of 64-bit positions, counters, sums, ids and `tat_`: taken as unbounded.
- The hardware memory model beyond acquire and release: no cache-line or false-sharing claims.
- Liveness of the closed loop: a lost datagram or a refused order ends trading, so only safety and freedom from blocking are stated.
- The latency histograms kept inside the gateway, the strategy runner and the feed handler, and the gateway's send stamp: measurement only.
- The flags and padding fields of orders and reports: written as zero and never read.
- Replay.CheckTouch: the third check is on exact rationals.
- `size_at`, `set_position`, `allow`, `reset`, `remaining_bytes` and the plain getters: one-line reads or writes.
- Administrative ITCH messages and trade prints beyond their lengths and the fact that they change no order and no level.
- The configuration reader, latency reports, benchmarks, scripts and recorded data.
