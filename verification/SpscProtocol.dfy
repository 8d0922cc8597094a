/** The lock-free ring of include/hft/spsc_queue.hpp as a two-thread protocol.

    Every atomic load, cache test, slot access and position store is one step,
    and the two threads interleave in any order.  An acquire load may return any
    value between the newest one that thread has synchronised with and the
    current one.  The slots are plain memory: an access that is not ordered by
    happens-before after the other thread's last access to the same slot is a
    data race; it sets `raced` and yields an arbitrary value.  Popping moves the
    value out, so it leaves an arbitrary value in the slot. */
module SpscProtocol {
  import opened Bits

  datatype Producer<T> =
    | PIdle
    | PLoaded(v: T, prod: nat)       // own position loaded
    | PCacheFull(v: T, prod: nat)    // cache says full: reload is next
    | PReloaded(v: T, prod: nat)     // cache refreshed: second test is next
    | PMayWrite(v: T, prod: nat)     // a slot is free
    | PWritten(v: T, prod: nat)      // slot filled: publication is next

  datatype Consumer<T> =
    | CIdle
    | CLoaded(cons: nat)
    | CCacheEmpty(cons: nat)
    | CReloaded(cons: nat)
    | CMayRead(cons: nat)
    | CMovedOut(cons: nat, out: T)

  datatype State<T> = State(
    logCap: nat,
    buf: seq<T>,
    producerPos: nat,
    consumerPos: nat,
    cachedConsumer: nat,             // producer-private snapshot
    cachedProducer: nat,             // consumer-private snapshot
    producer: Producer<T>,
    consumer: Consumer<T>,
    producerView: nat,               // newest consumer position the producer has acquired
    consumerView: nat,               // newest producer position the consumer has acquired
    lastWrite: seq<nat>,             // per slot: 1 + position of its last push, 0 if none
    lastMove: seq<nat>,              // per slot: 1 + position of its last pop, 0 if none
    raced: bool,
    pushed: seq<T>,                  // values whose publication is done, in order
    popped: seq<T>)

  datatype Step<T> =
    | PStart(v: T)
    | PTest
    | PReload(seen: nat)
    | PRetest
    | PWrite(junk: T)
    | PPublish
    | CStart
    | CTest
    | CReload(seen: nat)
    | CRetest
    | CMove(torn: T, left: T)
    | CPublish

  function Capacity<T>(s: State<T>): nat { Pow2(s.logCap) }

  /** `pos & kMask`. */
  function Slot(logCap: nat, pos: nat): nat { BitAnd(pos, Pow2(logCap) - 1) }

  ghost predicate Init<T>(s: State<T>) {
    && s.logCap >= 1
    && |s.buf| == |s.lastWrite| == |s.lastMove| == Capacity(s)
    && (forall i :: 0 <= i < |s.buf| ==> s.lastWrite[i] == 0 && s.lastMove[i] == 0)
    && s.producerPos == s.consumerPos == s.cachedConsumer == s.cachedProducer == 0
    && s.producerView == s.consumerView == 0
    && s.producer == PIdle && s.consumer == CIdle
    && !s.raced && s.pushed == [] && s.popped == []
  }

  predicate Enabled<T>(s: State<T>, a: Step<T>) {
    match a
    case PStart(_) => s.producer.PIdle?
    case PTest => s.producer.PLoaded?
    case PReload(seen) => s.producer.PCacheFull? && s.producerView <= seen <= s.consumerPos
    case PRetest => s.producer.PReloaded?
    case PWrite(_) => s.producer.PMayWrite?
    case PPublish => s.producer.PWritten?
    case CStart => s.consumer.CIdle?
    case CTest => s.consumer.CLoaded?
    case CReload(seen) => s.consumer.CCacheEmpty? && s.consumerView <= seen <= s.producerPos
    case CRetest => s.consumer.CReloaded?
    case CMove(_, _) => s.consumer.CMayRead?
    case CPublish => s.consumer.CMovedOut?
  }

  function Apply<T>(s: State<T>, a: Step<T>): State<T>
    requires Enabled(s, a)
  {
    match a
    case PStart(v) => s.(producer := PLoaded(v, s.producerPos))
    case PTest =>
      var PLoaded(v, prod) := s.producer;
      if prod - s.cachedConsumer >= Capacity(s)
      then s.(producer := PCacheFull(v, prod))
      else s.(producer := PMayWrite(v, prod))
    case PReload(seen) =>
      s.(cachedConsumer := seen, producerView := seen,
         producer := PReloaded(s.producer.v, s.producer.prod))
    case PRetest =>
      var PReloaded(v, prod) := s.producer;
      if prod - s.cachedConsumer >= Capacity(s)
      then s.(producer := PIdle)
      else s.(producer := PMayWrite(v, prod))
    case PWrite(junk) => Write(s, s.producer.v, s.producer.prod, junk)
    case PPublish =>
      s.(producerPos := s.producer.prod + 1, pushed := s.pushed + [s.producer.v], producer := PIdle)
    case CStart => s.(consumer := CLoaded(s.consumerPos))
    case CTest =>
      if s.consumer.cons == s.cachedProducer
      then s.(consumer := CCacheEmpty(s.consumer.cons))
      else s.(consumer := CMayRead(s.consumer.cons))
    case CReload(seen) =>
      s.(cachedProducer := seen, consumerView := seen, consumer := CReloaded(s.consumer.cons))
    case CRetest =>
      if s.consumer.cons == s.cachedProducer
      then s.(consumer := CIdle)
      else s.(consumer := CMayRead(s.consumer.cons))
    case CMove(torn, left) => Move(s, s.consumer.cons, torn, left)
    case CPublish =>
      s.(consumerPos := s.consumer.cons + 1, popped := s.popped + [s.consumer.out], consumer := CIdle)
  }

  /** Plain store to the slot; racy unless the consumer's last access to it was acquired. */
  function Write<T>(s: State<T>, v: T, prod: nat, junk: T): State<T> {
    var i := Slot(s.logCap, prod);
    if i < |s.buf| && i < |s.lastMove| && i < |s.lastWrite| && s.lastMove[i] <= s.producerView then
      s.(buf := s.buf[i := v], lastWrite := s.lastWrite[i := prod + 1], producer := PWritten(v, prod))
    else
      s.(buf := seq(|s.buf|, _ => junk), raced := true, producer := PWritten(v, prod))
  }

  /** Plain move out of the slot; racy unless the producer's last store to it was acquired. */
  function Move<T>(s: State<T>, cons: nat, torn: T, left: T): State<T> {
    var i := Slot(s.logCap, cons);
    if i < |s.buf| && i < |s.lastMove| && i < |s.lastWrite| && s.lastWrite[i] <= s.consumerView then
      s.(buf := s.buf[i := left], lastMove := s.lastMove[i := cons + 1],
         consumer := CMovedOut(cons, s.buf[i]))
    else
      s.(raced := true, consumer := CMovedOut(cons, torn))
  }

  // ---- the invariant ---------------------------------------------------------

  /** Positions below this have been moved out of their slots. */
  function MovedUpTo<T>(s: State<T>): nat {
    s.consumerPos + if s.consumer.CMovedOut? then 1 else 0
  }

  /** Positions below this have been stored in their slots. */
  function WrittenUpTo<T>(s: State<T>): nat {
    s.producerPos + if s.producer.PWritten? then 1 else 0
  }

  ghost predicate Positions<T>(s: State<T>) {
    && s.logCap >= 1
    && |s.buf| == |s.lastWrite| == |s.lastMove| == Capacity(s)
    && |s.pushed| == s.producerPos && |s.popped| == s.consumerPos
    && s.producerView == s.cachedConsumer <= s.consumerPos <= s.cachedProducer
    && s.cachedProducer == s.consumerView <= s.producerPos <= s.cachedConsumer + Capacity(s)
    && !s.raced
  }

  ghost predicate ProducerLocal<T>(s: State<T>) {
    match s.producer
    case PIdle => true
    case PLoaded(_, prod) => prod == s.producerPos
    case PCacheFull(_, prod) => prod == s.producerPos == s.cachedConsumer + Capacity(s)
    case PReloaded(_, prod) => prod == s.producerPos
    case PMayWrite(_, prod) => prod == s.producerPos < s.cachedConsumer + Capacity(s)
    case PWritten(_, prod) => prod == s.producerPos < s.cachedConsumer + Capacity(s)
  }

  ghost predicate ConsumerLocal<T>(s: State<T>)
    requires Positions(s)
  {
    match s.consumer
    case CIdle => true
    case CLoaded(cons) => cons == s.consumerPos
    case CCacheEmpty(cons) => cons == s.consumerPos == s.cachedProducer
    case CReloaded(cons) => cons == s.consumerPos
    case CMayRead(cons) => cons == s.consumerPos < s.cachedProducer
    case CMovedOut(cons, out) => cons == s.consumerPos < s.cachedProducer && out == s.pushed[cons]
  }

  /** The value position k carries once its slot has been stored. */
  function Item<T>(s: State<T>, k: nat): T
    requires |s.pushed| == s.producerPos && k < WrittenUpTo(s)
  {
    if k < s.producerPos then s.pushed[k] else s.producer.v
  }

  ghost predicate Slots<T>(s: State<T>)
    requires Positions(s)
  {
    && (forall k: nat :: Slot(s.logCap, k) < Capacity(s))
    && (forall k: nat :: MovedUpTo(s) <= k < WrittenUpTo(s) ==>
          s.buf[Slot(s.logCap, k)] == Item(s, k) && s.lastWrite[Slot(s.logCap, k)] == k + 1)
    && (forall i :: 0 <= i < Capacity(s) && s.lastMove[i] > 0 ==>
          s.lastMove[i] <= MovedUpTo(s) && Slot(s.logCap, s.lastMove[i] - 1) == i)
  }

  ghost predicate Inv<T>(s: State<T>) {
    && Positions(s) && ProducerLocal(s) && ConsumerLocal(s) && Slots(s)
    && s.popped == s.pushed[..s.consumerPos]
  }

  // ---- slot arithmetic -------------------------------------------------------

  lemma SlotInRange(logCap: nat)
    ensures forall k: nat :: Slot(logCap, k) < Pow2(logCap)
  {
    forall k: nat ensures Slot(logCap, k) < Pow2(logCap) { MaskIsMod(k, logCap); }
  }

  lemma SlotsDiffer(logCap: nat, j: nat, k: nat)
    requires j < k < j + Pow2(logCap)
    ensures Slot(logCap, j) != Slot(logCap, k)
  {
    MaskIsMod(j, logCap);
    MaskIsMod(k, logCap);
    NearbyRemaindersDiffer(j, k, Pow2(logCap));
  }

  // ---- preservation ----------------------------------------------------------

  lemma InitInv<T>(s: State<T>)
    requires Init(s)
    ensures Inv(s)
  {
    SlotInRange(s.logCap);
  }

  /** The store is ordered after the pop that freed the slot, and hits no live slot. */
  lemma WriteKeepsInv<T>(s: State<T>, junk: T)
    requires Inv(s) && s.producer.PMayWrite?
    ensures Inv(Apply(s, PWrite(junk)))
  {
    var p := s.producer.prod;
    var i := Slot(s.logCap, p);
    if s.lastMove[i] > s.producerView {
      SlotsDiffer(s.logCap, s.lastMove[i] - 1, p);
    }
    forall k: nat | MovedUpTo(s) <= k < p ensures Slot(s.logCap, k) != i {
      SlotsDiffer(s.logCap, k, p);
    }
  }

  /** The move is ordered after the push that filled the slot, and hits no other live slot. */
  lemma MoveKeepsInv<T>(s: State<T>, torn: T, left: T)
    requires Inv(s) && s.consumer.CMayRead?
    ensures Inv(Apply(s, CMove(torn, left)))
  {
    var c := s.consumer.cons;
    var i := Slot(s.logCap, c);
    forall k: nat | c < k < WrittenUpTo(s) ensures Slot(s.logCap, k) != i {
      SlotsDiffer(s.logCap, c, k);
    }
  }

  lemma ProducerKeepsInv<T>(s: State<T>, a: Step<T>)
    requires Inv(s) && Enabled(s, a)
    requires a.PStart? || a.PTest? || a.PReload? || a.PRetest? || a.PPublish?
    ensures Inv(Apply(s, a))
  {
    if a.PPublish? { PushPublishKeepsInv(s); }
  }

  lemma PushPublishKeepsInv<T>(s: State<T>)
    requires Inv(s) && s.producer.PWritten?
    ensures Inv(Apply(s, PPublish))
  {
  }

  lemma ConsumerKeepsInv<T>(s: State<T>, a: Step<T>)
    requires Inv(s) && Enabled(s, a)
    requires a.CStart? || a.CTest? || a.CReload? || a.CRetest? || a.CPublish?
    ensures Inv(Apply(s, a))
  {
    if a.CPublish? { PopPublishKeepsInv(s); }
  }

  lemma PopPublishKeepsInv<T>(s: State<T>)
    requires Inv(s) && s.consumer.CMovedOut?
    ensures Inv(Apply(s, CPublish))
  {
    var t, c := Apply(s, CPublish), s.consumerPos;
    assert s.pushed[..c] + [s.pushed[c]] == s.pushed[..c + 1];
    assert MovedUpTo(t) == MovedUpTo(s) && WrittenUpTo(t) == WrittenUpTo(s);
    assert Positions(t);
    SlotsDependOn(s, t);
  }

  lemma SlotsDependOn<T>(s: State<T>, t: State<T>)
    requires Positions(s) && Positions(t) && Slots(s)
    requires t == s.(consumer := t.consumer, consumerPos := t.consumerPos, popped := t.popped)
    requires MovedUpTo(t) == MovedUpTo(s)
    ensures Slots(t)
  {
    assert forall k: nat :: k < WrittenUpTo(s) ==> Item(t, k) == Item(s, k);
  }

  lemma StepKeepsInv<T>(s: State<T>, a: Step<T>)
    requires Inv(s) && Enabled(s, a)
    ensures Inv(Apply(s, a))
  {
    match a {
      case PWrite(junk) => WriteKeepsInv(s, junk);
      case CMove(torn, left) => MoveKeepsInv(s, torn, left);
      case PStart(_) => ProducerKeepsInv(s, a);
      case PTest => ProducerKeepsInv(s, a);
      case PReload(_) => ProducerKeepsInv(s, a);
      case PRetest => ProducerKeepsInv(s, a);
      case PPublish => ProducerKeepsInv(s, a);
      case _ => ConsumerKeepsInv(s, a);
    }
  }

  // ---- what the invariant means ----------------------------------------------

  /** In a reachable state no slot is touched by both threads: whichever of the
      store and the move is pending or unpublished, they are on different slots. */
  lemma SlotsAreExclusive<T>(s: State<T>)
    requires Inv(s)
    requires s.producer.PMayWrite? || s.producer.PWritten?
    requires s.consumer.CMayRead? || s.consumer.CMovedOut?
    ensures Slot(s.logCap, s.producer.prod) != Slot(s.logCap, s.consumer.cons)
  {
    SlotsDiffer(s.logCap, s.consumer.cons, s.producer.prod);
  }

  /** The values published and not yet popped. */
  ghost function Contents<T>(s: State<T>): seq<T>
    requires s.consumerPos <= s.producerPos <= |s.pushed|
  {
    s.pushed[s.consumerPos..s.producerPos]
  }

  // ---- refinement of a bounded FIFO --------------------------------------------

  /** What one step shows to the callers of push and pop.  A refusal is decided
      where the other side's position is reloaded. */
  datatype Event<T> = Silent | Pushed(v: T) | PushRefused | Popped(v: T) | PopRefused

  function EventOf<T>(s: State<T>, a: Step<T>): Event<T>
    requires Enabled(s, a)
  {
    match a
    case PPublish => Pushed(s.producer.v)
    case CPublish => Popped(s.consumer.out)
    case PReload(seen) => if s.producer.prod - seen >= Capacity(s) then PushRefused else Silent
    case CReload(seen) => if s.consumer.cons == seen then PopRefused else Silent
    case _ => Silent
  }

  /** The bounded queue: push appends unless full, pop removes the head unless
      empty, and each is refused exactly then. */
  ghost predicate FifoAllows<T>(cap: nat, q: seq<T>, e: Event<T>) {
    match e
    case Silent => true
    case Pushed(v) => |q| < cap
    case PushRefused => |q| == cap
    case Popped(v) => |q| > 0 && v == q[0]
    case PopRefused => |q| == 0
  }

  function FifoAfter<T>(q: seq<T>, e: Event<T>): seq<T> {
    match e
    case Pushed(v) => q + [v]
    case Popped(_) => if q == [] then [] else q[1..]
    case _ => q
  }

  predicate IsRefusal<T>(e: Event<T>) { e.PushRefused? || e.PopRefused? }

  /** The step's acquire load, if it is one, returned the current position. */
  predicate Current<T>(s: State<T>, a: Step<T>) {
    match a
    case PReload(seen) => seen == s.consumerPos
    case CReload(seen) => seen == s.producerPos
    case _ => true
  }

  /** Every step is a step of the bounded queue, except exactly the refusals
      taken on a stale load; those leave the queue as it is. */
  lemma StepRefinesFifo<T>(s: State<T>, a: Step<T>)
    requires Inv(s) && Enabled(s, a)
    ensures Inv(Apply(s, a))
    ensures Contents(Apply(s, a)) == FifoAfter(Contents(s), EventOf(s, a))
    ensures FifoAllows(Capacity(s), Contents(s), EventOf(s, a))
            <==> (IsRefusal(EventOf(s, a)) ==> Current(s, a))
  {
    StepKeepsInv(s, a);
    StepContents(s, a);
    match a {
      case PReload(seen) => PushRefusalIff(s, seen);
      case CReload(seen) => PopRefusalIff(s, seen);
      case _ =>
    }
  }

  lemma StepContents<T>(s: State<T>, a: Step<T>)
    requires Inv(s) && Enabled(s, a)
    ensures var t := Apply(s, a);
            && t.consumerPos <= t.producerPos <= |t.pushed|
            && Contents(t) == FifoAfter(Contents(s), EventOf(s, a))
  {
    if a.CPublish? { FirstContent(s); }
    if a.PPublish? { assert s.pushed + [s.producer.v] == s.pushed[..s.consumerPos] + (Contents(s) + [s.producer.v]); }
  }

  lemma PushRefusalIff<T>(s: State<T>, seen: nat)
    requires Inv(s) && Enabled(s, PReload(seen))
    ensures var e := EventOf(s, PReload(seen));
            FifoAllows(Capacity(s), Contents(s), e) <==> (IsRefusal(e) ==> seen == s.consumerPos)
  {
    assert |Contents(s)| == s.producerPos - s.consumerPos;
  }

  lemma PopRefusalIff<T>(s: State<T>, seen: nat)
    requires Inv(s) && Enabled(s, CReload(seen))
    ensures var e := EventOf(s, CReload(seen));
            FifoAllows(Capacity(s), Contents(s), e) <==> (IsRefusal(e) ==> seen == s.producerPos)
  {
    assert |Contents(s)| == s.producerPos - s.consumerPos;
  }

  /** A full ring can be refused although it has room exactly when the consumer
      has moved past what the producer last acquired. */
  lemma SpuriousRefusalIff<T>(s: State<T>)
    requires Inv(s) && s.producer.PCacheFull?
    ensures (exists seen: nat ::
               && Enabled(s, PReload(seen)) && EventOf(s, PReload(seen)) == PushRefused
               && |Contents(s)| < Capacity(s))
            <==> s.producerView < s.consumerPos
  {
    if s.producerView < s.consumerPos {
      assert Enabled(s, PReload(s.producerView));
      assert EventOf(s, PReload(s.producerView)) == PushRefused;
    }
  }

  /** Likewise for the consumer: a ring that holds values can be found empty exactly
      when the producer has moved past what the consumer last acquired. */
  lemma SpuriousEmptyIff<T>(s: State<T>)
    requires Inv(s) && s.consumer.CCacheEmpty?
    ensures (exists seen: nat ::
               && Enabled(s, CReload(seen)) && EventOf(s, CReload(seen)) == PopRefused
               && |Contents(s)| > 0)
            <==> s.consumerView < s.producerPos
  {
    if s.consumerView < s.producerPos {
      assert Enabled(s, CReload(s.consumerView));
      assert EventOf(s, CReload(s.consumerView)) == PopRefused;
    }
  }

  // ---- whole runs ----------------------------------------------------------------

  predicate Runs<T>(s: State<T>, steps: seq<Step<T>>)
    decreases |steps|
  {
    steps == [] || (Enabled(s, steps[0]) && Runs(Apply(s, steps[0]), steps[1..]))
  }

  function Exec<T>(s: State<T>, steps: seq<Step<T>>): State<T>
    requires Runs(s, steps)
    decreases |steps|
  {
    if steps == [] then s else Exec(Apply(s, steps[0]), steps[1..])
  }

  function Events<T>(s: State<T>, steps: seq<Step<T>>): seq<Event<T>>
    requires Runs(s, steps)
    decreases |steps|
  {
    if steps == [] then []
    else [EventOf(s, steps[0])] + Events(Apply(s, steps[0]), steps[1..])
  }

  predicate AllCurrent<T>(s: State<T>, steps: seq<Step<T>>)
    requires Runs(s, steps)
    decreases |steps|
  {
    steps == [] || (Current(s, steps[0]) && AllCurrent(Apply(s, steps[0]), steps[1..]))
  }

  /** `events` takes the bounded queue from q to q'; with `spurious`, refusals
      are also allowed when they are not due. */
  ghost predicate FifoRun<T>(cap: nat, spurious: bool, q: seq<T>, events: seq<Event<T>>, q': seq<T>)
    decreases |events|
  {
    if events == [] then q' == q
    else
      && (FifoAllows(cap, q, events[0]) || (spurious && IsRefusal(events[0])))
      && FifoRun(cap, spurious, FifoAfter(q, events[0]), events[1..], q')
  }

  function PushedValues<T>(events: seq<Event<T>>): seq<T> {
    if events == [] then []
    else (if events[0].Pushed? then [events[0].v] else []) + PushedValues(events[1..])
  }

  function PoppedValues<T>(events: seq<Event<T>>): seq<T> {
    if events == [] then []
    else (if events[0].Popped? then [events[0].v] else []) + PoppedValues(events[1..])
  }

  lemma {:induction false} RunRefines<T>(s: State<T>, steps: seq<Step<T>>, spurious: bool)
    requires Inv(s) && Runs(s, steps) && (spurious || AllCurrent(s, steps))
    ensures Inv(Exec(s, steps)) && Exec(s, steps).logCap == s.logCap
    ensures FifoRun(Capacity(s), spurious, Contents(s), Events(s, steps), Contents(Exec(s, steps)))
    decreases |steps|
  {
    if steps != [] {
      var s1 := Apply(s, steps[0]);
      StepRefinesFifo(s, steps[0]);
      RunRefines(s1, steps[1..], spurious);
      assert Events(s, steps)[1..] == Events(s1, steps[1..]);
    }
  }

  /** The histories of a state are what the events showed. */
  lemma {:induction false} RunHistory<T>(s: State<T>, steps: seq<Step<T>>)
    requires Runs(s, steps)
    ensures Exec(s, steps).pushed == s.pushed + PushedValues(Events(s, steps))
    ensures Exec(s, steps).popped == s.popped + PoppedValues(Events(s, steps))
    decreases |steps|
  {
    if steps != [] {
      StepHistory(s, steps[0]);
      RunHistory(Apply(s, steps[0]), steps[1..]);
      assert Events(s, steps)[1..] == Events(Apply(s, steps[0]), steps[1..]);
    }
  }

  lemma StepHistory<T>(s: State<T>, a: Step<T>)
    requires Enabled(s, a)
    ensures var e := EventOf(s, a);
            && Apply(s, a).pushed == s.pushed + (if e.Pushed? then [e.v] else [])
            && Apply(s, a).popped == s.popped + (if e.Popped? then [e.v] else [])
  {
  }

  /** Every interleaving from the empty ring, stale loads included: no data race
      and no value lost, duplicated or reordered; the callers see a run of the
      bounded queue, and with current loads also every refusal is due. */
  lemma EveryRunIsFifo<T>(s: State<T>, steps: seq<Step<T>>)
    requires Init(s) && Runs(s, steps)
    ensures var t := Exec(s, steps);
            && Inv(t) && !t.raced
            && FifoRun(Capacity(s), true, [], Events(s, steps), Contents(t))
            && (AllCurrent(s, steps) ==> FifoRun(Capacity(s), false, [], Events(s, steps), Contents(t)))
            && PushedValues(Events(s, steps)) == PoppedValues(Events(s, steps)) + Contents(t)
            && |Contents(t)| <= Capacity(s)
  {
    InitInv(s);
    RunRefines(s, steps, true);
    if AllCurrent(s, steps) { RunRefines(s, steps, false); }
    RunHistory(s, steps);
    var t := Exec(s, steps);
    assert t.pushed == PushedValues(Events(s, steps)) && t.popped == PoppedValues(Events(s, steps));
    assert t.pushed == t.pushed[..t.consumerPos] + Contents(t);
  }

  // ---- what a call returns ---------------------------------------------------------

  /** What a call hands its caller at the step that ends it. */
  function ReturnOf<T>(s: State<T>, a: Step<T>): Event<T>
    requires Enabled(s, a)
  {
    match a
    case PPublish => Pushed(s.producer.v)
    case CPublish => Popped(s.consumer.out)
    case PRetest => if Apply(s, a).producer.PIdle? then PushRefused else Silent
    case CRetest => if Apply(s, a).consumer.CIdle? then PopRefused else Silent
    case _ => Silent
  }

  function Returns<T>(s: State<T>, steps: seq<Step<T>>): seq<Event<T>>
    requires Runs(s, steps)
    decreases |steps|
  {
    if steps == [] then []
    else [ReturnOf(s, steps[0])] + Returns(Apply(s, steps[0]), steps[1..])
  }

  /** The events that concern one thread. */
  function Concerning<T>(push: bool, events: seq<Event<T>>): seq<Event<T>> {
    if events == [] then [] else Kept(push, events[0]) + Concerning(push, events[1..])
  }

  function Kept<T>(push: bool, e: Event<T>): seq<Event<T>> {
    if (if push then e.Pushed? || e.PushRefused? else e.Popped? || e.PopRefused?) then [e] else []
  }

  /** A refusal that is decided and not yet returned. */
  function Owed<T>(push: bool, s: State<T>): seq<Event<T>> {
    if push then
      if s.producer.PReloaded? && s.producer.prod - s.cachedConsumer >= Capacity(s) then [PushRefused] else []
    else
      if s.consumer.CReloaded? && s.consumer.cons == s.cachedProducer then [PopRefused] else []
  }

  lemma StepOwes<T>(push: bool, s: State<T>, a: Step<T>)
    requires Enabled(s, a)
    ensures Owed(push, s) + Concerning(push, [EventOf(s, a)]) ==
            Concerning(push, [ReturnOf(s, a)]) + Owed(push, Apply(s, a))
  {
    var e, r, t := EventOf(s, a), ReturnOf(s, a), Apply(s, a);
    assert [e][1..] == [] && [r][1..] == [];
    if push { PushOwes(s, a); } else { PopOwes(s, a); }
  }

  lemma PushOwes<T>(s: State<T>, a: Step<T>)
    requires Enabled(s, a)
    ensures var e, r, t := EventOf(s, a), ReturnOf(s, a), Apply(s, a);
            Owed(true, s) + (if e.Pushed? || e.PushRefused? then [e] else [])
            == (if r.Pushed? || r.PushRefused? then [r] else []) + Owed(true, t)
  {
  }

  lemma PopOwes<T>(s: State<T>, a: Step<T>)
    requires Enabled(s, a)
    ensures var e, r, t := EventOf(s, a), ReturnOf(s, a), Apply(s, a);
            Owed(false, s) + (if e.Popped? || e.PopRefused? then [e] else [])
            == (if r.Popped? || r.PopRefused? then [r] else []) + Owed(false, t)
  {
  }

  /** In every run a call returns what its event showed, call by call: each thread's
      returns are its events, save a refusal decided at the reload and not yet returned. */
  lemma {:induction false} CallsReturnTheirEvents<T>(push: bool, s: State<T>, steps: seq<Step<T>>)
    requires Runs(s, steps)
    ensures Owed(push, s) + Concerning(push, Events(s, steps)) ==
            Concerning(push, Returns(s, steps)) + Owed(push, Exec(s, steps))
    decreases |steps|
  {
    if steps != [] {
      var a, s1 := steps[0], Apply(s, steps[0]);
      var e, r := EventOf(s, a), ReturnOf(s, a);
      StepOwes(push, s, a);
      CallsReturnTheirEvents(push, s1, steps[1..]);
      FirstConcerning(push, e, Events(s1, steps[1..]));
      FirstConcerning(push, r, Returns(s1, steps[1..]));
      Regroup(Owed(push, s), Concerning(push, [e]), Concerning(push, Events(s1, steps[1..])),
              Concerning(push, [r]), Owed(push, s1), Concerning(push, Returns(s1, steps[1..])),
              Owed(push, Exec(s, steps)));
    }
  }

  lemma FirstConcerning<T>(push: bool, e: Event<T>, events: seq<Event<T>>)
    ensures Concerning(push, [e] + events) == Concerning(push, [e]) + Concerning(push, events)
  {
    assert ([e] + events)[1..] == events && [e][1..] == [];
    assert Concerning(push, [e]) == Kept(push, e) + [];
  }

  lemma Regroup<T>(a: seq<T>, b: seq<T>, c: seq<T>, d: seq<T>, e: seq<T>, f: seq<T>, g: seq<T>)
    requires a + b == d + e && e + c == f + g
    ensures a + (b + c) == (d + f) + g
  {
    assert a + (b + c) == (a + b) + c == d + (e + c);
    assert d + (f + g) == (d + f) + g;
  }

  // ---- reachable states ---------------------------------------------------------------

  ghost predicate Leads<T(!new)>(s: State<T>, t: State<T>) {
    exists steps :: Runs(s, steps) && Exec(s, steps) == t
  }

  ghost predicate Reachable<T(!new)>(s: State<T>) {
    exists s0: State<T> :: Init(s0) && Leads(s0, s)
  }

  lemma {:induction false} RunThenStep<T>(s0: State<T>, steps: seq<Step<T>>, a: Step<T>)
    requires Runs(s0, steps) && Enabled(Exec(s0, steps), a)
    ensures Runs(s0, steps + [a]) && Exec(s0, steps + [a]) == Apply(Exec(s0, steps), a)
    decreases |steps|
  {
    if steps != [] {
      assert (steps + [a])[1..] == steps[1..] + [a];
      RunThenStep(Apply(s0, steps[0]), steps[1..], a);
    } else {
      assert steps + [a] == [a];
      assert Runs(Apply(s0, a), [a][1..]);
    }
  }

  lemma OneStep<T(!new)>(s0: State<T>, s: State<T>, a: Step<T>) returns (s': State<T>)
    requires Leads(s0, s) && Inv(s) && Enabled(s, a)
    ensures s' == Apply(s, a) && Leads(s0, s') && Inv(s')
  {
    StepKeepsInv(s, a);
    var steps :| Runs(s0, steps) && Exec(s0, steps) == s;
    RunThenStep(s0, steps, a);
    s' := Apply(s, a);
  }

  /** An empty ring of two, and a run of no steps from it. */
  lemma EmptyRing() returns (s: State<int>)
    ensures Init(s) && Inv(s) && Leads(s, s) && Capacity(s) == 2
  {
    s := State(1, [0, 0], 0, 0, 0, 0, PIdle, CIdle, 0, 0, [0, 0], [0, 0], false, [], []);
    InitInv(s);
    assert Runs(s, []) && Exec(s, []) == s;
  }

  /** The stale refusal does happen: two pushes fill a ring of two, one pop makes
      room, and a third push that still loads consumer position 0 is refused. */
  lemma StaleRefusalIsReachable() returns (s: State<int>)
    ensures Reachable(s) && Inv(s)
    ensures Enabled(s, PReload(0)) && EventOf(s, PReload(0)) == PushRefused
    ensures |Contents(s)| == 1 < Capacity(s)
  {
    var s0 := EmptyRing();
    s := PushOne(s0, s0, 7);
    s := PushOne(s0, s, 8);
    s := PopOne(s0, s);
    s := OneStep(s0, s, PStart(9));
    s := OneStep(s0, s, PTest);
  }

  /** So does its mirror: with one value in the ring, a pop that still loads
      producer position 0 finds it empty. */
  lemma StaleEmptyIsReachable() returns (s: State<int>)
    ensures Reachable(s) && Inv(s)
    ensures Enabled(s, CReload(0)) && EventOf(s, CReload(0)) == PopRefused
    ensures |Contents(s)| == 1
  {
    var s0 := EmptyRing();
    s := PushOne(s0, s0, 7);
    s := OneStep(s0, s, CStart);
    s := OneStep(s0, s, CTest);
  }

  /** An uninterrupted push that finds room by its cache. */
  lemma PushOne<T(!new)>(s0: State<T>, s: State<T>, v: T) returns (t: State<T>)
    requires Leads(s0, s) && Inv(s) && s.producer.PIdle?
    requires s.producerPos < s.cachedConsumer + Capacity(s)
    ensures Leads(s0, t) && Inv(t)
    ensures t.producer.PIdle? && t.consumer == s.consumer && t.logCap == s.logCap
    ensures t.producerPos == s.producerPos + 1 && t.consumerPos == s.consumerPos
    ensures t.cachedConsumer == s.cachedConsumer && t.cachedProducer == s.cachedProducer
  {
    t := OneStep(s0, s, PStart(v));
    t := OneStep(s0, t, PTest);
    t := OneStep(s0, t, PWrite(v));
    t := OneStep(s0, t, PPublish);
  }

  /** An uninterrupted pop that has to reload, and loads the current position. */
  lemma PopOne<T(!new)>(s0: State<T>, s: State<T>) returns (t: State<T>)
    requires Leads(s0, s) && Inv(s) && s.consumer.CIdle?
    requires s.consumerPos == s.cachedProducer < s.producerPos
    ensures Leads(s0, t) && Inv(t)
    ensures t.consumer.CIdle? && t.producer == s.producer && t.logCap == s.logCap
    ensures t.producerPos == s.producerPos && t.consumerPos == s.consumerPos + 1
    ensures t.cachedConsumer == s.cachedConsumer && t.cachedProducer == s.producerPos
  {
    t := OneStep(s0, s, CStart);
    t := OneStep(s0, t, CTest);
    t := OneStep(s0, t, CReload(s.producerPos));
    t := FinishPop(s0, t);
  }

  lemma FinishPop<T(!new)>(s0: State<T>, s: State<T>) returns (t: State<T>)
    requires Leads(s0, s) && Inv(s) && s.consumer.CReloaded? && s.consumerPos < s.cachedProducer
    ensures Leads(s0, t) && Inv(t)
    ensures t == s.(consumer := CIdle, consumerPos := s.consumerPos + 1, buf := t.buf,
                    lastMove := t.lastMove, popped := t.popped)
  {
    var junk := s.pushed[0];
    t := OneStep(s0, s, CRetest);
    t := OneStep(s0, t, CMove(junk, junk));
    t := OneStep(s0, t, CPublish);
  }

  // ---- whole calls, with stale loads ------------------------------------------------

  /** One thread's steps lead from s to t while the other takes none. */
  ghost predicate Alone<T(!new)>(producer: bool, s: State<T>, t: State<T>) {
    exists steps ::
      && Runs(s, steps) && Exec(s, steps) == t
      && forall i :: 0 <= i < |steps| ==> IsProducerStep(steps[i]) == producer
  }

  lemma AloneNowhere<T(!new)>(producer: bool, s: State<T>)
    ensures Alone(producer, s, s)
  {
    assert Runs(s, []) && Exec(s, []) == s;
  }

  lemma AloneOn<T(!new)>(s0: State<T>, s: State<T>, a: Step<T>) returns (t: State<T>)
    requires Alone(IsProducerStep(a), s0, s) && Inv(s) && Enabled(s, a)
    ensures t == Apply(s, a) && Alone(IsProducerStep(a), s0, t) && Inv(t)
  {
    StepKeepsInv(s, a);
    t := Apply(s, a);
    var steps :| Runs(s0, steps) && Exec(s0, steps) == s
                 && forall i :: 0 <= i < |steps| ==> IsProducerStep(steps[i]) == IsProducerStep(a);
    RunThenStep(s0, steps, a);
    var more := steps + [a];
    assert forall i :: 0 <= i < |more| ==> IsProducerStep(more[i]) == IsProducerStep(a);
  }

  lemma StoreAlone<T(!new)>(s0: State<T>, s: State<T>) returns (t: State<T>)
    requires Alone(true, s0, s) && Inv(s) && s.producer.PMayWrite?
    ensures Alone(true, s0, t) && Inv(t)
    ensures t == s.(producer := PIdle, producerPos := s.producerPos + 1, pushed := s.pushed + [s.producer.v],
                    buf := t.buf, lastWrite := t.lastWrite)
  {
    t := AloneOn(s0, s, PWrite(s.producer.v));
    t := AloneOn(s0, t, PPublish);
  }

  lemma FindRoomAlone<T(!new)>(s: State<T>, v: T, seen: nat) returns (t: State<T>)
    requires Inv(s) && s.producer.PIdle? && s.producerView <= seen <= s.consumerPos
    ensures Alone(true, s, t) && Inv(t)
    ensures var cached := s.producerPos - s.cachedConsumer < Capacity(s);
            var ok := cached || s.producerPos - seen < Capacity(s);
            t == s.(producer := if ok then PMayWrite(v, s.producerPos) else PIdle,
                    cachedConsumer := if cached then s.cachedConsumer else seen,
                    producerView := if cached then s.producerView else seen)
  {
    AloneNowhere(true, s);
    t := AloneOn(s, s, PStart(v));
    t := AloneOn(s, t, PTest);
    if t.producer.PCacheFull? {
      t := AloneOn(s, t, PReload(seen));
      t := AloneOn(s, t, PRetest);
    }
  }

  /** A whole push, for any position an acquire load may return: it is accepted if and
      only if the cached position or else the loaded one leaves room. */
  lemma PushAttempt<T(!new)>(s: State<T>, v: T, seen: nat) returns (t: State<T>)
    requires Inv(s) && s.producer.PIdle? && s.producerView <= seen <= s.consumerPos
    ensures Alone(true, s, t) && Inv(t) && t.producer.PIdle?
    ensures var cached := s.producerPos - s.cachedConsumer < Capacity(s);
            var ok := cached || s.producerPos - seen < Capacity(s);
            && t.logCap == s.logCap && t.popped == s.popped && t.consumerPos == s.consumerPos
            && t.producerPos == s.producerPos + (if ok then 1 else 0)
            && t.pushed == s.pushed + (if ok then [v] else [])
            && t.cachedConsumer == if cached then s.cachedConsumer else seen
  {
    t := FindRoomAlone(s, v, seen);
    if t.producer.PMayWrite? { t := StoreAlone(s, t); }
  }

  lemma TakeAlone<T(!new)>(s0: State<T>, s: State<T>) returns (t: State<T>)
    requires Alone(false, s0, s) && Inv(s) && s.consumer.CMayRead?
    ensures Alone(false, s0, t) && Inv(t)
    ensures t == s.(consumer := CIdle, consumerPos := s.consumerPos + 1, popped := s.popped + [Contents(s)[0]],
                    buf := t.buf, lastMove := t.lastMove)
  {
    var junk := s.pushed[0];
    MoveShape(s, junk);
    t := AloneOn(s0, s, CMove(junk, junk));
    t := AloneOn(s0, t, CPublish);
  }

  lemma MoveShape<T>(s: State<T>, junk: T)
    requires Inv(s) && s.consumer.CMayRead?
    ensures var t := Apply(s, CMove(junk, junk));
            t == s.(consumer := CMovedOut(s.consumerPos, Contents(s)[0]), buf := t.buf, lastMove := t.lastMove)
  {
    MoveKeepsInv(s, junk, junk);
    var t := Apply(s, CMove(junk, junk));
    FirstContent(s);
    assert !t.raced && t.consumer.out == t.pushed[s.consumerPos];
  }

  lemma FirstContent<T>(s: State<T>)
    requires s.consumerPos < s.producerPos <= |s.pushed|
    ensures Contents(s)[0] == s.pushed[s.consumerPos]
    ensures Contents(s)[1..] == s.pushed[s.consumerPos + 1..s.producerPos]
  {
  }

  lemma FindItemAlone<T(!new)>(s: State<T>, seen: nat) returns (t: State<T>)
    requires Inv(s) && s.consumer.CIdle? && s.consumerView <= seen <= s.producerPos
    ensures Alone(false, s, t) && Inv(t)
    ensures var cached := s.consumerPos < s.cachedProducer;
            var ok := cached || s.consumerPos < seen;
            t == s.(consumer := if ok then CMayRead(s.consumerPos) else CIdle,
                    cachedProducer := if cached then s.cachedProducer else seen,
                    consumerView := if cached then s.consumerView else seen)
  {
    AloneNowhere(false, s);
    t := AloneOn(s, s, CStart);
    t := AloneOn(s, t, CTest);
    if t.consumer.CCacheEmpty? {
      t := AloneOn(s, t, CReload(seen));
      t := AloneOn(s, t, CRetest);
    }
  }

  /** A whole pop, likewise: it yields the oldest value if and only if the cached
      position or else the loaded one shows one, and else nothing. */
  lemma PopAttempt<T(!new)>(s: State<T>, seen: nat) returns (t: State<T>)
    requires Inv(s) && s.consumer.CIdle? && s.consumerView <= seen <= s.producerPos
    ensures Alone(false, s, t) && Inv(t) && t.consumer.CIdle?
    ensures var ok := s.consumerPos < s.cachedProducer || s.consumerPos < seen;
            && (ok ==> |Contents(s)| > 0)
            && Contents(t) == (if ok then Contents(s)[1..] else Contents(s))
            && t.popped == s.popped + (if ok then [Contents(s)[0]] else [])
            && t.producerPos == s.producerPos && t.pushed == s.pushed
  {
    t := FindItemAlone(s, seen);
    if t.consumer.CMayRead? { t := TakeAlone(s, t); }
  }

  // ---- size_approx ----------------------------------------------------------------------

  const WORD := 0x1_0000_0000_0000_0000

  /** Two loads and a subtraction of 64-bit unsigned numbers. */
  function SizeApprox(producerPos: nat, consumerPos: nat): nat { (producerPos - consumerPos) % WORD }

  predicate IsProducerStep<T>(a: Step<T>) {
    a.PStart? || a.PTest? || a.PReload? || a.PRetest? || a.PWrite? || a.PPublish?
  }

  /** Positions only grow, and each thread moves only its own. */
  lemma {:induction false} RunGrows<T>(s: State<T>, steps: seq<Step<T>>)
    requires Inv(s) && Runs(s, steps)
    ensures var t := Exec(s, steps);
            && Inv(t) && t.logCap == s.logCap
            && s.producerPos <= t.producerPos && s.consumerPos <= t.consumerPos
            && ((forall i :: 0 <= i < |steps| ==> !IsProducerStep(steps[i])) ==> t.producerPos == s.producerPos)
            && ((forall i :: 0 <= i < |steps| ==> IsProducerStep(steps[i])) ==> t.consumerPos == s.consumerPos)
    decreases |steps|
  {
    if steps != [] {
      StepKeepsInv(s, steps[0]);
      StepGrows(s, steps[0]);
      RunGrows(Apply(s, steps[0]), steps[1..]);
      assert forall i :: 0 <= i < |steps| - 1 ==> steps[1..][i] == steps[i + 1];
    }
  }

  lemma StepGrows<T>(s: State<T>, a: Step<T>)
    requires Inv(s) && Enabled(s, a)
    ensures var t := Apply(s, a);
            && t.logCap == s.logCap && s.producerPos <= t.producerPos && s.consumerPos <= t.consumerPos
            && (if IsProducerStep(a) then t.consumerPos == s.consumerPos else t.producerPos == s.producerPos)
  {
  }

  /** Called by the producer, which takes no other step meanwhile: within the
      capacity and never below the true size, however stale the load. */
  lemma SizeSeenByProducer<T>(s: State<T>, steps: seq<Step<T>>, seen: nat)
    requires Inv(s) && Runs(s, steps) && forall i :: 0 <= i < |steps| ==> !IsProducerStep(steps[i])
    requires var t := Exec(s, steps); t.producerView <= seen <= t.consumerPos && t.producerPos < WORD
    ensures var t := Exec(s, steps);
            Inv(t) && |Contents(t)| <= SizeApprox(s.producerPos, seen) <= Capacity(s)
  {
    RunGrows(s, steps);
    Bounds(Exec(s, steps));
    NoWrap(s.producerPos, seen);
  }

  /** Called by the consumer: within the capacity and never above the size at the first load. */
  lemma SizeSeenByConsumer<T>(s: State<T>, steps: seq<Step<T>>, seen: nat)
    requires Inv(s) && Runs(s, steps) && forall i :: 0 <= i < |steps| ==> IsProducerStep(steps[i])
    requires s.consumerView <= seen <= s.producerPos < WORD
    ensures SizeApprox(seen, Exec(s, steps).consumerPos) <= |Contents(s)| <= Capacity(s)
  {
    RunGrows(s, steps);
    Bounds(s);
    NoWrap(seen, s.consumerPos);
  }

  lemma NoWrap(p: nat, c: nat)
    requires c <= p < c + WORD
    ensures SizeApprox(p, c) == p - c
  {
  }

  lemma Bounds<T>(s: State<T>)
    requires Inv(s)
    ensures s.producerView <= s.consumerPos <= s.consumerView <= s.producerPos <= s.producerView + Capacity(s)
    ensures |Contents(s)| == s.producerPos - s.consumerPos
  {
  }

  /** What the producer had acquired of the consumer when it published position p. */
  function ViewAt<T>(s: State<T>, steps: seq<Step<T>>, p: nat): nat
    requires Runs(s, steps) && s.producerPos < p <= Exec(s, steps).producerPos
    decreases |steps|
  {
    var t := Apply(s, steps[0]);
    if p <= t.producerPos then s.producerView else ViewAt(t, steps[1..], p)
  }

  /** It was within a capacity of p, and never ahead of the consumer. */
  lemma {:induction false} ViewAtBounds<T>(s: State<T>, steps: seq<Step<T>>, p: nat)
    requires Inv(s) && Runs(s, steps) && s.producerPos < p <= Exec(s, steps).producerPos
    ensures p <= ViewAt(s, steps, p) + Capacity(s) && ViewAt(s, steps, p) <= Exec(s, steps).consumerPos
    decreases |steps|
  {
    var t := Apply(s, steps[0]);
    StepKeepsInv(s, steps[0]);
    StepGrows(s, steps[0]);
    if p <= t.producerPos {
      PublishBound(s, steps[0]);
      RunGrows(t, steps[1..]);
    } else {
      ViewAtBounds(t, steps[1..], p);
    }
  }

  lemma PublishBound<T>(s: State<T>, a: Step<T>)
    requires Inv(s) && Enabled(s, a) && Apply(s, a).producerPos > s.producerPos
    ensures Apply(s, a).producerPos == s.producerPos + 1 <= s.producerView + Capacity(s)
    ensures s.producerView <= s.consumerPos
  {
  }

  /** A pair of loads a third thread may make in a run: any producer position ever
      published, then any consumer position that is not older than what came with it. */
  predicate Coherent<T>(s: State<T>, steps: seq<Step<T>>, p: nat, c: nat)
    requires Runs(s, steps) && s.producerPos == 0
  {
    && p <= Exec(s, steps).producerPos && c <= Exec(s, steps).consumerPos
    && (p > 0 ==> ViewAt(s, steps, p) <= c)
  }

  /** Called by a third thread, however stale its loads: the result is a size the ring
      can have if and only if the consumer position does not pass the producer's. */
  lemma SizeSeenByOthersIff<T>(s: State<T>, steps: seq<Step<T>>, p: nat, c: nat)
    requires Init(s) && Runs(s, steps) && Coherent(s, steps, p, c) && c + Capacity(s) < WORD
    ensures SizeApprox(p, c) <= Capacity(s) <==> c <= p
  {
    InitInv(s);
    if p > 0 { ViewAtBounds(s, steps, p); }
    WrapIff(p, c, Capacity(s));
  }

  /** With the producer position current at s and the consumer position current at a
      later t: if and only if the consumer has not overtaken the position first loaded. */
  lemma CurrentSizeIff<T>(s: State<T>, steps: seq<Step<T>>)
    requires Inv(s) && Runs(s, steps) && Exec(s, steps).producerPos + Capacity(s) < WORD
    ensures SizeApprox(s.producerPos, Exec(s, steps).consumerPos) <= Capacity(s)
            <==> Exec(s, steps).consumerPos <= s.producerPos
  {
    RunGrows(s, steps);
    Bounds(s);
    WrapIff(s.producerPos, Exec(s, steps).consumerPos, Capacity(s));
  }

  lemma WrapIff(p: nat, c: nat, cap: nat)
    requires p <= c + cap && c + cap < WORD
    ensures SizeApprox(p, c) <= cap <==> c <= p
  {
    if c <= p { NoWrap(p, c); } else { assert (p - c) % WORD == p - c + WORD; }
  }

  /** One push and one pop between the two loads, and an empty ring is reported
      to hold 2^64 - 1 values. */
  lemma WrappedSizeIsReachable() returns (s: State<int>, t: State<int>)
    ensures Init(s) && Leads(s, t) && Inv(t) && |Contents(t)| == 0
    ensures SizeApprox(s.producerPos, t.consumerPos) == WORD - 1
  {
    s := EmptyRing();
    t := PushOne(s, s, 7);
    t := PopOne(s, t);
  }
}
