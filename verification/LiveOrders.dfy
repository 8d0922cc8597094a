/** Which orders a decoder holds live, told from the messages alone. */
module LiveOrders {
  import opened Messages
  import opened BookSpec
  import opened Itch50Spec
  import opened Conservation

  /** The live orders after a stream of messages. */
  function Live(ms: seq<Msg>): Orders {
    if ms == [] then map[] else After(Live(ms[..|ms| - 1]), ms[|ms| - 1])
  }

  function Shares(m: Msg): int
    requires m.Add? || m.Replace?
  {
    m.shares
  }

  /** The message puts an order under the reference. */
  predicate Opens(m: Msg, ref: nat) { (m.Add? && m.ref == ref) || (m.Replace? && m.newRef == ref) }

  /** The message takes the order under the reference away whole. */
  predicate Closes(m: Msg, ref: nat) { (m.Remove? && m.ref == ref) || (m.Replace? && m.orig == ref) }

  predicate Reduces(m: Msg, ref: nat) { m.Reduce? && m.ref == ref }

  /** The last message that opened the reference, if any. */
  function Opened(ms: seq<Msg>, ref: nat): Option<Msg> {
    if ms == [] then None
    else if Opens(ms[|ms| - 1], ref) then Some(ms[|ms| - 1])
    else Opened(ms[..|ms| - 1], ref)
  }

  /** Shares by which the reference was reduced since, in all. */
  function ReducedBy(ms: seq<Msg>, ref: nat): nat {
    if ms == [] || Opens(ms[|ms| - 1], ref) then 0
    else ReducedBy(ms[..|ms| - 1], ref) + if Reduces(ms[|ms| - 1], ref) then ms[|ms| - 1].shares else 0
  }

  predicate Reduced(ms: seq<Msg>, ref: nat) {
    ms != [] && !Opens(ms[|ms| - 1], ref) && (Reduces(ms[|ms| - 1], ref) || Reduced(ms[..|ms| - 1], ref))
  }

  predicate Closed(ms: seq<Msg>, ref: nat) {
    ms != [] && !Opens(ms[|ms| - 1], ref) && (Closes(ms[|ms| - 1], ref) || Closed(ms[..|ms| - 1], ref))
  }

  /** Opened, not closed since, and not reduced since by as much as was opened; an
      order opened with no shares lasts until any reduction. */
  predicate StillOpen(ms: seq<Msg>, ref: nat) {
    && Opened(ms, ref).Some? && (Opened(ms, ref).value.Add? || Opened(ms, ref).value.Replace?)
    && !Closed(ms, ref)
    && (!Reduced(ms, ref) || ReducedBy(ms, ref) < Shares(Opened(ms, ref).value))
  }

  lemma {:induction false} OpenedOpens(ms: seq<Msg>, ref: nat)
    ensures Opened(ms, ref).Some? ==> Opens(Opened(ms, ref).value, ref) && Opened(ms, ref).value in ms
    ensures !Reduced(ms, ref) ==> ReducedBy(ms, ref) == 0
  {
    if ms != [] && !Opens(ms[|ms| - 1], ref) { OpenedOpens(ms[..|ms| - 1], ref); }
  }

  /** A reference is live exactly when it is still open, with the shares left over and
      the price it was opened at. */
  lemma {:induction false} LiveIff(ms: seq<Msg>, ref: nat)
    ensures ref in Live(ms) <==> StillOpen(ms, ref)
    ensures ref in Live(ms) ==>
              && Live(ms)[ref].shares == Shares(Opened(ms, ref).value) - ReducedBy(ms, ref)
              && Live(ms)[ref].price == Opened(ms, ref).value.price
    decreases |ms|
  {
    OpenedOpens(ms, ref);
    if ms != [] {
      var front, m := ms[..|ms| - 1], ms[|ms| - 1];
      LiveIff(front, ref);
      OpenedOpens(front, ref);
    }
  }

  /** An exhausted order is no longer live: if every order is opened with shares, every
      live order has some. */
  lemma NoEmptyOrderIsLive(ms: seq<Msg>)
    requires forall m :: m in ms && (m.Add? || m.Replace?) ==> Shares(m) > 0
    ensures forall ref :: ref in Live(ms) ==> Live(ms)[ref].shares > 0
  {
    forall ref | ref in Live(ms) ensures Live(ms)[ref].shares > 0 {
      LiveIff(ms, ref);
      OpenedOpens(ms, ref);
    }
  }

  /** The reference a message needs to be live. */
  function Needs(m: Msg): Option<nat> {
    match m
    case Reduce(ref, _, _) => Some(ref)
    case Remove(ref) => Some(ref)
    case Replace(orig, _, _, _) => Some(orig)
    case _ => None
  }

  /** A reduction, removal or replacement counts as unknown, and changes no level,
      exactly when its reference is not still open: executed out, closed or never seen. */
  lemma UnknownIff(ms: seq<Msg>, s: DecoderState, h: Header, m: Msg)
    requires s.orders == Live(ms) && Needs(m).Some?
    ensures var (t, out) := StepOn(s, h, m);
            && t.orders == Live(ms + [m])
            && (StillOpen(ms, Needs(m).value) <==> out.valid)
            && (StillOpen(ms, Needs(m).value) <==> t.stats.unknownOrder == s.stats.unknownOrder)
            && (!StillOpen(ms, Needs(m).value) ==>
                  t.stats.unknownOrder == s.stats.unknownOrder + 1 && t.pending == s.pending)
  {
    LiveIff(ms, Needs(m).value);
    assert (ms + [m])[..|ms|] == ms;
  }

  /** What an Add says: the order's own side, price and shares. */
  lemma AddSays(s: DecoderState, h: Header, ref: nat, side: Byte, shares: U32, price: I64)
    ensures var (t, out) := StepOn(s, h, Add(ref, side, shares, price));
            && out.valid && out.d == Delta(65, side, price, shares) && t.pending == s.pending
            && ref in t.orders && t.orders[ref] == Order(price, shares, side)
  {
  }

  /** What a removal or replacement of a live order says: all that remains is
      cancelled at its own price, and the replacement, on the same side, is pending. */
  lemma RemovalSays(ms: seq<Msg>, s: DecoderState, h: Header, m: Msg)
    requires s.orders == Live(ms) && (m.Remove? || m.Replace?) && StillOpen(ms, Needs(m).value)
    ensures var (t, out) := StepOn(s, h, m);
            var ref := Needs(m).value;
            && ref in s.orders && out.valid
            && out.d.kind == 88 && out.d.side == s.orders[ref].side && out.d.price == Opened(ms, ref).value.price
            && out.d.size == Shares(Opened(ms, ref).value) - ReducedBy(ms, ref)
            && (m.Remove? ==> ref !in t.orders && t.pending == s.pending)
            && (m.Replace? ==>
                  && t.pending.valid && t.pending.d == Delta(65, s.orders[ref].side, m.price, m.shares)
                  && m.newRef in t.orders && t.orders[m.newRef] == Order(m.price, m.shares, s.orders[ref].side)
                  && (m.newRef != ref ==> ref !in t.orders))
  {
    LiveIff(ms, Needs(m).value);
  }

  /** What a reduction of a live order says: an execution for E and C, a cancellation
      for X, of what remains at most, at the order's own price. */
  lemma ReductionSays(ms: seq<Msg>, s: DecoderState, h: Header, ref: nat, shares: U32, executed: bool)
    requires s.orders == Live(ms) && StillOpen(ms, ref)
    ensures var out := StepOn(s, h, Reduce(ref, shares, executed)).1;
            var left := Shares(Opened(ms, ref).value) - ReducedBy(ms, ref);
            && out.valid && out.d.kind == (if executed then 69 else 88)
            && out.d.price == Opened(ms, ref).value.price
            && out.d.size == (if shares < left then shares else left)
  {
    LiveIff(ms, ref);
  }

  // ---- streams of bodies ----------------------------------------------------------------

  function Parses(bodies: seq<seq<Byte>>): seq<Parsed> {
    seq(|bodies|, i requires 0 <= i < |bodies| => Parse(bodies[i]))
  }

  /** The messages of the bodies that decode. */
  function Decodes(ps: seq<Parsed>): seq<Msg> {
    if ps == [] then []
    else Decodes(ps[..|ps| - 1]) + if ps[|ps| - 1].Decoded? then [ps[|ps| - 1].m] else []
  }

  function Ignored(ps: seq<Parsed>): nat {
    if ps == [] then 0 else Ignored(ps[..|ps| - 1]) + if ps[|ps| - 1].Unhandled? then 1 else 0
  }

  function Unreadable(ps: seq<Parsed>): nat {
    if ps == [] then 0
    else Unreadable(ps[..|ps| - 1]) + if ps[|ps| - 1].Malformed? || ps[|ps| - 1].Empty? then 1 else 0
  }

  /** What a decoder holds and has counted after the bodies. */
  predicate Holds(s: DecoderState, ps: seq<Parsed>) {
    && s.orders == Live(Decodes(ps)) && s.stats.liveOrders == |s.orders|
    && s.stats.decoded == |Decodes(ps)| && s.stats.ignored == Ignored(ps) && s.stats.malformed == Unreadable(ps)
    && s.stats.decoded + s.stats.ignored + s.stats.malformed == |ps|
  }

  lemma HoldsOn(s: DecoderState, ps: seq<Parsed>, p: Parsed)
    requires Holds(s, ps)
    ensures Holds(StepParsed(s, p).0, ps + [p])
  {
    var ms := Decodes(ps);
    assert (ps + [p])[..|ps|] == ps;
    if p.Decoded? { assert (ms + [p.m])[..|ms|] == ms; } else { assert ms + [] == ms; }
  }

  lemma {:induction false} ReplayKeepsHolds(g: Grid, s: Replayed, ps: seq<Parsed>, bodies: seq<seq<Byte>>)
    requires g.Valid() && Holds(s.d, ps)
    ensures Holds(ReplayAll(g, s, bodies).d, ps + Parses(bodies))
    decreases |bodies|
  {
    if bodies == [] {
      assert ps + Parses(bodies) == ps;
    } else {
      HoldsOn(s.d, ps, Parse(bodies[0]));
      ReplayKeepsHolds(g, ReplayOne(g, s, bodies[0]), ps + [Parse(bodies[0])], bodies[1..]);
      assert Parses(bodies) == [Parse(bodies[0])] + Parses(bodies[1..]);
      assert ps + Parses(bodies) == (ps + [Parse(bodies[0])]) + Parses(bodies[1..]);
    }
  }

  /** Over any file's bodies: the decoder's live orders are those of its messages, and
      its counters count the bodies of each kind. */
  lemma DecoderCounts(g: Grid, bodies: seq<seq<Byte>>)
    requires g.Valid()
    ensures Holds(ReplayAll(g, NOTHING, bodies).d, Parses(bodies))
  {
    assert Holds(START, []);
    ReplayKeepsHolds(g, NOTHING, [], bodies);
    assert [] + Parses(bodies) == Parses(bodies);
  }

  /** Every level change carries its own message's time and stock. */
  lemma ChangesAreStamped(s: DecoderState, h: Header, m: Msg)
    ensures var (t, out) := StepOn(s, h, m);
            && out.timestamp == h.timestamp && out.stockLocate == h.stockLocate
            && (t.pending != s.pending ==>
                  t.pending.timestamp == h.timestamp && t.pending.stockLocate == h.stockLocate)
  {
  }
}
