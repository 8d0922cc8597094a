/** The decoder feeding the book: level sizes against the live orders. */
module Conservation {
  import opened Messages
  import opened BookSpec
  import opened Itch50Spec

  /** What one live order adds to a level. */
  function Share(g: Grid, o: Order, side: Byte, idx: int): nat
    requires g.Valid()
  {
    if SameSide(o.side, side) && IndexOf(g, o.price) == idx then o.shares else 0
  }

  /** The book files every side byte other than 'B' under asks. */
  predicate SameSide(a: Byte, b: Byte) { (a == BUY) == (b == BUY) }

  /** The remaining shares of the live orders on a side whose price maps to an index. */
  ghost function SharesAt(g: Grid, orders: Orders, side: Byte, idx: int): nat
    requires g.Valid()
    decreases |orders|
  {
    if orders == map[] then 0
    else
      var ref :| ref in orders;
      Share(g, orders[ref], side, idx) + SharesAt(g, orders - {ref}, side, idx)
  }

  /** The sum does not depend on the order in which the orders are visited. */
  lemma {:induction false} SharesWithout(g: Grid, orders: Orders, side: Byte, idx: int, ref: nat)
    requires g.Valid() && ref in orders
    ensures SharesAt(g, orders, side, idx) ==
            Share(g, orders[ref], side, idx) + SharesAt(g, orders - {ref}, side, idx)
    decreases |orders|
  {
    var first :| first in orders
      && SharesAt(g, orders, side, idx) ==
         Share(g, orders[first], side, idx) + SharesAt(g, orders - {first}, side, idx);
    if first != ref {
      SharesWithout(g, orders - {first}, side, idx, ref);
      SharesWithout(g, orders - {ref}, side, idx, first);
      assert orders - {first} - {ref} == orders - {ref} - {first};
    }
  }

  lemma SharesSet(g: Grid, orders: Orders, side: Byte, idx: int, ref: nat, o: Order)
    requires g.Valid()
    ensures SharesAt(g, orders[ref := o], side, idx) ==
            Share(g, o, side, idx) + SharesAt(g, orders - {ref}, side, idx)
  {
    SharesWithout(g, orders[ref := o], side, idx, ref);
    assert orders[ref := o] - {ref} == orders - {ref};
  }

  lemma SharesNone(g: Grid, orders: Orders, side: Byte, idx: int, ref: nat)
    requires g.Valid()
    ensures SharesAt(g, orders, side, idx) == SharesAt(g, orders - {ref}, side, idx)
              + if ref in orders then Share(g, orders[ref], side, idx) else 0
  {
    if ref in orders { SharesWithout(g, orders, side, idx, ref); } else { assert orders - {ref} == orders; }
  }

  function ToItch(d: Delta): ItchMessage {
    ItchMessage(0, d.price, 0, d.size, 0, d.kind, d.side, 0)
  }

  function BookAfter(g: Grid, b: MapBook, ds: seq<Delta>): MapBook
    requires g.Valid()
    decreases |ds|
  {
    if ds == [] then b else BookAfter(g, BookSpec.Apply(g, b, ToItch(ds[0])), ds[1..])
  }

  /** Book and orders agree at one level. */
  ghost predicate Agrees(g: Grid, orders: Orders, b: MapBook, side: Byte, idx: int)
    requires g.Valid()
  {
    LevelAt(b.Of(side), idx) == SharesAt(g, orders, side, idx)
  }

  /** Every level in the window holds exactly the live shares that map to it. */
  ghost predicate Conserves(g: Grid, orders: Orders, b: MapBook)
    requires g.Valid()
  {
    forall side: Byte, idx: int :: InWindow(g, idx) ==> Agrees(g, orders, b, side, idx)
  }

  /** An order the window's levels do not show. */
  predicate Invisible(g: Grid, o: Order)
    requires g.Valid()
  {
    o.shares == 0 || !InWindow(g, IndexOf(g, o.price))
  }

  lemma InvisibleIff(g: Grid, o: Order)
    requires g.Valid()
    ensures Invisible(g, o) <==>
            forall side: Byte, idx: int :: InWindow(g, idx) ==> Share(g, o, side, idx) == 0
  {
    if !Invisible(g, o) { assert Share(g, o, o.side, IndexOf(g, o.price)) == o.shares > 0; }
  }

  /** Two orders the window's levels cannot tell apart. */
  predicate Alike(g: Grid, a: Order, b: Order)
    requires g.Valid()
  {
    (Invisible(g, a) && Invisible(g, b))
    || (SameSide(a.side, b.side) && IndexOf(g, a.price) == IndexOf(g, b.price) && a.shares == b.shares)
  }

  lemma AlikeIff(g: Grid, a: Order, b: Order)
    requires g.Valid()
    ensures Alike(g, a, b) <==>
            forall side: Byte, idx: int :: InWindow(g, idx) ==> Share(g, a, side, idx) == Share(g, b, side, idx)
  {
    InvisibleIff(g, a);
    InvisibleIff(g, b);
    if !Alike(g, a, b) {
      if !Invisible(g, a) {
        assert Share(g, a, a.side, IndexOf(g, a.price)) != Share(g, b, a.side, IndexOf(g, a.price));
      } else {
        assert Share(g, a, b.side, IndexOf(g, b.price)) != Share(g, b, b.side, IndexOf(g, b.price));
      }
    }
  }

  lemma LevelAfter(g: Grid, b: MapBook, d: Delta, side: Byte, idx: int)
    requires g.Valid() && InWindow(g, idx)
    ensures var was := LevelAt(b.Of(side), idx);
            LevelAt(BookSpec.Apply(g, b, ToItch(d)).Of(side), idx) ==
            if SameSide(d.side, side) && IndexOf(g, d.price) == idx then NewSize(was, d.kind, d.size) else was
  {
  }

  // ---- one message ---------------------------------------------------------------------

  /** The level sums a message produces stay below 2^32. */
  ghost predicate SumsFit(g: Grid, orders: Orders, m: Msg)
    requires g.Valid()
  {
    match m
    case Add(_, side, shares, price) => LevelFits(g, orders, side, price, shares)
    case Replace(orig, _, shares, price) =>
      orig in orders ==> LevelFits(g, orders - {orig}, orders[orig].side, price, shares)
    case _ => true
  }

  ghost predicate LevelFits(g: Grid, orders: Orders, side: Byte, price: I64, shares: U32)
    requires g.Valid()
  {
    InWindow(g, IndexOf(g, price)) ==> SharesAt(g, orders, side, IndexOf(g, price)) + shares <= MAX_U32
  }

  /** References are used as the specification intends, or in a way the window
      does not show: an Add or Replace does not overwrite a visible live order,
      and a Replace names a live order. */
  predicate ReferencesSound(g: Grid, orders: Orders, m: Msg)
    requires g.Valid()
  {
    match m
    case Add(ref, _, _, _) => ref in orders ==> Invisible(g, orders[ref])
    case Replace(orig, newRef, shares, price) =>
      if orig in orders then newRef in orders - {orig} ==> Invisible(g, orders[newRef])
      else if newRef in orders then Alike(g, Order(price, shares, BUY), orders[newRef])
      else Invisible(g, Order(price, shares, BUY))
    case _ => true
  }

  lemma {:induction false} SharesSameSide(g: Grid, orders: Orders, a: Byte, b: Byte, idx: int)
    requires g.Valid() && SameSide(a, b)
    ensures SharesAt(g, orders, a, idx) == SharesAt(g, orders, b, idx)
    decreases |orders|
  {
    if orders != map[] {
      var ref :| ref in orders;
      SharesWithout(g, orders, a, idx, ref);
      SharesWithout(g, orders, b, idx, ref);
      SharesSameSide(g, orders - {ref}, a, b, idx);
    }
  }

  /** When an Add keeps the book exact.  Onto a reference the window does not show:
      when the level sum fits 32 bits.  Onto a visible live order: only when both
      are on one level and what saturation cuts off is just what was overwritten. */
  ghost predicate AddExact(g: Grid, orders: Orders, ref: nat, o: Order)
    requires g.Valid()
  {
    if ref !in orders || Invisible(g, orders[ref]) then LevelFits(g, orders, o.side, o.price, o.shares)
    else
      var was := orders[ref];
      && SameSide(o.side, was.side) && IndexOf(g, o.price) == IndexOf(g, was.price)
      && SharesAt(g, orders, o.side, IndexOf(g, o.price)) + o.shares - was.shares == MAX_U32
  }

  /** One level after an Add: its size gains the new order and saturates. */
  lemma AddAgreesIff(g: Grid, orders: Orders, b: MapBook, orders': Orders, o: Order, side: Byte, idx: int)
    requires g.Valid() && InWindow(g, idx) && Conserves(g, orders, b)
    ensures Agrees(g, orders', BookSpec.Apply(g, b, ToItch(Delta(ADD, o.side, o.price, o.shares))), side, idx)
            <==> Saturate(SharesAt(g, orders, side, idx) + Share(g, o, side, idx)) == SharesAt(g, orders', side, idx)
  {
    var b' := BookSpec.Apply(g, b, ToItch(Delta(ADD, o.side, o.price, o.shares)));
    LevelAfterAdd(g, b, o, side, idx);
    assert Agrees(g, orders, b, side, idx);
    SumAgreesIff(g, orders, orders', b, b', side, idx, Share(g, o, side, idx));
  }

  lemma SumAgreesIff(g: Grid, orders: Orders, orders': Orders, b: MapBook, b': MapBook, side: Byte, idx: int, gain: nat)
    requires g.Valid() && Agrees(g, orders, b, side, idx)
    requires LevelAt(b'.Of(side), idx) == Saturate(LevelAt(b.Of(side), idx) + gain)
    ensures Agrees(g, orders', b', side, idx)
            <==> Saturate(SharesAt(g, orders, side, idx) + gain) == SharesAt(g, orders', side, idx)
  {
  }

  lemma LevelAfterAdd(g: Grid, b: MapBook, o: Order, side: Byte, idx: int)
    requires g.Valid() && InWindow(g, idx)
    ensures var was := LevelAt(b.Of(side), idx);
            LevelAt(BookSpec.Apply(g, b, ToItch(Delta(ADD, o.side, o.price, o.shares))).Of(side), idx) ==
            Saturate(was + Share(g, o, side, idx))
  {
    LevelAfter(g, b, Delta(ADD, o.side, o.price, o.shares), side, idx);
  }

  /** ... and its sum loses the overwritten order and gains the new one. */
  lemma SharesAfterAdd(g: Grid, orders: Orders, ref: nat, o: Order, side: Byte, idx: int)
    requires g.Valid()
    ensures SharesAt(g, orders[ref := o], side, idx) == SharesAt(g, orders, side, idx) + Share(g, o, side, idx)
              - if ref in orders then Share(g, orders[ref], side, idx) else 0
  {
    SharesSet(g, orders, side, idx, ref, o);
    SharesNone(g, orders, side, idx, ref);
  }

  /** For any Add at all: every level is exact again if and only if AddExact. */
  lemma AddConservesIff(g: Grid, orders: Orders, b: MapBook, ref: nat, o: Order)
    requires g.Valid() && Conserves(g, orders, b)
    ensures Conserves(g, orders[ref := o], BookSpec.Apply(g, b, ToItch(Delta(ADD, o.side, o.price, o.shares))))
            <==> AddExact(g, orders, ref, o)
  {
    var b' := BookSpec.Apply(g, b, ToItch(Delta(ADD, o.side, o.price, o.shares)));
    var orders' := orders[ref := o];
    if AddExact(g, orders, ref, o) {
      forall side: Byte, idx: int | InWindow(g, idx) ensures Agrees(g, orders', b', side, idx) {
        SharesAfterAdd(g, orders, ref, o, side, idx);
        AddAgreesIff(g, orders, b, orders', o, side, idx);
        if SameSide(o.side, side) { SharesSameSide(g, orders, o.side, side, idx); }
        assert Agrees(g, orders, b, side, idx);
      }
    } else {
      var at := if ref in orders && !Invisible(g, orders[ref]) then orders[ref] else o;
      var idx := IndexOf(g, at.price);
      SharesAfterAdd(g, orders, ref, o, at.side, idx);
      AddAgreesIff(g, orders, b, orders', o, at.side, idx);
      if SameSide(o.side, at.side) { SharesSameSide(g, orders, o.side, at.side, idx); }
      assert Agrees(g, orders, b, at.side, idx);
      assert !Agrees(g, orders', b', at.side, idx);
    }
  }

  /** Taking t of an order's shares, from the book and from the order, keeps every level exact. */
  lemma TakeConserves(g: Grid, orders: Orders, b: MapBook, ref: nat, t: U32, kind: Byte)
    requires g.Valid() && Conserves(g, orders, b) && ref in orders && t <= orders[ref].shares
    requires kind == EXECUTE || kind == CANCEL
    ensures var o := orders[ref];
            var b' := BookSpec.Apply(g, b, ToItch(Delta(kind, o.side, o.price, t)));
            && Conserves(g, orders[ref := o.(shares := o.shares - t)], b')
            && (t == o.shares ==> Conserves(g, orders - {ref}, b'))
  {
    var o := orders[ref];
    var less: Order := o.(shares := o.shares - t);
    var b' := BookSpec.Apply(g, b, ToItch(Delta(kind, o.side, o.price, t)));
    var orders', without := orders[ref := less], orders - {ref};
    forall side: Byte, idx: int | InWindow(g, idx)
      ensures Agrees(g, orders', b', side, idx)
      ensures t == o.shares ==> Agrees(g, without, b', side, idx)
    {
      LevelAfter(g, b, Delta(kind, o.side, o.price, t), side, idx);
      SharesWithout(g, orders, side, idx, ref);
      SharesSet(g, orders, side, idx, ref, less);
      assert Agrees(g, orders, b, side, idx);
    }
  }

  /** A Replace of an unknown order touches no level but makes an order live. */
  lemma UnknownReplaceIff(g: Grid, orders: Orders, b: MapBook, ref: nat, o: Order)
    requires g.Valid() && Conserves(g, orders, b)
    ensures Conserves(g, orders[ref := o], b)
            <==> if ref in orders then Alike(g, o, orders[ref]) else Invisible(g, o)
  {
    if ref in orders { AlikeIff(g, o, orders[ref]); } else { InvisibleIff(g, o); }
    var orders' := orders[ref := o];
    forall side: Byte, idx: int | InWindow(g, idx)
      ensures Agrees(g, orders', b, side, idx)
              <==> Share(g, o, side, idx) == if ref in orders then Share(g, orders[ref], side, idx) else 0
    {
      SharesSet(g, orders, side, idx, ref, o);
      SharesNone(g, orders, side, idx, ref);
      assert Agrees(g, orders, b, side, idx);
    }
  }

  /** The exact condition for a message: no hypothesis on sums or references. */
  ghost predicate MessageExact(g: Grid, orders: Orders, m: Msg)
    requires g.Valid()
  {
    match m
    case Add(ref, side, shares, price) => AddExact(g, orders, ref, Order(price, shares, side))
    case Replace(orig, newRef, shares, price) =>
      if orig in orders then AddExact(g, orders - {orig}, newRef, Order(price, shares, orders[orig].side))
      else if newRef in orders then Alike(g, Order(price, shares, BUY), orders[newRef])
      else Invisible(g, Order(price, shares, BUY))
    case _ => true
  }

  /** Once a message's level changes are drained, every level again holds exactly
      the live shares if and only if MessageExact: for every message, whatever its
      references and sums. */
  lemma MessageConservesIff(g: Grid, orders: Orders, b: MapBook, m: Msg)
    requires g.Valid() && Conserves(g, orders, b)
    ensures Conserves(g, After(orders, m), BookAfter(g, b, Deltas(orders, m))) <==> MessageExact(g, orders, m)
  {
    var ds := Deltas(orders, m);
    AtMostTwo(orders, m);
    ShortBookAfter(g, b, ds);
    match m {
      case Admin =>
      case Add(ref, side, shares, price) =>
        AddConservesIff(g, orders, b, ref, Order(price, shares, side));
      case Reduce(ref, shares, executed) =>
        if ref in orders {
          TakeConserves(g, orders, b, ref, Taken(orders[ref], shares), if executed then EXECUTE else CANCEL);
        }
      case Remove(ref) =>
        if ref in orders {
          TakeConserves(g, orders, b, ref, orders[ref].shares, CANCEL);
        } else {
          assert orders - {ref} == orders;
        }
      case Replace(orig, newRef, shares, price) =>
        if orig in orders {
          var o := orders[orig];
          TakeConserves(g, orders, b, orig, o.shares, CANCEL);
          var b1 := BookSpec.Apply(g, b, ToItch(ds[0]));
          AddConservesIff(g, orders - {orig}, b1, newRef, Order(price, shares, o.side));
        } else {
          UnknownReplaceIff(g, orders, b, newRef, Order(price, shares, BUY));
        }
    }
  }

  /** While the sums fit 32 bits the condition is on the references alone, and with
      sound references on the sums alone; only a message that breaks both can be
      exact without either. */
  lemma ExactIffSound(g: Grid, orders: Orders, m: Msg)
    requires g.Valid()
    ensures SumsFit(g, orders, m) ==> (MessageExact(g, orders, m) <==> ReferencesSound(g, orders, m))
    ensures ReferencesSound(g, orders, m) ==> (MessageExact(g, orders, m) <==> SumsFit(g, orders, m))
  {
    match m {
      case Add(ref, side, shares, price) =>
        FittingAddExactIff(g, orders, ref, Order(price, shares, side));
      case Replace(orig, newRef, shares, price) =>
        if orig in orders {
          FittingAddExactIff(g, orders - {orig}, newRef, Order(price, shares, orders[orig].side));
        }
      case _ =>
    }
  }

  lemma FittingAddExactIff(g: Grid, orders: Orders, ref: nat, o: Order)
    requires g.Valid()
    ensures LevelFits(g, orders, o.side, o.price, o.shares) ==>
              (AddExact(g, orders, ref, o) <==> (ref in orders ==> Invisible(g, orders[ref])))
  {
  }

  /** Such a message exists: a full level whose one order is added again, for all
      that fits, under its own reference. */
  lemma OverwriteCanBeExact(g: Grid, price: I64)
    requires g.Valid() && InWindow(g, IndexOf(g, price))
    ensures var orders: Orders := map[1 := Order(price, MAX_U32, BUY)];
            var m := Add(1, BUY, MAX_U32, price);
            MessageExact(g, orders, m) && !SumsFit(g, orders, m) && !ReferencesSound(g, orders, m)
  {
    var orders: Orders := map[1 := Order(price, MAX_U32, BUY)];
    SharesWithout(g, orders, BUY, IndexOf(g, price), 1);
    assert orders - {1} == map[];
  }

  // ---- whole streams -----------------------------------------------------------------------

  datatype Replayed = Replayed(d: DecoderState, b: MapBook)

  /** The replay loop after one decoder step: apply what it returned, then what is pending. */
  function DrainInto(g: Grid, b: MapBook, d: DecoderState, out: LevelDelta): Replayed
    requires g.Valid()
  {
    if !out.valid then Replayed(d, b)
    else
      var b1 := BookSpec.Apply(g, b, ToItch(out.d));
      if d.pending.valid then Replayed(d.(pending := NO_DELTA), BookSpec.Apply(g, b1, ToItch(d.pending.d)))
      else Replayed(d.(pending := NO_DELTA), b1)
  }

  function ReplayOne(g: Grid, s: Replayed, body: seq<Byte>): Replayed
    requires g.Valid()
  {
    var (d, out) := Step(s.d, body);
    DrainInto(g, s.b, d, out)
  }

  function ReplayAll(g: Grid, s: Replayed, bodies: seq<seq<Byte>>): Replayed
    requires g.Valid()
    decreases |bodies|
  {
    if bodies == [] then s else ReplayAll(g, ReplayOne(g, s, bodies[0]), bodies[1..])
  }

  /** Nothing is left pending between bodies. */
  ghost predicate Settled(s: Replayed) { s.d.pending == NO_DELTA }

  lemma ShortBookAfter(g: Grid, b: MapBook, ds: seq<Delta>)
    requires g.Valid() && |ds| <= 2
    ensures BookAfter(g, b, ds) ==
            if |ds| == 0 then b
            else if |ds| == 1 then BookSpec.Apply(g, b, ToItch(ds[0]))
            else BookSpec.Apply(g, BookSpec.Apply(g, b, ToItch(ds[0])), ToItch(ds[1]))
  {
    if |ds| == 2 {
      var b1 := BookSpec.Apply(g, b, ToItch(ds[0]));
      assert ds[1..] == [ds[1]];
      assert BookAfter(g, b1, [ds[1]]) == BookSpec.Apply(g, b1, ToItch(ds[1]));
    }
  }

  lemma AtMostTwo(orders: Orders, m: Msg)
    ensures |Deltas(orders, m)| <= 2
  {
  }

  /** A decoded message is drained completely and in order. */
  lemma MessageDrains(g: Grid, s: Replayed, h: Header, m: Msg)
    requires g.Valid() && Settled(s)
    ensures var (d, out) := StepOn(s.d, h, m);
            var t := DrainInto(g, s.b, d, out);
            && Settled(t) && t.d.orders == After(s.d.orders, m)
            && t.b == BookAfter(g, s.b, Deltas(s.d.orders, m))
  {
    AtMostTwo(s.d.orders, m);
    ShortBookAfter(g, s.b, Deltas(s.d.orders, m));
  }

  /** A body has exactly the effect of the message it encodes, and none otherwise. */
  lemma BodyMeansMessage(g: Grid, s: Replayed, body: seq<Byte>)
    requires g.Valid() && Settled(s)
    ensures var t := ReplayOne(g, s, body);
            && Settled(t)
            && (Parse(body).Decoded? ==>
                  && t.d.orders == After(s.d.orders, Parse(body).m)
                  && t.b == BookAfter(g, s.b, Deltas(s.d.orders, Parse(body).m)))
            && (!Parse(body).Decoded? ==> t.d.orders == s.d.orders && t.b == s.b)
  {
    var p := Parse(body);
    if p.Decoded? { MessageDrains(g, s, p.h, p.m); }
  }

  /** Every decoded message of the stream is exact where it comes. */
  ghost predicate ExactStream(g: Grid, s: Replayed, bodies: seq<seq<Byte>>)
    requires g.Valid()
    decreases |bodies|
  {
    bodies == [] ||
    var p := Parse(bodies[0]);
    && (p.Decoded? ==> MessageExact(g, s.d.orders, p.m))
    && ExactStream(g, ReplayOne(g, s, bodies[0]), bodies[1..])
  }

  /** After every body of the stream each level holds exactly the live shares. */
  ghost predicate ConservesThroughout(g: Grid, s: Replayed, bodies: seq<seq<Byte>>)
    requires g.Valid()
    decreases |bodies|
  {
    bodies == [] ||
    var t := ReplayOne(g, s, bodies[0]);
    Conserves(g, t.d.orders, t.b) && ConservesThroughout(g, t, bodies[1..])
  }

  /** For every stream of bodies whatever: after every body each level in the window
      is exactly the sum of the live orders' remaining shares that map to it, if and
      only if every message is exact. */
  lemma {:induction false} StreamConservesIff(g: Grid, s: Replayed, bodies: seq<seq<Byte>>)
    requires g.Valid() && Settled(s) && Conserves(g, s.d.orders, s.b)
    ensures ConservesThroughout(g, s, bodies) <==> ExactStream(g, s, bodies)
    ensures Settled(ReplayAll(g, s, bodies))
    decreases |bodies|
  {
    if bodies != [] {
      var p := Parse(bodies[0]);
      var t := ReplayOne(g, s, bodies[0]);
      BodyMeansMessage(g, s, bodies[0]);
      if p.Decoded? { MessageConservesIff(g, s.d.orders, s.b, p.m); }
      SettledAfter(g, t, bodies[1..]);
      if Conserves(g, t.d.orders, t.b) { StreamConservesIff(g, t, bodies[1..]); }
    }
  }

  lemma {:induction false} SettledAfter(g: Grid, s: Replayed, bodies: seq<seq<Byte>>)
    requires g.Valid() && Settled(s)
    ensures Settled(ReplayAll(g, s, bodies))
    decreases |bodies|
  {
    if bodies != [] {
      BodyMeansMessage(g, s, bodies[0]);
      SettledAfter(g, ReplayOne(g, s, bodies[0]), bodies[1..]);
    }
  }

  /** The specification's streams are exact: sums that fit and sound references. */
  ghost predicate WellFormedStream(g: Grid, s: Replayed, bodies: seq<seq<Byte>>)
    requires g.Valid()
    decreases |bodies|
  {
    bodies == [] ||
    var p := Parse(bodies[0]);
    && (p.Decoded? ==> SumsFit(g, s.d.orders, p.m) && ReferencesSound(g, s.d.orders, p.m))
    && WellFormedStream(g, ReplayOne(g, s, bodies[0]), bodies[1..])
  }

  lemma {:induction false} WellFormedIsExact(g: Grid, s: Replayed, bodies: seq<seq<Byte>>)
    requires g.Valid() && WellFormedStream(g, s, bodies)
    ensures ExactStream(g, s, bodies)
    decreases |bodies|
  {
    if bodies != [] {
      var p := Parse(bodies[0]);
      if p.Decoded? { ExactIffSound(g, s.d.orders, p.m); }
      WellFormedIsExact(g, ReplayOne(g, s, bodies[0]), bodies[1..]);
    }
  }

  lemma {:induction false} ConservesAtEnd(g: Grid, s: Replayed, bodies: seq<seq<Byte>>)
    requires g.Valid() && Conserves(g, s.d.orders, s.b) && ConservesThroughout(g, s, bodies)
    ensures var t := ReplayAll(g, s, bodies); Conserves(g, t.d.orders, t.b)
    decreases |bodies|
  {
    if bodies != [] { ConservesAtEnd(g, ReplayOne(g, s, bodies[0]), bodies[1..]); }
  }

  /** For every well-formed stream, at the end each level is exactly the live shares. */
  lemma StreamConserves(g: Grid, s: Replayed, bodies: seq<seq<Byte>>)
    requires g.Valid() && Settled(s) && Conserves(g, s.d.orders, s.b)
    requires WellFormedStream(g, s, bodies)
    ensures var t := ReplayAll(g, s, bodies);
            Settled(t) && Conserves(g, t.d.orders, t.b)
  {
    WellFormedIsExact(g, s, bodies);
    StreamConservesIff(g, s, bodies);
    ConservesAtEnd(g, s, bodies);
  }

  const NOTHING := Replayed(START, EMPTY)

  lemma NothingConserves(g: Grid)
    requires g.Valid()
    ensures Settled(NOTHING) && Conserves(g, NOTHING.d.orders, NOTHING.b)
  {
  }
}

/** tools/itch50_replay.cpp: a whole file through reader, decoder and flat book. */
module Replay {
  import opened Messages
  import opened BookSpec
  import opened BigEndian
  import opened Framing
  import opened Conservation
  import opened StrategySpec
  import Itch = Itch50Spec
  import Itch50Decoder
  import BookView

  /** At every frame, eleven bytes can be read for the header. */
  ghost predicate HeadersReadable(data: seq<Byte>)
    decreases |data|
  {
    HasFrame(data) ==> |data| >= 13 && HeadersReadable(data[2 + |Frames(data)[0]|..])
  }

  /** What is left behind the whole frames. */
  function Leftover(data: seq<Byte>): seq<Byte>
    decreases |data|
  {
    if HasFrame(data) then Leftover(data[2 + Be16(data[..2])..]) else data
  }

  /** For any data: every header can be read exactly when there is no frame, or
      the last body and what is left behind it are eleven bytes or more. */
  lemma {:induction false} HeadersReadableIff(data: seq<Byte>)
    ensures HeadersReadable(data) <==>
            var f := Frames(data);
            f == [] || |f[|f| - 1]| + |Leftover(data)| >= 11
    decreases |data|
  {
    if HasFrame(data) {
      var rest := data[2 + Be16(data[..2])..];
      HeadersReadableIff(rest);
      var f := Frames(data);
      assert f[1..] == Frames(rest);
      if HasFrame(rest) { assert f[|f| - 1] == f[1..][|f| - 2]; }
    }
  }

  /** A file of whole frames is read without running past its end exactly when
      its last body is a header long. */
  lemma {:induction false} FramedReadableIff(bodies: seq<seq<Byte>>)
    requires Framable(bodies)
    ensures HeadersReadable(Framed(bodies)) <==> bodies == [] || |bodies[|bodies| - 1]| >= 11
  {
    FramedIsWhole(bodies);
    HeadersReadableIff(Framed(bodies));
  }

  lemma {:induction false} FramedIsWhole(bodies: seq<seq<Byte>>)
    requires Framable(bodies)
    ensures Frames(Framed(bodies)) == bodies && Leftover(Framed(bodies)) == []
    decreases |bodies|
  {
    if bodies != [] {
      FramedIsWhole(bodies[1..]);
      LengthPrefix(|bodies[0]|);
      BehindFirst(Bytes(|bodies[0]|, 2), bodies[0], Framed(bodies[1..]));
    }
  }

  lemma BehindFirst(pre: seq<Byte>, body: seq<Byte>, rest: seq<Byte>)
    requires |pre| == 2 && Be16(pre) == |body| > 0
    ensures Frames(pre + body + rest) == [body] + Frames(rest)
    ensures Leftover(pre + body + rest) == Leftover(rest)
  {
    var data := pre + body + rest;
    assert data[..2] == pre && data[2..2 + |body|] == body && data[2 + |body|..] == rest;
  }

  /** A one-byte body at the end of a file is framed well, and its header read
      runs past the end. */
  lemma ShortBodyIsOverread()
    ensures var data := [0, 1, 65]; HasFrame(data) && !HeadersReadable(data)
  {
    var data: seq<Byte> := [0, 1, 65];
    assert data[..2] == [0, 1];
  }

  lemma ImbalanceBounded(bid: U32, ask: U32)
    ensures -1.0 <= Imbalance(bid, ask) <= 1.0
  {
    if bid + ask > 0 { RatioBounded((bid - ask) as real, (bid + ask) as real); }
  }

  lemma RatioBounded(d: real, s: real)
    requires s > 0.0 && -s <= d <= s
    ensures -1.0 <= d / s <= 1.0
  {
    var x := d / s;
    assert x * s == d;
    Outgrows(x, s);
  }

  lemma Outgrows(x: real, s: real)
    requires s > 0.0
    ensures x > 1.0 ==> x * s > s
    ensures x < -1.0 ==> x * s < -s
  {
    if x > 1.0 { assert (x - 1.0) * s > 0.0; }
    if x < -1.0 { assert (x + 1.0) * s < 0.0; }
  }

  function Failing(bad: bool): nat { if bad then 1 else 0 }

  /** The loop over a body's level changes, with the tool's checks after each. */
  method ReplayBody(decoder: Itch50Decoder.Decoder, book: BookView.BookView, memory: seq<Byte>, len: nat)
    returns (failures: nat)
    requires book.Valid() && decoder.pending == Itch.NO_DELTA
    requires len <= |memory| && (len > 0 ==> |memory| >= 11)
    modifies decoder, book, book.bid, book.ask
    ensures book.Valid() && decoder.pending == Itch.NO_DELTA && failures == 0
    ensures Replayed(decoder.View(), book.View()) ==
            ReplayOne(book.g, old(Replayed(decoder.View(), book.View())), memory[..len])
  {
    ghost var whole := ReplayOne(book.g, Replayed(decoder.View(), book.View()), memory[..len]);
    failures := 0;
    var d := decoder.Apply(memory, len);
    assert Settled(whole) by {
      BodyMeansMessage(book.g, old(Replayed(decoder.View(), book.View())), memory[..len]);
    }
    while d.valid
      invariant book.Valid() && failures == 0
      invariant whole == DrainInto(book.g, book.View(), decoder.View(), d)
      decreases decoder.pending.valid, d.valid
    {
      book.Apply(ToItch(d.d));
      var failed := CheckTouch(book);
      failures := failures + failed;
      d := decoder.TakePending();
    }
  }

  /** The tool's three checks; none can fail on any book. */
  method CheckTouch(book: BookView.BookView) returns (failures: nat)
    requires book.Valid()
    ensures failures == 0
    ensures (book.HasBid() ==> book.BestBidSize() > 0) && (book.HasAsk() ==> book.BestAskSize() > 0)
    ensures -1.0 <= Imbalance(book.BestBidSize(), book.BestAskSize()) <= 1.0
  {
    book.TopOfBook();
    failures := Failing(book.HasBid() && book.BestBidSize() == 0);
    failures := failures + Failing(book.HasAsk() && book.BestAskSize() == 0);
    ImbalanceBounded(book.BestBidSize(), book.BestAskSize());
    var imb := if book.HasBid() && book.HasAsk() then Imbalance(book.BestBidSize(), book.BestAskSize()) else 0.0;
    failures := failures + Failing(!(-1.0 <= imb <= 1.0));
  }

  /** Any file: the decoder and the flat book end where the message semantics and
      the map book do, and the tool's checks never fail.  On an exact stream
      every level, and so the best bid and ask, is exactly the live shares there. */
  method ReplayFile(data: seq<Byte>, g: Grid)
    returns (decoder: Itch50Decoder.Decoder, book: BookView.BookView, messages: nat, failures: nat)
    requires g.Valid() && HeadersReadable(data)
    ensures book.Valid() && book.g == g && messages == |Frames(data)| && failures == 0
    ensures Replayed(decoder.View(), book.View()) == ReplayAll(g, NOTHING, Frames(data))
    ensures ExactStream(g, NOTHING, Frames(data)) ==> TouchIsLive(decoder, book)
  {
    var reader := new BinaryFileReader(data);
    decoder := new Itch50Decoder.Decoder();
    book := new BookView.BookView(g);
    assert data[0..] == data;
    messages, failures := ReplayLoop(reader, decoder, book);
    StreamTouch(decoder, book, Frames(data));
  }

  /** The file loop, from a reader at the start of its data. */
  method ReplayLoop(reader: BinaryFileReader, decoder: Itch50Decoder.Decoder, book: BookView.BookView)
    returns (messages: nat, failures: nat)
    requires reader.Valid() && book.Valid() && decoder.pending == Itch.NO_DELTA
    requires HeadersReadable(reader.data[reader.cur..])
    modifies reader, decoder, book, book.bid, book.ask
    ensures book.Valid() && failures == 0 && messages == |Frames(old(reader.data[reader.cur..]))|
    ensures Replayed(decoder.View(), book.View()) ==
            ReplayAll(book.g, old(Replayed(decoder.View(), book.View())), Frames(old(reader.data[reader.cur..])))
  {
    messages, failures := 0, 0;
    ghost var left := Frames(reader.data[reader.cur..]);
    ghost var s, total := Replayed(decoder.View(), book.View()), |left|;
    ghost var whole := ReplayAll(book.g, s, left);
    var ok := true;
    while ok
      invariant reader.Valid() && book.Valid()
      invariant decoder.pending == Itch.NO_DELTA && failures == 0 && messages + |left| == total
      invariant HeadersReadable(reader.data[reader.cur..])
      invariant Replayed(decoder.View(), book.View()) == s && whole == ReplayAll(book.g, s, left)
      invariant left == if ok then Frames(reader.data[reader.cur..]) else []
      decreases |reader.data| - reader.cur, ok
    {
      ghost var body;
      ok, failures, body := ReplayNext(reader, decoder, book);
      if ok {
        messages := messages + 1;
        s, left := ReplayOne(book.g, s, body), left[1..];
      }
    }
  }

  /** One turn of the file loop. */
  method ReplayNext(reader: BinaryFileReader, decoder: Itch50Decoder.Decoder, book: BookView.BookView)
    returns (ok: bool, failures: nat, ghost bytes: seq<Byte>)
    requires reader.Valid() && book.Valid() && decoder.pending == Itch.NO_DELTA
    requires HeadersReadable(reader.data[reader.cur..])
    modifies reader, decoder, book, book.bid, book.ask
    ensures reader.Valid() && book.Valid() && decoder.pending == Itch.NO_DELTA && failures == 0
    ensures HeadersReadable(reader.data[reader.cur..])
    ensures var was, tail := old(reader.data[reader.cur..]), reader.data[reader.cur..];
            && reader.cur >= old(reader.cur) && (ok ==> reader.cur > old(reader.cur))
            && Frames(was) == (if ok then [bytes] + Frames(tail) else [])
    ensures Replayed(decoder.View(), book.View()) ==
            if ok then ReplayOne(book.g, old(Replayed(decoder.View(), book.View())), bytes)
            else old(Replayed(decoder.View(), book.View()))
  {
    ghost var at := reader.cur;
    failures, bytes := 0, [];
    var body, len;
    ok, body, len := reader.Next();
    if ok {
      ReadableBehind(reader.data, at, len);
      var memory := reader.data[body..];
      bytes := memory[..len];
      failures := ReplayBody(decoder, book, memory, len);
    }
  }

  lemma ReadableBehind(data: seq<Byte>, at: nat, len: nat)
    requires at + 2 + len <= |data| && HasFrame(data[at..]) && HeadersReadable(data[at..])
    requires |Frames(data[at..])[0]| == len
    ensures |data[at + 2..]| >= 11 && data[at + 2..][..len] == data[at + 2..at + 2 + len]
    ensures HeadersReadable(data[at + 2 + len..])
  {
    assert data[at..][2 + len..] == data[at + 2 + len..];
  }

  lemma StreamTouch(decoder: Itch50Decoder.Decoder, book: BookView.BookView, bodies: seq<seq<Byte>>)
    requires book.Valid() && Replayed(decoder.View(), book.View()) == ReplayAll(book.g, NOTHING, bodies)
    ensures ExactStream(book.g, NOTHING, bodies) ==> TouchIsLive(decoder, book)
  {
    if ExactStream(book.g, NOTHING, bodies) {
      NothingConserves(book.g);
      StreamConservesIff(book.g, NOTHING, bodies);
      ConservesAtEnd(book.g, NOTHING, bodies);
      book.TopOfBook();
      if book.HasBid() { assert Agrees(book.g, decoder.orders, book.View(), BUY, book.bestBid); }
      if book.HasAsk() { assert Agrees(book.g, decoder.orders, book.View(), SELL, book.bestAsk); }
    }
  }

  /** Every level, and so the best bid and the best ask, is exactly the live shares there. */
  ghost predicate TouchIsLive(decoder: Itch50Decoder.Decoder, book: BookView.BookView)
    requires book.Valid()
    reads decoder, book, book.bid, book.ask
  {
    && Conserves(book.g, decoder.orders, book.View())
    && (book.HasBid() ==> book.BestBidSize() == SharesAt(book.g, decoder.orders, BUY, book.bestBid))
    && (book.HasAsk() ==> book.BestAskSize() == SharesAt(book.g, decoder.orders, SELL, book.bestAsk))
  }
}
