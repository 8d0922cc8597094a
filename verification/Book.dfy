/** The reference book: a map from tick index to resting size per side, holding
    only non-empty levels, as the differential test's map book does
    (tests/test_book.cpp), with the level size saturating at 2^32 - 1. */
module BookSpec {
  import opened Messages
  import opened Bits

  /** The price window: index i stands for price base + i * tick. */
  datatype Grid = Grid(numTicks: nat, base: int, tick: int) {
    predicate Valid() { 4 <= numTicks <= 0x7FFF_FFFF && tick != 0 }
  }

  /** C++ integer division: rounds toward zero. */
  function TruncDiv(a: int, b: int): int
    requires b != 0
  {
    var q := (if a < 0 then -a else a) / (if b < 0 then -b else b);
    if (a < 0) == (b < 0) then q else -q
  }

  /** Narrowing to a 32-bit int keeps the value modulo 2^32. */
  function Narrow32(x: int): int {
    var r := x % 0x1_0000_0000;
    if r >= 0x8000_0000 then r - 0x1_0000_0000 else r
  }

  function IndexOf(g: Grid, price: int): int
    requires g.Valid()
  {
    Narrow32(TruncDiv(price - g.base, g.tick))
  }

  function PriceAt(g: Grid, idx: int): int { g.base + idx * g.tick }

  predicate InWindow(g: Grid, idx: int) { 0 <= idx < g.numTicks }

  type Levels = map<int, U32>

  datatype MapBook = MapBook(bids: Levels, asks: Levels, outOfRange: nat) {
    function Of(side: Byte): Levels { if side == BUY then bids else asks }

    function With(side: Byte, levels: Levels): MapBook {
      if side == BUY then this.(bids := levels) else this.(asks := levels)
    }
  }

  const EMPTY := MapBook(map[], map[], 0)

  function LevelAt(l: Levels, idx: int): U32 { if idx in l then l[idx] else 0 }

  function Saturate(x: nat): U32 { if x > MAX_U32 then MAX_U32 else x }

  function SetLevel(l: Levels, idx: int, size: U32): Levels {
    if size == 0 then l - {idx} else l[idx := size]
  }

  function NewSize(was: U32, kind: Byte, size: U32): U32 {
    if kind == ADD then Saturate(was + size)
    else if kind == EXECUTE || kind == CANCEL then (if size >= was then 0 else was - size)
    else if kind == DELETE then 0
    else was
  }

  function Apply(g: Grid, b: MapBook, m: ItchMessage): MapBook
    requires g.Valid()
  {
    var idx := IndexOf(g, m.price);
    if !InWindow(g, idx) then b.(outOfRange := b.outOfRange + 1)
    else
      var l := b.Of(m.side);
      b.With(m.side, SetLevel(l, idx, NewSize(LevelAt(l, idx), m.kind, m.size)))
  }

  ghost predicate IsHighest(l: Levels, idx: int) { idx in l && forall j :: j in l ==> j <= idx }

  ghost predicate IsLowest(l: Levels, idx: int) { idx in l && forall j :: j in l ==> idx <= j }

  /** Every level of a book is non-empty and inside the window. */
  ghost predicate Tidy(g: Grid, b: MapBook) {
    && (forall i :: i in b.bids ==> InWindow(g, i) && b.bids[i] > 0)
    && (forall i :: i in b.asks ==> InWindow(g, i) && b.asks[i] > 0)
  }

  lemma {:induction false} HighestExists(l: Levels, n: nat) returns (idx: int)
    requires (exists j :: j in l) && forall j :: j in l ==> 0 <= j < n
    ensures IsHighest(l, idx)
  {
    var j :| j in l;
    if n - 1 in l { idx := n - 1; } else { idx := HighestExists(l, n - 1); }
  }

  lemma {:induction false} LowestExists(l: Levels, lo: int, n: nat) returns (idx: int)
    requires (exists j :: j in l) && forall j :: j in l ==> lo <= j < n
    ensures IsLowest(l, idx)
    decreases n - lo
  {
    var j :| j in l;
    if lo in l { idx := lo; } else { idx := LowestExists(l, lo + 1, n); }
  }

  /** The best bid's index; 0 for an empty side. */
  ghost function Highest(l: Levels): int {
    if exists i :: IsHighest(l, i) then var i :| IsHighest(l, i); i else 0
  }

  /** The best ask's index; 0 for an empty side. */
  ghost function Lowest(l: Levels): int {
    if exists i :: IsLowest(l, i) then var i :| IsLowest(l, i); i else 0
  }

  /** On a book that holds only levels of the window, Highest and Lowest are the extremes. */
  lemma TouchIsExtreme(g: Grid, b: MapBook)
    requires Tidy(g, b)
    ensures (exists i :: i in b.bids) ==> IsHighest(b.bids, Highest(b.bids))
    ensures (exists i :: i in b.asks) ==> IsLowest(b.asks, Lowest(b.asks))
  {
    if i :| i in b.bids { var j := HighestExists(b.bids, g.numTicks); }
    if i :| i in b.asks { var j := LowestExists(b.asks, 0, g.numTicks); }
  }

  ghost predicate TwoSided(b: MapBook) {
    (exists i :: i in b.bids) && (exists i :: i in b.asks)
  }

  lemma ApplyKeepsTidy(g: Grid, b: MapBook, m: ItchMessage)
    requires g.Valid() && Tidy(g, b)
    ensures Tidy(g, Apply(g, b, m))
  {
  }

  /** What each message does to the one level it names: an Add joins it up to the
      field's limit, an execution or cancellation takes from it and a greater one
      empties it, a Delete empties it, anything else leaves it; no other level and
      no counter changes. */
  lemma MessageDoes(g: Grid, b: MapBook, m: ItchMessage, side: Byte, idx: int)
    requires g.Valid() && InWindow(g, IndexOf(g, m.price)) && Tidy(g, b)
    ensures var c := Apply(g, b, m);
            var was, now := LevelAt(if side == 66 then b.bids else b.asks, idx),
                            LevelAt(if side == 66 then c.bids else c.asks, idx);
            var here := (m.side == 66) == (side == 66) && idx == IndexOf(g, m.price);
            && c.outOfRange == b.outOfRange
            && (!here ==> now == was)
            && (here && m.kind == 65 ==> now == if was + m.size < 4294967295 then was + m.size else 4294967295)
            && (here && (m.kind == 69 || m.kind == 88) ==> now + m.size == was || (now == 0 && m.size >= was))
            && (here && m.kind == 68 ==> now == 0)
            && (here && m.kind !in {65, 69, 88, 68} ==> now == was)
  {
  }

  /** A price on the grid maps to its own index; one tick apart is one index
      apart.  This is where per-index statements become per-price statements. */
  lemma AlignedIndex(g: Grid, i: int)
    requires g.Valid() && InWindow(g, i)
    ensures IndexOf(g, PriceAt(g, i)) == i
  {
    var a := if g.tick < 0 then -g.tick else g.tick;
    DivModUnique(i * a, a, i, 0);
    assert (if i * g.tick < 0 then -(i * g.tick) else i * g.tick) == i * a;
  }

  /** The prices q ticks from the base under truncating division: one tick from
      the q-th price outward, and for q = 0 the tick on either side of the base. */
  predicate InTick(g: Grid, q: int, price: int) {
    if q == 0 then g.base - g.tick < price < g.base + g.tick
    else if q > 0 then PriceAt(g, q) <= price < PriceAt(g, q) + g.tick
    else PriceAt(g, q) - g.tick < price <= PriceAt(g, q)
  }

  lemma TickOfIff(g: Grid, price: int, q: int)
    requires g.Valid() && g.tick > 0
    ensures TruncDiv(price - g.base, g.tick) == q <==> InTick(g, q, price)
  {
    var a: nat := if price < g.base then g.base - price else price - g.base;
    var n: nat := if q < 0 then -q else q;
    QuotientIff(a, g.tick, n);
    assert n * g.tick == if q < 0 then -(q * g.tick) else q * g.tick;
  }

  /** Index i taken round the int range k times. */
  function AroundInt(i: int, k: int): int { i + k * 0x1_0000_0000 }

  /** Narrowing to int keeps the index only modulo 2^32. */
  lemma NarrowedIff(x: int, i: int)
    requires 0 <= i < 0x8000_0000
    ensures Narrow32(x) == i <==> x % 0x1_0000_0000 == i
    ensures x % 0x1_0000_0000 == i <==> exists k: int :: x == AroundInt(i, k)
  {
    if x % 0x1_0000_0000 == i { assert x == AroundInt(i, x / 0x1_0000_0000); }
  }

  lemma IndexOfIff(g: Grid, price: int, i: int)
    requires g.Valid() && 0 <= i < 0x8000_0000
    ensures IndexOf(g, price) == i <==> (TruncDiv(price - g.base, g.tick) - i) % 0x1_0000_0000 == 0
  {
    var x := TruncDiv(price - g.base, g.tick);
    NarrowedIff(x, i);
  }

  /** Which prices an index holds: those of its own tick and, since the quotient
      is narrowed, of every tick a multiple of 2^32 away; and index 0 also those
      less than one tick below the base, since truncation folds them up. */
  lemma HoldsPriceIff(g: Grid, price: int, i: int)
    requires g.Valid() && g.tick > 0 && 0 <= i < 0x8000_0000
    ensures IndexOf(g, price) == i <==> exists k: int :: InTick(g, AroundInt(i, k), price)
  {
    var x := TruncDiv(price - g.base, g.tick);
    NarrowedIff(x, i);
    TickOfIff(g, price, x);
    forall k: int ensures x == AroundInt(i, k) <==> InTick(g, AroundInt(i, k), price) {
      TickOfIff(g, price, AroundInt(i, k));
    }
  }

  predicate PriceInWindow(g: Grid, price: int) { g.base <= price < g.base + g.numTicks * g.tick }

  /** A message priced outside the window is counted and ignored if and only if its
      tick does not come back into the window modulo 2^32. */
  lemma OutsideIsIgnoredIff(g: Grid, b: MapBook, m: ItchMessage)
    requires g.Valid() && g.tick > 0 && !PriceInWindow(g, m.price)
    ensures Apply(g, b, m) == b.(outOfRange := b.outOfRange + 1)
            <==> TruncDiv(m.price - g.base, g.tick) % 0x1_0000_0000 >= g.numTicks
  {
    var x := TruncDiv(m.price - g.base, g.tick);
    var r := x % 0x1_0000_0000;
    if r < g.numTicks { NarrowedIff(x, r); }
  }

  /** A price inside the window is never ignored and goes to its own index. */
  lemma InsideIsOwnIndex(g: Grid, price: int)
    requires g.Valid() && g.tick > 0 && PriceInWindow(g, price)
    ensures var i := IndexOf(g, price); InWindow(g, i) && PriceAt(g, i) <= price < PriceAt(g, i) + g.tick
  {
    var q := TruncDiv(price - g.base, g.tick);
    TickOfIff(g, price, q);
    assert (price - g.base) / g.tick == q >= 0;
    if q >= g.numTicks { MulMonotone(g.numTicks, q, g.tick); }
    NarrowedIff(q, q);
  }

  /** It happens: a Delete priced 2^32 ticks above a resting level, far outside the
      window, empties that level and is not counted as out of range. */
  lemma FarPriceHitsLevel()
    ensures var g := Grid(4096, 1000000, 100);
            var m := ItchMessage(0, 1000700 + 0x1_0000_0000 * 100, 0, 0, 0, DELETE, BUY, 0);
            && g.Valid() && !PriceInWindow(g, m.price)
            && Apply(g, MapBook(map[7 := 500], map[], 0), m) == EMPTY
  {
    var g := Grid(4096, 1000000, 100);
    var price := 1000700 + 0x1_0000_0000 * 100;
    DivModUnique(price - g.base, 100, 7 + 0x1_0000_0000, 0);
    assert IndexOf(g, price) == 7;
  }

  lemma QuotientIff(a: nat, d: nat, i: nat)
    requires d > 0
    ensures a / d == i <==> i * d <= a < i * d + d
    ensures a / d == 0 <==> a < d
  {
    if i * d <= a < i * d + d { DivModUnique(a, d, i, a - i * d); }
    if a < d { DivModUnique(a, d, 0, a); }
  }
}

/** include/hft/book_view.hpp: flat arrays of size per tick index with cached best indices. */
module BookView {
  import opened Messages
  import opened BookSpec

  /** The map book a flat array of sizes stands for. */
  ghost function LevelsOf(s: seq<U32>): Levels {
    map i | 0 <= i < |s| && s[i] > 0 :: s[i]
  }

  /** best is the highest non-empty index, or -1, leaving index `but` out of account. */
  ghost predicate BestBidBut(s: seq<U32>, best: int, but: int) {
    && -1 <= best < |s|
    && (0 <= best != but ==> s[best] > 0)
    && forall j :: best < j < |s| && j != but ==> s[j] == 0
  }

  /** best is the lowest non-empty index, or |s|, leaving index `but` out of account. */
  ghost predicate BestAskBut(s: seq<U32>, best: int, but: int) {
    && 0 <= best <= |s|
    && (but != best < |s| ==> s[best] > 0)
    && forall j :: 0 <= j < best && j != but ==> s[j] == 0
  }

  const NOWHERE := -2

  lemma LevelsOfUpdate(s: seq<U32>, i: int, v: U32)
    requires 0 <= i < |s|
    ensures LevelsOf(s[i := v]) == SetLevel(LevelsOf(s), i, v)
    ensures LevelAt(LevelsOf(s), i) == s[i]
  {
  }

  class BookView {
    const g: Grid
    const bid: array<U32>
    const ask: array<U32>
    var bestBid: int
    var bestAsk: int
    var outOfRange: nat

    ghost predicate Shape() {
      g.Valid() && bid != ask && bid.Length == ask.Length == g.numTicks
    }

    /** The cached indices are the highest non-empty bid and the lowest non-empty
        ask, or the empty sentinels -1 and NumTicks. */
    ghost predicate Valid()
      reads this, bid, ask
    {
      Shape() && BestBidBut(bid[..], bestBid, NOWHERE) && BestAskBut(ask[..], bestAsk, NOWHERE)
    }

    ghost function View(): MapBook
      reads this, bid, ask
    {
      MapBook(LevelsOf(bid[..]), LevelsOf(ask[..]), outOfRange)
    }

    constructor (g: Grid)
      requires g.Valid()
      ensures Valid() && View() == EMPTY && this.g == g && fresh(bid) && fresh(ask)
    {
      this.g := g;
      bid := new U32[g.numTicks](_ => 0);
      ask := new U32[g.numTicks](_ => 0);
      bestBid, bestAsk, outOfRange := -1, g.numTicks, 0;
    }

    predicate HasBid() reads this { bestBid >= 0 }

    predicate HasAsk() reads this { bestAsk < g.numTicks }

    function BestBidPrice(): int reads this { PriceAt(g, bestBid) }

    function BestAskPrice(): int reads this { PriceAt(g, bestAsk) }

    function BestBidSize(): U32
      requires Valid()
      reads this, bid, ask
    {
      if HasBid() then bid[bestBid] else 0
    }

    function BestAskSize(): U32
      requires Valid()
      reads this, bid, ask
    {
      if HasAsk() then ask[bestAsk] else 0
    }

    /** The constant-time queries answer from the map book: the best indices are its
        highest bid and lowest ask, and a side that has a best has size there. */
    lemma TopOfBook()
      requires Valid()
      ensures Tidy(g, View())
      ensures HasBid() <==> exists i :: i in View().bids
      ensures HasAsk() <==> exists i :: i in View().asks
      ensures HasBid() ==> IsHighest(View().bids, bestBid) && Highest(View().bids) == bestBid
      ensures HasAsk() ==> IsLowest(View().asks, bestAsk) && Lowest(View().asks) == bestAsk
      ensures BestBidSize() == LevelAt(View().bids, bestBid) && (HasBid() ==> BestBidSize() > 0)
      ensures BestAskSize() == LevelAt(View().asks, bestAsk) && (HasAsk() ==> BestAskSize() > 0)
    {
      var b := View();
      if HasBid() { assert bestBid in b.bids; }
      if HasAsk() { assert bestAsk in b.asks; }
    }

    /** One message changes the flat book exactly as it changes the map book. */
    method Apply(m: ItchMessage)
      requires Valid()
      modifies this, bid, ask
      ensures Valid() && View() == BookSpec.Apply(g, old(View()), m)
    {
      var idx := IndexOf(g, m.price);
      if idx < 0 || idx >= g.numTicks {
        outOfRange := outOfRange + 1;
        return;
      }
      ghost var bids, asks := bid[..], ask[..];
      LevelsOfUpdate(bids, idx, NewSize(bid[idx], m.kind, m.size));
      LevelsOfUpdate(asks, idx, NewSize(ask[idx], m.kind, m.size));
      ApplyAt(m.side == BUY, idx, m.kind, m.size);
    }

    /** The switch on the message type, once the price is inside the window. */
    method ApplyAt(isBid: bool, idx: int, kind: Byte, size: U32)
      requires Valid() && 0 <= idx < g.numTicks
      modifies this`bestBid, this`bestAsk, bid, ask
      ensures Valid()
      ensures bid[..] == if isBid then old(bid[..])[idx := NewSize(old(bid[idx]), kind, size)] else old(bid[..])
      ensures ask[..] == if isBid then old(ask[..]) else old(ask[..])[idx := NewSize(old(ask[idx]), kind, size)]
    {
      var arr: array<U32> := if isBid then bid else ask;
      if kind == ADD {
        if size == 0 { return; }
        SetSize(isBid, idx, if arr[idx] > MAX_U32 - size then MAX_U32 else arr[idx] + size);
        OnSizeIncreased(isBid, idx);
      } else if kind == EXECUTE || kind == CANCEL {
        SetSize(isBid, idx, if size >= arr[idx] then 0 else arr[idx] - size);
        if arr[idx] == 0 { OnLevelEmptied(isBid, idx); }
      } else if kind == DELETE {
        SetSize(isBid, idx, 0);
        OnLevelEmptied(isBid, idx);
      }
    }

    /** One array cell; the cached index is right but for that level. */
    method SetSize(isBid: bool, idx: int, size: U32)
      requires Valid() && 0 <= idx < g.numTicks
      modifies bid, ask
      ensures bid[..] == if isBid then old(bid[..])[idx := size] else old(bid[..])
      ensures ask[..] == if isBid then old(ask[..]) else old(ask[..])[idx := size]
      ensures BestBidBut(bid[..], bestBid, if isBid then idx else NOWHERE)
      ensures BestAskBut(ask[..], bestAsk, if isBid then NOWHERE else idx)
    {
      if isBid { bid[idx] := size; } else { ask[idx] := size; }
    }

    /** The level at idx is non-empty and every other level is as the cache knows it. */
    method OnSizeIncreased(isBid: bool, idx: int)
      requires Shape() && 0 <= idx < g.numTicks
      requires (if isBid then bid else ask)[idx] > 0
      requires BestBidBut(bid[..], bestBid, if isBid then idx else NOWHERE)
      requires BestAskBut(ask[..], bestAsk, if isBid then NOWHERE else idx)
      modifies this`bestBid, this`bestAsk
      ensures Valid()
    {
      if isBid {
        if idx > bestBid { bestBid := idx; }
      } else {
        if idx < bestAsk { bestAsk := idx; }
      }
    }

    /** The level at idx has just become empty. */
    method OnLevelEmptied(isBid: bool, idx: int)
      requires Shape() && 0 <= idx < g.numTicks
      requires (if isBid then bid else ask)[idx] == 0
      requires BestBidBut(bid[..], bestBid, if isBid then idx else NOWHERE)
      requires BestAskBut(ask[..], bestAsk, if isBid then NOWHERE else idx)
      modifies this`bestBid, this`bestAsk
      ensures Valid()
    {
      if isBid {
        if idx != bestBid { return; }
        var j := idx - 1;
        while j >= 0 && bid[j] == 0
          invariant -1 <= j < idx
          invariant forall k :: j < k < g.numTicks ==> bid[k] == 0
        {
          j := j - 1;
        }
        bestBid := j;
      } else {
        if idx != bestAsk { return; }
        var j := idx + 1;
        while j < g.numTicks && ask[j] == 0
          invariant idx < j <= g.numTicks
          invariant forall k :: 0 <= k < j ==> ask[k] == 0
        {
          j := j + 1;
        }
        bestAsk := j;
      }
    }
  }
}
