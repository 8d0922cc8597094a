/** Big-endian fields (include/hft/itch50.hpp). */
module BigEndian {
  import opened Bits
  import opened Messages

  function Value(p: seq<Byte>): nat {
    if p == [] then 0 else Value(p[..|p| - 1]) * 256 + p[|p| - 1]
  }

  /** v in n bytes, most significant first; higher bytes are cut off. */
  function Bytes(v: nat, n: nat): (p: seq<Byte>)
    ensures |p| == n
  {
    if n == 0 then [] else Bytes(v / 256, n - 1) + [v % 256]
  }

  function Field(body: seq<Byte>, offset: nat, n: nat): nat
    requires offset + n <= |body|
  {
    Value(body[offset..offset + n])
  }

  function Be16(p: seq<Byte>): (v: nat)
    requires |p| == 2
    ensures v == Value(p)
  {
    assert Value(p[..1]) == p[0] by { assert Value(p[..1][..0]) == 0; }
    (p[0] as int) * 0x100 + p[1]
  }

  function Be32(p: seq<Byte>): (v: U32)
    requires |p| == 4
    ensures v == Value(p)
  {
    assert p[..3][..2] == p[..2];
    assert Value(p[..3]) == Be16(p[..2]) * 256 + p[2];
    (p[0] as int) * 0x100_0000 + (p[1] as int) * 0x1_0000 + (p[2] as int) * 0x100 + p[3]
  }

  /** The byte loop of be48 and be64. */
  method ReadBe(p: seq<Byte>) returns (v: nat)
    ensures v == Value(p)
  {
    v := 0;
    for i := 0 to |p|
      invariant v == Value(p[..i])
    {
      assert p[..i + 1][..i] == p[..i];
      v := v * 256 + p[i];
    }
    assert p[..|p|] == p;
  }

  lemma {:induction false} RoundTrip(v: nat, n: nat)
    requires v < Pow2(8 * n)
    ensures Value(Bytes(v, n)) == v
  {
    if n > 0 {
      Pow2Add(8, 8 * (n - 1));
      assert Pow2(8) == 256;
      assert v / 256 < Pow2(8 * (n - 1));
      RoundTrip(v / 256, n - 1);
      assert Bytes(v, n)[..n - 1] == Bytes(v / 256, n - 1);
    }
  }

  /** The first byte is the most significant. */
  lemma {:induction false} HighByteFirst(p: seq<Byte>)
    requires p != []
    ensures Value(p) == p[0] * Pow2(8 * (|p| - 1)) + Value(p[1..])
  {
    var n := |p| - 1;
    if n > 0 {
      HighByteFirst(p[..n]);
      assert p[1..][..n - 1] == p[..n][1..];
      Pow2Add(8, 8 * (n - 1));
      assert Pow2(8) == 256;
      Shifted(p[0], Pow2(8 * (n - 1)), Pow2(8 * n));
    }
  }

  lemma Shifted(x: nat, m: nat, k: nat)
    requires k == 256 * m
    ensures x * m * 256 == x * k
  {
    assert x * m * 256 == x * (m * 256);
  }

  /** Reading back a field of 2, 4, 6 or 8 bytes. */
  lemma FieldRoundTrip(v: nat, n: nat)
    requires (n == 2 && v < 0x1_0000) || (n == 4 && v < 0x1_0000_0000)
             || (n == 6 && v < 0x1_0000_0000_0000) || (n == 8 && v < 0x1_0000_0000_0000_0000)
    ensures Value(Bytes(v, n)) == v
  {
    Widths();
    RoundTrip(v, n);
  }

  /** The first of the fields a body continues with, and what follows it. */
  lemma Peel(body: seq<Byte>, offset: nat, field: seq<Byte>, rest: seq<Byte>)
    requires offset <= |body| && body[offset..] == field + rest
    ensures offset + |field| + |rest| == |body|
    ensures body[offset..offset + |field|] == field && body[offset + |field|..] == rest
  {
    assert body[offset + |field|..] == body[offset..][|field|..];
    assert body[offset..offset + |field|] == body[offset..][..|field|];
  }

  lemma {:induction false} ValueFits(p: seq<Byte>)
    ensures Value(p) < Pow2(8 * |p|)
  {
    if p != [] {
      ValueFits(p[..|p| - 1]);
      Pow2Add(8, 8 * (|p| - 1));
      assert Pow2(8) == 256;
    }
  }
}

/** BinaryFILE framing: a two-byte big-endian length before every message body. */
module Framing {
  import Bits
  import opened Messages
  import opened BigEndian

  /** A frame starts here: a non-zero length and that many bytes. */
  predicate HasFrame(data: seq<Byte>) {
    |data| >= 2 && 0 < Be16(data[..2]) <= |data| - 2
  }

  /** The bodies of the whole frames at the front of the data. */
  function Frames(data: seq<Byte>): seq<seq<Byte>>
    decreases |data|
  {
    if !HasFrame(data) then []
    else
      var n := Be16(data[..2]);
      [data[2..2 + n]] + Frames(data[2 + n..])
  }

  /** A zero length ends the reading, whatever follows. */
  lemma ZeroLengthEnds(rest: seq<Byte>)
    ensures Frames([0, 0] + rest) == []
  {
    assert ([0, 0] + rest)[..2] == [0, 0];
  }

  predicate Framable(bodies: seq<seq<Byte>>) {
    forall i :: 0 <= i < |bodies| ==> 0 < |bodies[i]| <= 0xFFFF
  }

  function Framed(bodies: seq<seq<Byte>>): seq<Byte> {
    if bodies == [] then []
    else Bytes(|bodies[0]|, 2) + bodies[0] + Framed(bodies[1..])
  }

  /** How many of the frames lie wholly within the first `cut` bytes. */
  function WholeFrames(bodies: seq<seq<Byte>>, cut: int): (k: nat)
    ensures k <= |bodies|
  {
    if bodies == [] || cut < 2 + |bodies[0]| then 0
    else 1 + WholeFrames(bodies[1..], cut - 2 - |bodies[0]|)
  }

  /** Framing any non-empty bodies, cutting the bytes anywhere and reading back
      gives exactly the bodies whose frames are whole. */
  lemma {:induction false} CutRoundTrip(bodies: seq<seq<Byte>>, cut: nat)
    requires Framable(bodies) && cut <= |Framed(bodies)|
    ensures Frames(Framed(bodies)[..cut]) == bodies[..WholeFrames(bodies, cut)]
    decreases |bodies|
  {
    if bodies != [] {
      var n := |bodies[0]|;
      FirstFrame(bodies[0], Framed(bodies[1..]), cut);
      if cut >= 2 + n {
        CutRoundTrip(bodies[1..], cut - 2 - n);
        FirstOf(bodies, WholeFrames(bodies[1..], cut - 2 - n));
      }
    }
  }

  lemma FirstOf(bodies: seq<seq<Byte>>, k: nat)
    requires k < |bodies|
    ensures bodies[..k + 1] == [bodies[0]] + bodies[1..][..k]
  {
  }

  lemma FirstFrame(body: seq<Byte>, rest: seq<Byte>, cut: nat)
    requires 0 < |body| <= 0xFFFF && cut <= 2 + |body| + |rest|
    ensures var data := (Bytes(|body|, 2) + body + rest)[..cut];
            && (HasFrame(data) <==> cut >= 2 + |body|)
            && (HasFrame(data) ==> Frames(data) == [body] + Frames(rest[..cut - 2 - |body|]))
  {
    LengthPrefix(|body|);
    FrontFrame(Bytes(|body|, 2), body, rest, cut);
  }

  lemma FrontFrame(pre: seq<Byte>, body: seq<Byte>, rest: seq<Byte>, cut: nat)
    requires |pre| == 2 && Be16(pre) == |body| > 0 && cut <= 2 + |body| + |rest|
    ensures var data := (pre + body + rest)[..cut];
            && (HasFrame(data) <==> cut >= 2 + |body|)
            && (HasFrame(data) ==> Frames(data) == [body] + Frames(rest[..cut - 2 - |body|]))
  {
    var data := (pre + body + rest)[..cut];
    if cut >= 2 {
      assert data[..2] == pre;
    }
    if cut >= 2 + |body| {
      assert data[2..2 + |body|] == body;
      assert data[2 + |body|..] == rest[..cut - 2 - |body|];
    }
  }

  lemma LengthPrefix(n: nat)
    requires n <= 0xFFFF
    ensures Be16(Bytes(n, 2)) == n
  {
    assert Bits.Pow2(8) == 256;
    Bits.Pow2Add(8, 8);
    RoundTrip(n, 2);
  }

  lemma FramesFrom(data: seq<Byte>, cur: nat)
    requires cur + 2 <= |data|
    ensures var n := Be16(data[cur..cur + 2]);
            && (HasFrame(data[cur..]) <==> 0 < n <= |data| - cur - 2)
            && (HasFrame(data[cur..]) ==>
                  Frames(data[cur..]) == [data[cur + 2..cur + 2 + n]] + Frames(data[cur + 2 + n..]))
  {
    var tail := data[cur..];
    assert tail[..2] == data[cur..cur + 2];
    FramesOnce(tail, Be16(tail[..2]));
    if HasFrame(tail) { TailOfTail(data, cur, Be16(tail[..2])); }
  }

  lemma FramesOnce(data: seq<Byte>, n: nat)
    requires |data| >= 2 && n == Be16(data[..2])
    ensures HasFrame(data) <==> 0 < n <= |data| - 2
    ensures HasFrame(data) ==> Frames(data) == [data[2..2 + n]] + Frames(data[2 + n..])
  {
  }

  lemma TailOfTail(data: seq<Byte>, cur: nat, n: nat)
    requires cur + 2 + n <= |data|
    ensures data[cur..][2..2 + n] == data[cur + 2..cur + 2 + n] && data[cur..][2 + n..] == data[cur + 2 + n..]
  {
  }

  /** The reader is a cursor over the buffer. */
  class BinaryFileReader {
    const data: seq<Byte>
    var cur: nat

    ghost predicate Valid()
      reads this
    {
      cur <= |data|
    }

    constructor (data: seq<Byte>)
      ensures Valid() && this.data == data && cur == 0
    {
      this.data := data;
      cur := 0;
    }

    /** The next body is data[body..body + len]; false at the end, on a zero
        length and on a truncated frame. */
    method Next() returns (ok: bool, body: nat, len: nat)
      requires Valid()
      modifies this
      ensures Valid() && (ok <==> HasFrame(data[old(cur)..]))
      ensures ok ==> body == old(cur) + 2 && cur == body + len > old(cur)
      ensures ok ==> Frames(data[old(cur)..]) == [data[body..body + len]] + Frames(data[cur..])
      ensures !ok ==> cur == old(cur) && Frames(data[old(cur)..]) == []
    {
      if |data| - cur < 2 { return false, 0, 0; }
      FramesFrom(data, cur);
      var n := Be16(data[cur..cur + 2]);
      if n == 0 || |data| - cur - 2 < n { return false, 0, 0; }
      body := cur + 2;
      len := n;
      cur := cur + 2 + n;
      ok := true;
    }
  }
}

/** What each TotalView-ITCH 5.0 message means for the live orders and the price
    levels, and the decoder's state machine over message bodies. */
module Itch50Spec {
  import opened Messages
  import opened BigEndian
  import opened BookSpec

  // ---- message bodies ------------------------------------------------------------

  const PRICE_SCALE := 10000
  const ITCH_PRICE_DIVISOR := 10000

  datatype Header = Header(kind: Byte, stockLocate: nat, tracking: nat, timestamp: nat)

  datatype Msg =
    | Admin                                                    // S R H Y L P: no level changes
    | Add(ref: nat, side: Byte, shares: U32, price: I64)       // A F
    | Reduce(ref: nat, shares: U32, executed: bool)            // E C, or X
    | Remove(ref: nat)                                         // D
    | Replace(orig: nat, newRef: nat, shares: U32, price: I64)  // U

  datatype Parsed = Empty | Unhandled | Malformed | Decoded(h: Header, m: Msg)

  /** Body lengths of the messages decoded (spec sections 4.1 to 4.5), 0 for any other type. */
  function ExpectedLength(kind: Byte): nat {
    var c := kind as char;
    if c == 'S' then 12 else if c == 'R' then 39 else if c == 'H' then 25 else if c == 'Y' then 20
    else if c == 'L' then 26 else if c == 'A' then 36 else if c == 'F' then 40 else if c == 'E' then 31
    else if c == 'C' then 36 else if c == 'X' then 23 else if c == 'D' then 19 else if c == 'U' then 35
    else if c == 'P' then 44 else 0
  }

  function Field32(body: seq<Byte>, offset: nat): U32
    requires offset + 4 <= |body|
  {
    Be32(body[offset..offset + 4])
  }

  function ToEnginePrice(itchPrice: U32): I64 {
    TruncDiv(itchPrice * PRICE_SCALE, ITCH_PRICE_DIVISOR)
  }

  function ReadHeader(body: seq<Byte>): Header
    requires |body| >= 11
  {
    Header(body[0], Field(body, 1, 2), Field(body, 3, 2), Field(body, 5, 6))
  }

  function ReadMsg(body: seq<Byte>): Msg
    requires |body| > 0 && |body| == ExpectedLength(body[0])
  {
    var c := body[0] as char;
    if c == 'A' || c == 'F' then
      Add(Field(body, 11, 8), if body[19] == BUY then BUY else SELL, Field32(body, 20),
          ToEnginePrice(Field32(body, 32)))
    else if c == 'E' || c == 'C' then Reduce(Field(body, 11, 8), Field32(body, 19), true)
    else if c == 'X' then Reduce(Field(body, 11, 8), Field32(body, 19), false)
    else if c == 'D' then Remove(Field(body, 11, 8))
    else if c == 'U' then
      Replace(Field(body, 11, 8), Field(body, 19, 8), Field32(body, 27), ToEnginePrice(Field32(body, 31)))
    else Admin
  }

  function Parse(body: seq<Byte>): Parsed {
    if body == [] then Empty
    else if ExpectedLength(body[0]) == 0 then Unhandled
    else if |body| != ExpectedLength(body[0]) then Malformed
    else Decoded(ReadHeader(body), ReadMsg(body))
  }

  // ---- orders and level changes ------------------------------------------------------

  datatype Order = Order(price: I64, shares: U32, side: Byte)

  type Orders = map<nat, Order>

  datatype Delta = Delta(kind: Byte, side: Byte, price: I64, size: U32)

  function Taken(o: Order, shares: U32): U32 { if shares >= o.shares then o.shares else shares }

  /** The live orders after a message. */
  function After(orders: Orders, m: Msg): Orders {
    match m
    case Admin => orders
    case Add(ref, side, shares, price) => orders[ref := Order(price, shares, side)]
    case Reduce(ref, shares, _) =>
      if ref !in orders then orders
      else
        var left := orders[ref].shares - Taken(orders[ref], shares);
        if left == 0 then orders - {ref} else orders[ref := orders[ref].(shares := left)]
    case Remove(ref) => orders - {ref}
    case Replace(orig, newRef, shares, price) =>
      if orig !in orders then orders[newRef := Order(price, shares, BUY)]
      else (orders - {orig})[newRef := Order(price, shares, orders[orig].side)]
  }

  /** The level changes a message stands for, in order. */
  function Deltas(orders: Orders, m: Msg): seq<Delta> {
    match m
    case Admin => []
    case Add(_, side, shares, price) => [Delta(ADD, side, price, shares)]
    case Reduce(ref, shares, executed) =>
      if ref !in orders then []
      else
        var o := orders[ref];
        [Delta(if executed then EXECUTE else CANCEL, o.side, o.price, Taken(o, shares))]
    case Remove(ref) =>
      if ref !in orders then []
      else [Delta(CANCEL, orders[ref].side, orders[ref].price, orders[ref].shares)]
    case Replace(orig, _, shares, price) =>
      if orig !in orders then []
      else
        var o := orders[orig];
        [Delta(CANCEL, o.side, o.price, o.shares), Delta(ADD, o.side, price, shares)]
  }

  predicate NamesUnknown(orders: Orders, m: Msg) {
    match m
    case Reduce(ref, _, _) => ref !in orders
    case Remove(ref) => ref !in orders
    case Replace(orig, _, _, _) => orig !in orders
    case _ => false
  }

  // ---- the decoder ----------------------------------------------------------------------

  datatype Stats = Stats(decoded: nat, ignored: nat, malformed: nat, unknownOrder: nat, liveOrders: nat)

  datatype LevelDelta = LevelDelta(valid: bool, d: Delta, timestamp: nat, stockLocate: nat)

  const NO_DELTA := LevelDelta(false, Delta(UNKNOWN, BUY, 0, 0), 0, 0)

  datatype DecoderState = DecoderState(orders: Orders, pending: LevelDelta, stats: Stats)

  const START := DecoderState(map[], NO_DELTA, Stats(0, 0, 0, 0, 0))

  /** The i-th level change of a message, stamped with its header. */
  function Nth(deltas: seq<Delta>, i: nat, h: Header): LevelDelta {
    if i < |deltas| then LevelDelta(true, deltas[i], h.timestamp, h.stockLocate)
    else LevelDelta(false, NO_DELTA.d, h.timestamp, h.stockLocate)
  }

  /** A decoded message: the first level change is returned, a second one is left pending. */
  function StepOn(s: DecoderState, h: Header, m: Msg): (DecoderState, LevelDelta) {
    var orders := After(s.orders, m);
    var ds := Deltas(s.orders, m);
    (DecoderState(
       orders,
       if |ds| == 2 then Nth(ds, 1, h) else s.pending,
       s.stats.(decoded := s.stats.decoded + 1,
                unknownOrder := s.stats.unknownOrder + (if NamesUnknown(s.orders, m) then 1 else 0),
                liveOrders := |orders|)),
     Nth(ds, 0, h))
  }

  function Step(s: DecoderState, body: seq<Byte>): (DecoderState, LevelDelta) { StepParsed(s, Parse(body)) }

  function StepParsed(s: DecoderState, p: Parsed): (DecoderState, LevelDelta) {
    match p
    case Empty => (s.(stats := s.stats.(malformed := s.stats.malformed + 1)), NO_DELTA)
    case Malformed => (s.(stats := s.stats.(malformed := s.stats.malformed + 1)), NO_DELTA)
    case Unhandled => (s.(stats := s.stats.(ignored := s.stats.ignored + 1)), NO_DELTA)
    case Decoded(h, m) => StepOn(s, h, m)
  }

  // ---- encoding, as the specification's tables lay the bodies out ----------------------------

  datatype Wire =
    | WAdd(ref: U64, side: Byte, shares: U32, stock: seq<Byte>, price: U32)
    | WAddMpid(ref: U64, side: Byte, shares: U32, stock: seq<Byte>, price: U32, mpid: seq<Byte>)
    | WExecuted(ref: U64, shares: U32, matchNumber: U64)
    | WExecutedPrice(ref: U64, shares: U32, matchNumber: U64, printable: Byte, price: U32)
    | WCancel(ref: U64, shares: U32)
    | WDelete(ref: U64)
    | WReplace(orig: U64, newRef: U64, shares: U32, price: U32)

  predicate WellFormed(w: Wire) {
    match w
    case WAdd(_, side, _, stock, _) => (side == BUY || side == SELL) && |stock| == 8
    case WAddMpid(_, side, _, stock, _, mpid) => (side == BUY || side == SELL) && |stock| == 8 && |mpid| == 4
    case _ => true
  }

  function TypeOf(w: Wire): Byte {
    match w
    case WAdd(_, _, _, _, _) => 65
    case WAddMpid(_, _, _, _, _, _) => 70
    case WExecuted(_, _, _) => 69
    case WExecutedPrice(_, _, _, _, _) => 67
    case WCancel(_, _) => 88
    case WDelete(_) => 68
    case WReplace(_, _, _, _) => 85
  }

  function Tail(w: Wire): seq<Byte> {
    match w
    case WAdd(ref, side, shares, stock, price) =>
      Bytes(ref, 8) + ([side] + (Bytes(shares, 4) + (stock + (Bytes(price, 4) + []))))
    case WAddMpid(ref, side, shares, stock, price, mpid) =>
      Bytes(ref, 8) + ([side] + (Bytes(shares, 4) + (stock + (Bytes(price, 4) + mpid))))
    case WExecuted(ref, shares, matchNumber) =>
      Bytes(ref, 8) + (Bytes(shares, 4) + Bytes(matchNumber, 8))
    case WExecutedPrice(ref, shares, matchNumber, printable, price) =>
      Bytes(ref, 8) + (Bytes(shares, 4) + (Bytes(matchNumber, 8) + [printable] + Bytes(price, 4)))
    case WCancel(ref, shares) => Bytes(ref, 8) + (Bytes(shares, 4) + [])
    case WDelete(ref) => Bytes(ref, 8) + []
    case WReplace(orig, newRef, shares, price) =>
      Bytes(orig, 8) + (Bytes(newRef, 8) + (Bytes(shares, 4) + (Bytes(price, 4) + [])))
  }

  function Encode(locate: U16, tracking: U16, timestamp: nat, w: Wire): seq<Byte> {
    [TypeOf(w)] + (Bytes(locate, 2) + (Bytes(tracking, 2) + (Bytes(timestamp, 6) + Tail(w))))
  }

  function Meaning(w: Wire): Msg {
    match w
    case WAdd(ref, side, shares, _, price) => Add(ref, side, shares, price)
    case WAddMpid(ref, side, shares, _, price, _) => Add(ref, side, shares, price)
    case WExecuted(ref, shares, _) => Reduce(ref, shares, true)
    case WExecutedPrice(ref, shares, _, _, _) => Reduce(ref, shares, true)
    case WCancel(ref, shares) => Reduce(ref, shares, false)
    case WDelete(ref) => Remove(ref)
    case WReplace(orig, newRef, shares, price) => Replace(orig, newRef, shares, price)
  }

  /** The bodies that are decoded, by type and length, are those of the specification's
      tables; any other length of a known type is malformed, any other type ignored. */
  lemma BodyTable(body: seq<Byte>)
    requires body != []
    ensures var known := {('S', 12), ('R', 39), ('H', 25), ('Y', 20), ('L', 26), ('A', 36), ('F', 40), ('E', 31),
                          ('C', 36), ('X', 23), ('D', 19), ('U', 35), ('P', 44)};
            var kind := body[0] as char;
            && (Parse(body).Decoded? <==> (kind, |body|) in known)
            && (Parse(body).Unhandled? <==> forall k :: k in known ==> k.0 != kind)
            && (Parse(body).Decoded? && kind in {'S', 'R', 'H', 'Y', 'L', 'P'} ==> Parse(body).m == Admin)
  {
    var known := {('S', 12), ('R', 39), ('H', 25), ('Y', 20), ('L', 26), ('A', 36), ('F', 40), ('E', 31),
                  ('C', 36), ('X', 23), ('D', 19), ('U', 35), ('P', 44)};
    var n := ExpectedLength(body[0]);
    if n != 0 { assert (body[0] as char, n) in known; }
  }

  /** An Add whose side byte is not 'B' is a sell. */
  lemma SideByte(body: seq<Byte>)
    requires body != [] && (body[0] == 65 || body[0] == 70) && |body| == if body[0] == 65 then 36 else 40
    ensures Parse(body).Decoded? && Parse(body).m.Add?
    ensures Parse(body).m.side == if body[19] == 66 then 66 else 83
  {
  }

  /** The scale of the two price formats is the same, so conversion loses nothing. */
  lemma EnginePriceIsExact(p: U32)
    ensures ToEnginePrice(p) == p
  {
  }

  lemma AddRoundTrip(body: seq<Byte>, w: Wire, rest: seq<Byte>)
    requires (w.WAdd? || w.WAddMpid?) && WellFormed(w) && |body| >= 11
    requires body[11..] == Bytes(w.ref, 8) + ([w.side] + (Bytes(w.shares, 4) + (w.stock + (Bytes(w.price, 4) + rest))))
    ensures |body| == 36 + |rest| && Field(body, 11, 8) == w.ref && body[19] == w.side
    ensures Field32(body, 20) == w.shares && Field32(body, 32) == w.price
  {
    var r, q, p := Bytes(w.ref, 8), Bytes(w.shares, 4), Bytes(w.price, 4);
    Peel(body, 11, r, [w.side] + (q + (w.stock + (p + rest))));
    Peel(body, 19, [w.side], q + (w.stock + (p + rest)));
    Peel(body, 20, q, w.stock + (p + rest));
    Peel(body, 24, w.stock, p + rest);
    Peel(body, 32, p, rest);
    FieldRoundTrip(w.ref, 8);
    FieldRoundTrip(w.shares, 4);
    FieldRoundTrip(w.price, 4);
    assert body[19] == body[19..20][0];
  }

  lemma ReduceRoundTrip(body: seq<Byte>, ref: U64, shares: U32, rest: seq<Byte>)
    requires |body| >= 11 && body[11..] == Bytes(ref, 8) + (Bytes(shares, 4) + rest)
    ensures |body| == 23 + |rest| && Field(body, 11, 8) == ref && Field32(body, 19) == shares
  {
    Peel(body, 11, Bytes(ref, 8), Bytes(shares, 4) + rest);
    Peel(body, 19, Bytes(shares, 4), rest);
    FieldRoundTrip(ref, 8);
    FieldRoundTrip(shares, 4);
  }

  lemma ReplaceRoundTrip(body: seq<Byte>, w: Wire)
    requires w.WReplace? && |body| >= 11 && body[11..] == Tail(w)
    ensures |body| == 35 && Field(body, 11, 8) == w.orig && Field(body, 19, 8) == w.newRef
    ensures Field32(body, 27) == w.shares && Field32(body, 31) == w.price
  {
    var n, q, p := Bytes(w.newRef, 8), Bytes(w.shares, 4), Bytes(w.price, 4);
    Peel(body, 11, Bytes(w.orig, 8), n + (q + (p + [])));
    Peel(body, 19, n, q + (p + []));
    Peel(body, 27, q, p + []);
    Peel(body, 31, p, []);
    FieldRoundTrip(w.orig, 8);
    FieldRoundTrip(w.newRef, 8);
    FieldRoundTrip(w.shares, 4);
    FieldRoundTrip(w.price, 4);
  }

  lemma TailRoundTrip(body: seq<Byte>, w: Wire)
    requires WellFormed(w) && |body| >= 11 && body[0] == TypeOf(w) && body[11..] == Tail(w)
    ensures |body| == ExpectedLength(TypeOf(w)) && ReadMsg(body) == Meaning(w)
  {
    match w {
      case WAdd(_, _, _, _, price) => AddRoundTrip(body, w, []);
      case WAddMpid(_, _, _, _, price, mpid) => AddRoundTrip(body, w, mpid);
      case WExecuted(ref, shares, matchNumber) => ReduceRoundTrip(body, ref, shares, Bytes(matchNumber, 8));
      case WExecutedPrice(ref, shares, matchNumber, printable, price) =>
        ReduceRoundTrip(body, ref, shares, Bytes(matchNumber, 8) + [printable] + Bytes(price, 4));
      case WCancel(ref, shares) => ReduceRoundTrip(body, ref, shares, []);
      case WDelete(ref) =>
        Peel(body, 11, Bytes(ref, 8), []);
        FieldRoundTrip(ref, 8);
      case WReplace(_, _, _, price) => ReplaceRoundTrip(body, w);
    }
    if w.WAdd? || w.WAddMpid? || w.WReplace? { EnginePriceIsExact(w.price); }
  }

  /** Decoding a body laid out by the specification recovers its header and every
      field the decoder uses. */
  lemma DecodesWhatWasEncoded(locate: U16, tracking: U16, timestamp: nat, w: Wire)
    requires WellFormed(w) && timestamp < 0x1_0000_0000_0000
    ensures Parse(Encode(locate, tracking, timestamp, w)) ==
            Decoded(Header(TypeOf(w), locate, tracking, timestamp), Meaning(w))
  {
    var body := Encode(locate, tracking, timestamp, w);
    var l, k, ts := Bytes(locate, 2), Bytes(tracking, 2), Bytes(timestamp, 6);
    Peel(body, 0, [TypeOf(w)], l + (k + (ts + Tail(w))));
    Peel(body, 1, l, k + (ts + Tail(w)));
    Peel(body, 3, k, ts + Tail(w));
    Peel(body, 5, ts, Tail(w));
    FieldRoundTrip(locate, 2);
    FieldRoundTrip(tracking, 2);
    FieldRoundTrip(timestamp, 6);
    TailRoundTrip(body, w);
  }
}

/** include/hft/itch50.hpp: the decoder object. */
module Itch50Decoder {
  import opened Messages
  import opened BigEndian
  import opened Itch50Spec

  class Decoder {
    var orders: Orders
    var pending: LevelDelta
    var stats: Stats

    ghost function View(): DecoderState
      reads this
    {
      DecoderState(orders, pending, stats)
    }

    constructor ()
      ensures View() == START
    {
      orders, pending, stats := map[], NO_DELTA, START.stats;
    }

    /** `memory` is what can be read from the body's first byte on; the header is
        read before the length is checked, so eleven bytes must be there. */
    method Apply(memory: seq<Byte>, len: nat) returns (out: LevelDelta)
      requires len <= |memory| && (len > 0 ==> |memory| >= 11)
      modifies this
      ensures (View(), out) == Step(old(View()), memory[..len])
    {
      out := NO_DELTA;
      if len == 0 {
        stats := stats.(malformed := stats.malformed + 1);
        return;
      }
      var kind := memory[0];
      var locate := Be16(memory[1..3]);
      var timestamp := ReadBe(memory[5..11]);
      var want := ExpectedLength(kind);
      if want == 0 {
        stats := stats.(ignored := stats.ignored + 1);
        return;
      }
      if len != want {
        stats := stats.(malformed := stats.malformed + 1);
        return;
      }
      var body := memory[..len];
      assert body[1..3] == memory[1..3] && body[5..11] == memory[5..11];
      stats := stats.(decoded := stats.decoded + 1);
      out := LevelDelta(false, NO_DELTA.d, timestamp, locate);
      out := Dispatch(body, out);
      stats := stats.(liveOrders := |orders|);
    }

    /** The switch on the message type. */
    method Dispatch(body: seq<Byte>, blank: LevelDelta) returns (out: LevelDelta)
      requires |body| > 0 && |body| == ExpectedLength(body[0]) && !blank.valid && blank.d == NO_DELTA.d
      modifies this
      ensures var m := ReadMsg(body);
              var ds := Deltas(old(orders), m);
              && orders == After(old(orders), m)
              && out == (if ds == [] then blank else blank.(valid := true, d := ds[0]))
              && pending == (if |ds| == 2 then blank.(valid := true, d := ds[1]) else old(pending))
              && stats == old(stats).(unknownOrder := old(stats.unknownOrder)
                                                     + if NamesUnknown(old(orders), m) then 1 else 0)
    {
      out := blank;
      var c := body[0] as char;
      if c == 'A' || c == 'F' {
        var ref := ReadBe(body[11..19]);
        var side := if body[19] == BUY then BUY else SELL;
        var shares := Be32(body[20..24]);
        var price := ToEnginePrice(Be32(body[32..36]));
        orders := orders[ref := Order(price, shares, side)];
        out := out.(valid := true, d := Delta(ADD, side, price, shares));
      } else if c == 'E' || c == 'C' {
        var ref := ReadBe(body[11..19]);
        out := ReduceOrder(ref, Be32(body[19..23]), true, out);
      } else if c == 'X' {
        var ref := ReadBe(body[11..19]);
        out := ReduceOrder(ref, Be32(body[19..23]), false, out);
      } else if c == 'D' {
        var ref := ReadBe(body[11..19]);
        if ref !in orders {
          stats := stats.(unknownOrder := stats.unknownOrder + 1);
          assert orders - {ref} == orders;
          return;
        }
        var o := orders[ref];
        out := out.(valid := true, d := Delta(CANCEL, o.side, o.price, o.shares));
        orders := orders - {ref};
      } else if c == 'U' {
        var orig := ReadBe(body[11..19]);
        var newRef := ReadBe(body[19..27]);
        var shares := Be32(body[27..31]);
        var price := ToEnginePrice(Be32(body[31..35]));
        if orig !in orders {
          stats := stats.(unknownOrder := stats.unknownOrder + 1);
          orders := orders[newRef := Order(price, shares, BUY)];
          return;
        }
        var was := orders[orig];
        orders := (orders - {orig})[newRef := Order(price, shares, was.side)];
        out := out.(valid := true, d := Delta(CANCEL, was.side, was.price, was.shares));
        pending := blank.(valid := true, d := Delta(ADD, was.side, price, shares));
      }
    }

    method ReduceOrder(ref: nat, shares: U32, executed: bool, blank: LevelDelta) returns (out: LevelDelta)
      modifies this`orders, this`stats
      ensures var m := Reduce(ref, shares, executed);
              && orders == After(old(orders), m)
              && out == (if ref !in old(orders) then blank
                         else blank.(valid := true, d := Deltas(old(orders), m)[0]))
              && stats == old(stats).(unknownOrder := old(stats.unknownOrder)
                                                     + if ref !in old(orders) then 1 else 0)
    {
      out := blank;
      if ref !in orders {
        stats := stats.(unknownOrder := stats.unknownOrder + 1);
        return;
      }
      var o := orders[ref];
      var taken := if shares >= o.shares then o.shares else shares;
      out := out.(valid := true, d := Delta(if executed then EXECUTE else CANCEL, o.side, o.price, taken));
      var left := o.shares - taken;
      orders := orders[ref := o.(shares := left)];
      if left == 0 { orders := orders - {ref}; }
    }

    method TakePending() returns (p: LevelDelta)
      modifies this`pending
      ensures p == old(pending) && pending == NO_DELTA
    {
      p := pending;
      pending := NO_DELTA;
    }
  }
}
