/** The engine's own 32-byte frames and the feed stage
    (include/hft/itch_parser.hpp, include/hft/itch_message.hpp, include/hft/feed_handler.hpp). */
module Frames {
  import opened Bits
  import opened Messages
  import opened BigEndian

  const MSG_SIZE := 32

  /** The 64-bit pattern of a signed value. */
  function Unsigned64(x: I64): U64 { if x < 0 then x + 0x1_0000_0000_0000_0000 else x }

  function Signed64(v: U64): I64 {
    if v > 0x7FFF_FFFF_FFFF_FFFF then v - 0x1_0000_0000_0000_0000 else v
  }

  /** v in n bytes as the host lays it out, least significant byte first. */
  function HostBytes(v: nat, n: nat): (p: seq<Byte>)
    ensures |p| == n
  {
    if n == 0 then [] else [v % 256] + HostBytes(v / 256, n - 1)
  }

  function HostValue(p: seq<Byte>): nat {
    if p == [] then 0 else p[0] + 256 * HostValue(p[1..])
  }

  lemma {:induction false} HostRoundTrip(v: nat, n: nat)
    requires v < Pow2(8 * n)
    ensures HostValue(HostBytes(v, n)) == v
  {
    if n > 0 {
      Pow2Add(8, 8 * (n - 1));
      assert Pow2(8) == 256;
      assert v / 256 < Pow2(8 * (n - 1));
      HostRoundTrip(v / 256, n - 1);
      assert HostBytes(v, n)[1..] == HostBytes(v / 256, n - 1);
    }
  }

  lemma {:induction false} HostValueFits(p: seq<Byte>)
    ensures HostValue(p) < Pow2(8 * |p|)
  {
    if p != [] {
      HostValueFits(p[1..]);
      Pow2Add(8, 8 * (|p| - 1));
      assert Pow2(8) == 256;
    }
  }

  /** The low byte comes first, and then the rest. */
  lemma LowByteFirst(v: nat, n: nat)
    requires n > 0
    ensures HostBytes(v, n)[0] == v % 256 && HostBytes(v, n)[1..] == HostBytes(v / 256, n - 1)
  {
  }

  lemma HostFieldRoundTrip(v: nat, n: nat)
    requires (n == 2 && v < 0x1_0000) || (n == 4 && v < 0x1_0000_0000) || (n == 8 && v < 0x1_0000_0000_0000_0000)
    ensures HostValue(HostBytes(v, n)) == v
  {
    Widths();
    HostRoundTrip(v, n);
  }

  /** Fields at fixed offsets 0, 8, 16, 20, 24, 28, 29, 30, copied byte for byte. */
  function EncodeMessage(m: ItchMessage): seq<Byte> {
    HostBytes(m.timestamp, 8) + (HostBytes(Unsigned64(m.price), 8) + (HostBytes(m.symbol, 4) + (HostBytes(m.size, 4)
    + (HostBytes(m.seqNo, 4) + ([m.kind] + ([m.side] + (HostBytes(m.flags, 2) + [])))))))
  }

  function U64At(src: seq<Byte>, offset: nat): U64
    requires offset + 8 <= |src|
  {
    HostValueFits(src[offset..offset + 8]);
    Widths();
    HostValue(src[offset..offset + 8])
  }

  function U32At(src: seq<Byte>, offset: nat): U32
    requires offset + 4 <= |src|
  {
    HostValueFits(src[offset..offset + 4]);
    Widths();
    HostValue(src[offset..offset + 4])
  }

  function U16At(src: seq<Byte>, offset: nat): U16
    requires offset + 2 <= |src|
  {
    HostValueFits(src[offset..offset + 2]);
    Widths();
    HostValue(src[offset..offset + 2])
  }

  function ParseMessage(src: seq<Byte>): ItchMessage
    requires |src| >= MSG_SIZE
  {
    ItchMessage(U64At(src, 0), Signed64(U64At(src, 8)), U32At(src, 16), U32At(src, 20),
                U32At(src, 24), src[28], src[29], U16At(src, 30))
  }

  lemma FieldsAt(src: seq<Byte>, m: ItchMessage)
    requires src == EncodeMessage(m)
    ensures |src| == MSG_SIZE
    ensures src[0..8] == HostBytes(m.timestamp, 8) && src[8..16] == HostBytes(Unsigned64(m.price), 8)
    ensures src[16..20] == HostBytes(m.symbol, 4) && src[20..24] == HostBytes(m.size, 4)
    ensures src[24..28] == HostBytes(m.seqNo, 4) && src[30..32] == HostBytes(m.flags, 2)
    ensures src[28] == m.kind && src[29] == m.side
  {
    var p, y, z, q, f := HostBytes(Unsigned64(m.price), 8), HostBytes(m.symbol, 4), HostBytes(m.size, 4),
                         HostBytes(m.seqNo, 4), HostBytes(m.flags, 2);
    assert src[0..] == src;
    var t5 := [m.kind] + ([m.side] + (f + []));
    var t4 := q + t5;
    var t3 := z + t4;
    var t2 := y + t3;
    Peel(src, 0, HostBytes(m.timestamp, 8), p + t2);
    Peel(src, 8, p, t2);
    Peel(src, 16, y, t3);
    Peel(src, 20, z, t4);
    Peel(src, 24, q, t5);
    Peel(src, 28, [m.kind], [m.side] + (f + []));
    Peel(src, 29, [m.side], f + []);
    Peel(src, 30, f, []);
    assert src[28] == src[28..29][0] && src[29] == src[29..30][0];
  }

  /** Every message survives the wire. */
  lemma FrameRoundTrip(m: ItchMessage)
    ensures |EncodeMessage(m)| == MSG_SIZE && ParseMessage(EncodeMessage(m)) == m
  {
    FieldsAt(EncodeMessage(m), m);
    HostFieldRoundTrip(m.timestamp, 8);
    HostFieldRoundTrip(Unsigned64(m.price), 8);
    HostFieldRoundTrip(m.symbol, 4);
    HostFieldRoundTrip(m.size, 4);
    HostFieldRoundTrip(m.seqNo, 4);
    HostFieldRoundTrip(m.flags, 2);
  }

  function Encoded(ms: seq<ItchMessage>): seq<Byte> {
    if ms == [] then [] else EncodeMessage(ms[0]) + Encoded(ms[1..])
  }

  function Frame(buf: seq<Byte>, i: nat): seq<Byte>
    requires MSG_SIZE * i + MSG_SIZE <= |buf|
  {
    buf[MSG_SIZE * i..MSG_SIZE * i + MSG_SIZE]
  }

  /** The messages of a buffer's whole frames; a partial frame at the end is left over. */
  function Parsed(buf: seq<Byte>): seq<ItchMessage> {
    seq(|buf| / MSG_SIZE, i requires 0 <= i < |buf| / MSG_SIZE => ParseMessage(Frame(buf, i)))
  }

  lemma DropFrame(buf: seq<Byte>)
    requires |buf| >= MSG_SIZE
    ensures Parsed(buf) == [ParseMessage(buf[..MSG_SIZE])] + Parsed(buf[MSG_SIZE..])
  {
    assert Frame(buf, 0) == buf[..MSG_SIZE];
    var rest := buf[MSG_SIZE..];
    forall i: nat | i < |rest| / MSG_SIZE ensures Frame(buf, i + 1) == Frame(rest, i) {
      var at := MSG_SIZE * i;
      assert MSG_SIZE * (i + 1) == MSG_SIZE + at;
      ShiftedFrame(buf, at);
    }
  }

  lemma ShiftedFrame(buf: seq<Byte>, at: nat)
    requires MSG_SIZE + at + MSG_SIZE <= |buf|
    ensures buf[MSG_SIZE + at..MSG_SIZE + at + MSG_SIZE] == buf[MSG_SIZE..][at..at + MSG_SIZE]
  {
  }

  lemma FirstFrame(frame: seq<Byte>, rest: seq<Byte>, tail: seq<Byte>)
    requires |frame| == MSG_SIZE
    ensures Parsed((frame + rest) + tail) == [ParseMessage(frame)] + Parsed(rest + tail)
  {
    var buf := (frame + rest) + tail;
    assert buf[..MSG_SIZE] == frame && buf[MSG_SIZE..] == rest + tail;
    DropFrame(buf);
  }

  /** Reading back any batch, with any partial frame after it, gives the batch. */
  lemma {:induction false} BatchRoundTrip(ms: seq<ItchMessage>, tail: seq<Byte>)
    requires |tail| < MSG_SIZE
    ensures Parsed(Encoded(ms) + tail) == ms && |Encoded(ms)| == MSG_SIZE * |ms|
    decreases |ms|
  {
    if ms == [] {
      assert Encoded(ms) + tail == tail;
    } else {
      BatchRoundTrip(ms[1..], tail);
      FrameRoundTrip(ms[0]);
      FirstFrame(EncodeMessage(ms[0]), Encoded(ms[1..]), tail);
    }
  }
}

module FeedHandler {
  import opened Messages
  import opened Frames
  import Ring = SpscProtocol

  /** A cursor over a datagram's bytes; `left` is what it has yet to yield. */
  class FeedReader {
    const buf: seq<Byte>
    var cur: nat
    ghost var left: seq<ItchMessage>

    ghost predicate Valid()
      reads this
    {
      cur <= |buf| && left == Parsed(buf[cur..])
    }

    constructor (buf: seq<Byte>)
      ensures Valid() && this.buf == buf && left == Parsed(buf)
    {
      this.buf := buf;
      cur := 0;
      left := Parsed(buf);
      new;
      assert buf[0..] == buf;
    }

    method HasNext() returns (more: bool)
      requires Valid()
      ensures more == (left != [])
    {
      more := |buf| - cur >= MSG_SIZE;
    }

    method Next() returns (m: ItchMessage)
      requires Valid() && left != []
      modifies this
      ensures Valid() && m == old(left)[0] && left == old(left)[1..]
    {
      ghost var tail := buf[cur..];
      DropFrame(tail);
      assert tail[..MSG_SIZE] == buf[cur..cur + MSG_SIZE] && tail[MSG_SIZE..] == buf[cur + MSG_SIZE..];
      m := ParseMessage(buf[cur..cur + MSG_SIZE]);
      cur := cur + MSG_SIZE;
      left := left[1..];
    }
  }

  const SPIN_LIMIT: nat := 0x1_0000
  const BUFFER_BYTES := 64 * MSG_SIZE

  // ---- one push against a consumer --------------------------------------------------

  /** The ring to the strategy: what is in it, what the consumer has taken out, how
      many of those pops the producer has not seen, and how many tries there have
      been to push into it. */
  datatype Line = Line(ring: seq<MdEvent>, taken: seq<MdEvent>, hidden: nat, tries: nat) {
    /** Everything that ever got in, in order. */
    function Through(): seq<MdEvent> { taken + ring }

    /** The ring as the producer sees it. */
    function Occupied(): nat { |ring| + hidden }
  }

  /** What the consumer thread and the acquire loads do, try by try: before the n-th
      try the consumer takes up to pops(n) events, and a load at that try shows up
      to shows(n) more of its pops than were seen before. */
  datatype Peer = Peer(pops: nat -> nat, shows: nat -> nat)

  function Least(x: nat, y: nat): nat { if x < y then x else y }

  /** The consumer takes up to n events, oldest first; the producer has yet to see it. */
  function Consume(l: Line, n: nat): Line {
    var k := Least(n, |l.ring|);
    l.(ring := l.ring[k..], taken := l.taken + l.ring[..k], hidden := l.hidden + k)
  }

  datatype Offered = Offered(line: Line, ok: bool)

  /** One push: the consumer's position is loaded only when the ring looks full, and
      the load shows up to v hidden pops. */
  function Try(cap: nat, l: Line, ev: MdEvent, v: nat): Offered {
    var m := if l.Occupied() < cap then l else l.(hidden := l.hidden - Least(v, l.hidden));
    if m.Occupied() < cap then Offered(m.(ring := m.ring + [ev]), true) else Offered(m, false)
  }

  /** At most `left` tries. */
  function Offer(cap: nat, peer: Peer, l: Line, ev: MdEvent, left: nat): Offered
    decreases left, l
  {
    if left == 0 then Offered(l, false)
    else
      var o := Try(cap, Consume(l, peer.pops(l.tries)).(tries := l.tries + 1), ev, peer.shows(l.tries));
      if o.ok then o else Offer(cap, peer, o.line, ev, left - 1)
  }

  lemma OfferStep(cap: nat, peer: Peer, l: Line, ev: MdEvent, left: nat)
    requires left > 0
    ensures var m := Consume(l, peer.pops(l.tries)).(tries := l.tries + 1);
            var o := Try(cap, m, ev, peer.shows(l.tries));
            Offer(cap, peer, l, ev, left) == if o.ok then o else Offer(cap, peer, o.line, ev, left - 1)
  {
  }

  /** Within the next `left` tries a load shows a pop: one hidden to begin with, or
      one made in the meantime. */
  predicate Shown(peer: Peer, hidden: bool, from: nat, left: nat)
    decreases left, from
  {
    && left > 0
    && var h := hidden || peer.pops(from) > 0;
       (h && peer.shows(from) > 0) || Shown(peer, h, from + 1, left - 1)
  }

  ghost predicate PopsWithin(peer: Peer, from: nat, to: nat) {
    exists i: nat :: from <= i <= to && peer.pops(i) > 0
  }

  lemma {:induction false} ShownIff(peer: Peer, hidden: bool, from: nat, left: nat)
    ensures Shown(peer, hidden, from, left) <==>
            exists n: nat :: from <= n < from + left && peer.shows(n) > 0 && (hidden || PopsWithin(peer, from, n))
    decreases left
  {
    if left > 0 {
      var h := hidden || peer.pops(from) > 0;
      ShownIff(peer, h, from + 1, left - 1);
      forall n: nat | from + 1 <= n
        ensures h || PopsWithin(peer, from + 1, n) <==> hidden || PopsWithin(peer, from, n)
      {
      }
    }
  }

  /** A push succeeds if and only if the ring has room as the producer sees it, or a
      pop becomes visible at one of the tries. */
  lemma {:induction false} OfferIff(cap: nat, peer: Peer, l: Line, ev: MdEvent, left: nat)
    requires 0 < cap && l.Occupied() <= cap && left > 0
    ensures Offer(cap, peer, l, ev, left).ok <==> l.Occupied() < cap || Shown(peer, l.hidden > 0, l.tries, left)
    decreases left
  {
    var n, v := peer.pops(l.tries), peer.shows(l.tries);
    var m := Consume(l, n).(tries := l.tries + 1);
    var o := Try(cap, m, ev, v);
    ConsumeKeeps(l, n);
    TryIff(cap, m, ev, v);
    OfferStep(cap, peer, l, ev, left);
    if l.Occupied() == cap {
      ShownStep(peer, l.hidden > 0, m.hidden > 0, l.tries, left);
      if !o.ok && left > 1 { OfferIff(cap, peer, o.line, ev, left - 1); }
    }
  }

  lemma ShownStep(peer: Peer, hidden: bool, h: bool, from: nat, left: nat)
    requires left > 0 && h == (hidden || peer.pops(from) > 0)
    ensures Shown(peer, hidden, from, left) <==> (h && peer.shows(from) > 0) || Shown(peer, h, from + 1, left - 1)
  {
  }

  lemma TryIff(cap: nat, l: Line, ev: MdEvent, v: nat)
    requires l.Occupied() <= cap
    ensures var o := Try(cap, l, ev, v);
            && (o.ok <==> l.Occupied() < cap || (l.hidden > 0 && v > 0))
            && (!o.ok ==> o.line == l)
            && o.line.Occupied() <= cap
            && o.line.Through() == l.Through() + if o.ok then [ev] else []
  {
    var o := Try(cap, l, ev, v);
    if o.ok {
      assert l.taken + (l.ring + [ev]) == (l.taken + l.ring) + [ev];
    } else {
      assert l.Through() + [] == l.Through();
    }
  }

  lemma ConsumeKeeps(l: Line, n: nat)
    ensures var m := Consume(l, n);
            && m.Through() == l.Through() && m.Occupied() == l.Occupied()
            && (m.hidden > 0 <==> l.hidden > 0 || (n > 0 && l.ring != []))
  {
  }

  /** A producer that is shown no pop gives up on a ring it saw full, even when the
      consumer empties it. */
  lemma GivesUpWithRoom(cap: nat, peer: Peer, l: Line, ev: MdEvent, left: nat)
    requires 0 < cap == l.Occupied() && left > 0 && forall n: nat :: peer.shows(n) == 0
    requires peer.pops(l.tries) >= |l.ring|
    ensures !Offer(cap, peer, l, ev, left).ok && Offer(cap, peer, l, ev, left).line.ring == []
  {
    var n, v := peer.pops(l.tries), peer.shows(l.tries);
    var m := Consume(l, n).(tries := l.tries + 1);
    ConsumeKeeps(l, n);
    assert m.ring == [] && v == 0;
    TryIff(cap, m, ev, v);
    OfferStep(cap, peer, l, ev, left);
    StaysEmpty(cap, peer, m, ev, left - 1);
  }

  lemma {:induction false} StaysEmpty(cap: nat, peer: Peer, l: Line, ev: MdEvent, left: nat)
    requires 0 < cap == l.Occupied() && l.ring == [] && forall n: nat :: peer.shows(n) == 0
    ensures !Offer(cap, peer, l, ev, left).ok && Offer(cap, peer, l, ev, left).line.ring == []
    decreases left
  {
    if left > 0 {
      var n, v := peer.pops(l.tries), peer.shows(l.tries);
      var m := Consume(l, n).(tries := l.tries + 1);
      ConsumeKeeps(l, n);
      assert m.ring == [] && v == 0;
      TryIff(cap, m, ev, v);
      OfferStep(cap, peer, l, ev, left);
      StaysEmpty(cap, peer, m, ev, left - 1);
    }
  }

  /** What got in stays in order, and the ring within its capacity. */
  lemma {:induction false} OfferKeeps(cap: nat, peer: Peer, l: Line, ev: MdEvent, left: nat)
    requires l.Occupied() <= cap
    ensures var o := Offer(cap, peer, l, ev, left);
            && o.line.Through() == l.Through() + (if o.ok then [ev] else [])
            && o.line.Occupied() <= cap
    decreases left
  {
    if left == 0 {
      assert l.Through() + [] == l.Through();
    } else {
      var m := Consume(l, peer.pops(l.tries)).(tries := l.tries + 1);
      ConsumeKeeps(l, peer.pops(l.tries));
      TryIff(cap, m, ev, peer.shows(l.tries));
      var o := Try(cap, m, ev, peer.shows(l.tries));
      if !o.ok { OfferKeeps(cap, peer, o.line, ev, left - 1); }
    }
  }

  // ---- the ring behind it -------------------------------------------------------------

  /** The line a protocol state stands for. */
  ghost function LineOf(s: Ring.State<MdEvent>, tries: nat): Line
    requires Ring.Inv(s)
  {
    Line(Ring.Contents(s), s.popped, s.consumerPos - s.cachedConsumer, tries)
  }

  /** One push of the protocol, with an acquire load of any admissible position, does
      to the line just what Try does. */
  lemma TryIsPush(s: Ring.State<MdEvent>, ev: MdEvent, seen: nat, tries: nat) returns (t: Ring.State<MdEvent>)
    requires Ring.Inv(s) && s.producer.PIdle? && s.producerView <= seen <= s.consumerPos
    ensures Ring.Alone(true, s, t) && Ring.Inv(t) && t.producer.PIdle?
    ensures Try(Ring.Capacity(s), LineOf(s, tries), ev, seen - s.cachedConsumer) ==
            Offered(LineOf(t, tries), t.producerPos > s.producerPos)
  {
    t := Ring.PushAttempt(s, ev, seen);
  }

  // ---- whole streams ------------------------------------------------------------------

  /** The handler's ring and counters. */
  datatype Tally = Tally(line: Line, received: nat, pushed: nat, dropped: nat)

  function HandledOne(cap: nat, peer: Peer, t: Tally, ev: MdEvent): Tally {
    var o := Offer(cap, peer, t.line, ev, SPIN_LIMIT);
    Tally(o.line, t.received + 1, t.pushed + (if o.ok then 1 else 0), t.dropped + if o.ok then 0 else 1)
  }

  function Handled(cap: nat, peer: Peer, t: Tally, evs: seq<MdEvent>): Tally
    decreases |evs|
  {
    if evs == [] then t else Handled(cap, peer, HandledOne(cap, peer, t, evs[0]), evs[1..])
  }

  /** Which of the events were pushed. */
  function Flags(cap: nat, peer: Peer, t: Tally, evs: seq<MdEvent>): (flags: seq<bool>)
    ensures |flags| == |evs|
    decreases |evs|
  {
    if evs == [] then []
    else
      [Offer(cap, peer, t.line, evs[0], SPIN_LIMIT).ok]
      + Flags(cap, peer, HandledOne(cap, peer, t, evs[0]), evs[1..])
  }

  function Pick(evs: seq<MdEvent>, flags: seq<bool>): seq<MdEvent>
    requires |flags| == |evs|
  {
    if evs == [] then [] else (if flags[0] then [evs[0]] else []) + Pick(evs[1..], flags[1..])
  }

  /** Over any stream of events: the pushed ones got into the ring, in order, and
      every one is counted once, as pushed or as dropped. */
  lemma {:induction false} HandledInAll(cap: nat, peer: Peer, t: Tally, evs: seq<MdEvent>)
    requires t.line.Occupied() <= cap
    ensures var t' := Handled(cap, peer, t, evs);
            var got := Pick(evs, Flags(cap, peer, t, evs));
            && t'.line.Through() == t.line.Through() + got && t'.line.Occupied() <= cap
            && t'.received == t.received + |evs| && t'.pushed == t.pushed + |got|
            && t'.received - t.received == (t'.pushed - t.pushed) + (t'.dropped - t.dropped)
    decreases |evs|
  {
    if evs != [] {
      var t1 := HandledOne(cap, peer, t, evs[0]);
      var first := FirstPicked(cap, peer, t, evs);
      HandledInAll(cap, peer, t1, evs[1..]);
      var rest := Pick(evs[1..], Flags(cap, peer, t1, evs[1..]));
      assert (t.line.Through() + first) + rest == t.line.Through() + (first + rest);
    } else {
      assert t.line.Through() + [] == t.line.Through();
    }
  }

  lemma FirstPicked(cap: nat, peer: Peer, t: Tally, evs: seq<MdEvent>) returns (first: seq<MdEvent>)
    requires t.line.Occupied() <= cap && evs != []
    ensures var t1 := HandledOne(cap, peer, t, evs[0]);
            && Pick(evs, Flags(cap, peer, t, evs)) == first + Pick(evs[1..], Flags(cap, peer, t1, evs[1..]))
            && t1.line.Through() == t.line.Through() + first && t1.line.Occupied() <= cap
            && t1.received == t.received + 1 && t1.pushed == t.pushed + |first|
            && t1.dropped == t.dropped + 1 - |first| && |first| <= 1
  {
    OfferKeeps(cap, peer, t.line, evs[0], SPIN_LIMIT);
    var flags := Flags(cap, peer, t, evs);
    first := if flags[0] then [evs[0]] else [];
    assert flags[1..] == Flags(cap, peer, HandledOne(cap, peer, t, evs[0]), evs[1..]);
  }

  /** Where the picked events stand in the stream. */
  function Places(flags: seq<bool>, base: nat): seq<nat> {
    if flags == [] then [] else (if flags[0] then [base] else []) + Places(flags[1..], base + 1)
  }

  /** What is enqueued is an in-order subsequence of what was received. */
  lemma {:induction false} PickedInOrder(evs: seq<MdEvent>, flags: seq<bool>, base: nat)
    requires |flags| == |evs|
    ensures var at := Places(flags, base);
            && |at| == |Pick(evs, flags)|
            && (forall i :: 0 <= i < |at| ==> base <= at[i] < base + |evs| && Pick(evs, flags)[i] == evs[at[i] - base])
            && (forall i, j :: 0 <= i < j < |at| ==> at[i] < at[j])
  {
    if evs != [] { PickedInOrder(evs[1..], flags[1..], base + 1); }
  }

  lemma {:induction false} ShownMore(peer: Peer, from: nat, left: nat)
    requires Shown(peer, false, from, left)
    ensures Shown(peer, true, from, left)
    decreases left
  {
    if peer.pops(from) == 0 { ShownMore(peer, from + 1, left - 1); }
  }

  /** If in every round of tries some pop is made and shown, nothing is lost, over
      any stream. */
  lemma {:induction false} NothingDropped(cap: nat, peer: Peer, t: Tally, evs: seq<MdEvent>)
    requires 0 < cap && t.line.Occupied() <= cap && forall n: nat :: Shown(peer, false, n, SPIN_LIMIT)
    ensures Handled(cap, peer, t, evs).dropped == t.dropped
    ensures Handled(cap, peer, t, evs).line.Through() == t.line.Through() + evs
    decreases |evs|
  {
    if evs == [] {
      assert t.line.Through() + [] == t.line.Through();
    } else {
      if t.line.hidden > 0 { ShownMore(peer, t.line.tries, SPIN_LIMIT); }
      OfferIff(cap, peer, t.line, evs[0], SPIN_LIMIT);
      OfferKeeps(cap, peer, t.line, evs[0], SPIN_LIMIT);
      NothingDropped(cap, peer, HandledOne(cap, peer, t, evs[0]), evs[1..]);
      assert (t.line.Through() + [evs[0]]) + evs[1..] == t.line.Through() + evs;
    }
  }

  /** With the numbers written out: an event is dropped exactly when the ring is full as
      seen and no pop is shown in 65536 tries. */
  lemma DroppedIff(cap: nat, peer: Peer, t: Tally, ev: MdEvent, tries: nat)
    requires 0 < cap && t.line.Occupied() <= cap && tries == 65536
    ensures HandledOne(cap, peer, t, ev).dropped == t.dropped + 1
            <==> t.line.Occupied() == cap && !Shown(peer, t.line.hidden > 0, t.line.tries, tries)
  {
    OfferIff(cap, peer, t.line, ev, tries);
  }

  lemma {:induction false} HandledAppend(cap: nat, peer: Peer, t: Tally, xs: seq<MdEvent>, ys: seq<MdEvent>)
    ensures Handled(cap, peer, t, xs + ys) == Handled(cap, peer, Handled(cap, peer, t, xs), ys)
    decreases |xs|
  {
    if xs == [] {
      assert xs + ys == ys;
    } else {
      assert (xs + ys)[1..] == xs[1..] + ys;
      HandledAppend(cap, peer, HandledOne(cap, peer, t, xs[0]), xs[1..], ys);
    }
  }

  /** What a poll of the socket yields. */
  datatype Inbound = Nothing | Datagram(bytes: seq<Byte>, arrival: U64)

  function Stamped(ms: seq<ItchMessage>, arrival: U64): seq<MdEvent> {
    seq(|ms|, i requires 0 <= i < |ms| => MdEvent(ms[i], arrival))
  }

  /** The events of a poll: the whole frames that fit the receive buffer. */
  function EventsOf(d: Inbound): seq<MdEvent> {
    if d.Nothing? then [] else Stamped(Parsed(FeedHandler.Cut(d.bytes)), d.arrival)
  }

  /** Every event of a poll carries its own datagram's arrival and one of its first 64
      whole frames, in order. */
  lemma EventsOfDatagram(bytes: seq<Byte>, arrival: U64)
    ensures var evs := EventsOf(Datagram(bytes, arrival));
            && |evs| == (if |bytes| / 32 < 64 then |bytes| / 32 else 64)
            && forall i :: 0 <= i < |evs| ==>
                 32 * i + 32 <= |bytes| && evs[i] == MdEvent(ParseMessage(bytes[32 * i..32 * i + 32]), arrival)
  {
    var evs, cut := EventsOf(Datagram(bytes, arrival)), FeedHandler.Cut(bytes);
    forall i | 0 <= i < |evs|
      ensures 32 * i + 32 <= |bytes| && evs[i] == MdEvent(ParseMessage(bytes[32 * i..32 * i + 32]), arrival)
    {
      assert Frame(cut, i) == bytes[32 * i..32 * i + 32];
    }
  }

  /** The events of a stream are those of its datagrams, one datagram after the other. */
  lemma {:induction false} ArrivalsInOrder(ds: seq<Inbound>, j: nat)
    requires j < |ds|
    ensures Arrivals(ds[..j]) + EventsOf(ds[j]) == Arrivals(ds[..j + 1]) <= Arrivals(ds)
    decreases |ds|
  {
    assert ds[..j + 1][..j] == ds[..j];
    var front := ds[..|ds| - 1];
    if j < |front| {
      ArrivalsInOrder(front, j);
      assert front[..j + 1] == ds[..j + 1];
    } else {
      assert ds[..j + 1] == ds;
    }
  }

  function Arrivals(ds: seq<Inbound>): seq<MdEvent> {
    if ds == [] then [] else Arrivals(ds[..|ds| - 1]) + EventsOf(ds[|ds| - 1])
  }

  class FeedHandler {
    const cap: nat
    var ring: seq<MdEvent>    // queue to the strategy
    var taken: seq<MdEvent>   // what the strategy has popped
    var hidden: nat           // pops not yet seen from this side
    var tries: nat            // pushes attempted so far
    var received: nat
    var pushed: nat
    var dropped: nat

    ghost function LineView(): Line
      reads this
    {
      Line(ring, taken, hidden, tries)
    }

    ghost function View(): Tally
      reads this
    {
      Tally(LineView(), received, pushed, dropped)
    }

    constructor (cap: nat)
      ensures this.cap == cap && View() == Tally(Line([], [], 0, 0), 0, 0, 0)
    {
      this.cap := cap;
      ring, taken, hidden, tries := [], [], 0, 0;
      received, pushed, dropped := 0, 0, 0;
    }

    /** Bounded spin; the consumer thread runs between the tries. */
    method PushWithBackpressure(ev: MdEvent, peer: Peer) returns (ok: bool)
      modifies this`ring, this`taken, this`hidden, this`tries
      ensures Offered(LineView(), ok) == Offer(cap, peer, old(LineView()), ev, SPIN_LIMIT)
    {
      ghost var l, left := LineView(), SPIN_LIMIT;
      ghost var whole := Offer(cap, peer, l, ev, left);
      var spin := 0;
      while spin < SPIN_LIMIT
        invariant left == SPIN_LIMIT - spin >= 0 && LineView() == l
        invariant Offer(cap, peer, l, ev, left) == whole
      {
        ok := TryOnce(ev, peer, left);
        if ok { return; }
        l, left := LineView(), left - 1;
        spin := spin + 1;
      }
      return false;
    }

    /** The consumer thread runs, then one push. */
    method TryOnce(ev: MdEvent, peer: Peer, ghost left: nat) returns (ok: bool)
      requires left > 0
      modifies this`ring, this`taken, this`hidden, this`tries
      ensures Offer(cap, peer, old(LineView()), ev, left) ==
              if ok then Offered(LineView(), true) else Offer(cap, peer, LineView(), ev, left - 1)
      ensures var l := old(LineView());
              Offered(LineView(), ok) ==
              Try(cap, Consume(l, peer.pops(l.tries)).(tries := l.tries + 1), ev, peer.shows(l.tries))
    {
      OfferStep(cap, peer, LineView(), ev, left);
      var n, v := peer.pops(tries), peer.shows(tries);
      ConsumerTakes(n);
      tries := tries + 1;
      ok := Push(ev, v);
    }

    /** The ring's push: the cached position first, then a load that shows up to v more pops. */
    method Push(ev: MdEvent, v: nat) returns (ok: bool)
      modifies this`ring, this`hidden
      ensures Offered(LineView(), ok) == Try(cap, old(LineView()), ev, v)
    {
      if |ring| + hidden >= cap {
        hidden := hidden - Least(v, hidden);
        if |ring| + hidden >= cap { return false; }
      }
      ring := ring + [ev];
      return true;
    }

    method ConsumerTakes(n: nat)
      modifies this`ring, this`taken, this`hidden
      ensures LineView() == Consume(old(LineView()), n)
    {
      var k := Least(n, |ring|);
      taken := taken + ring[..k];
      ring := ring[k..];
      hidden := hidden + k;
    }

    /** One datagram, cut to the receive buffer: every whole frame is received and
        either enqueued, in order and with its arrival stamp, or counted as dropped. */
    method PollOnce(d: Inbound, peer: Peer) returns (enqueued: nat)
      modifies this
      ensures View() == Handled(cap, peer, old(View()), EventsOf(d))
      ensures enqueued == pushed - old(pushed)
    {
      if d.Nothing? { return 0; }
      var reader := new FeedReader(Cut(d.bytes));
      enqueued := DrainReader(reader, d.arrival, peer);
    }

    /** Any number of polls: together they handle everything that arrived, in order. */
    method PollAll(ds: seq<Inbound>, peer: Peer)
      modifies this
      ensures View() == Handled(cap, peer, old(View()), Arrivals(ds))
    {
      ghost var t := View();
      for i := 0 to |ds|
        invariant View() == Handled(cap, peer, t, Arrivals(ds[..i]))
      {
        HandledAppend(cap, peer, t, Arrivals(ds[..i]), EventsOf(ds[i]));
        assert ds[..i + 1][..i] == ds[..i];
        var n := PollOnce(ds[i], peer);
      }
      assert ds[..|ds|] == ds;
    }

    /** The loop over a datagram's frames. */
    method DrainReader(reader: FeedReader, arrival: U64, peer: Peer) returns (enqueued: nat)
      requires reader.Valid()
      modifies this, reader
      ensures View() == Handled(cap, peer, old(View()), Stamped(old(reader.left), arrival))
      ensures enqueued == pushed - old(pushed)
    {
      enqueued := 0;
      ghost var whole := Handled(cap, peer, View(), Stamped(reader.left, arrival));
      var more := reader.HasNext();
      while more
        invariant reader.Valid() && more == (reader.left != [])
        invariant Handled(cap, peer, View(), Stamped(reader.left, arrival)) == whole
        invariant enqueued == pushed - old(pushed)
        decreases |reader.left|
      {
        FirstStamped(reader.left, arrival);
        var m := reader.Next();
        var k := HandleOne(m, arrival, peer);
        enqueued := enqueued + k;
        more := reader.HasNext();
      }
    }

    /** One frame of the datagram; returns how many were enqueued. */
    method HandleOne(m: ItchMessage, arrival: U64, peer: Peer) returns (k: nat)
      modifies this
      ensures View() == HandledOne(cap, peer, old(View()), MdEvent(m, arrival))
      ensures k == pushed - old(pushed)
    {
      received := received + 1;
      var ok := PushWithBackpressure(MdEvent(m, arrival), peer);
      if ok {
        pushed := pushed + 1;
        k := 1;
      } else {
        dropped := dropped + 1;
        k := 0;
      }
    }

    static function Cut(datagram: seq<Byte>): seq<Byte> {
      if |datagram| > BUFFER_BYTES then datagram[..BUFFER_BYTES] else datagram
    }
  }

  lemma FirstStamped(ms: seq<ItchMessage>, arrival: U64)
    requires ms != []
    ensures Stamped(ms, arrival) == [MdEvent(ms[0], arrival)] + Stamped(ms[1..], arrival)
  {
  }
}
