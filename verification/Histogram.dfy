/** Log-linear bucketing (include/hft/histogram.hpp), for every precision and range. */
module HistogramSpec {
  import opened Bits

  const U64_END := 0x1_0000_0000_0000_0000

  datatype Params = Params(precision: nat, highest: nat) {
    predicate Valid() { 1 <= precision <= 16 && highest < U64_END }

    /** Linear sub-buckets per octave. */
    function Half(): nat { Pow2(precision) }
  }

  // ---- the index arithmetic ----------------------------------------------------------

  /** Octave of a value: how far its leading bit is above the sub-bucket bits. */
  function BucketIndex(p: Params, v: nat): nat {
    if v < Pow2(p.precision + 1) then 0
    else
      LeadingBit(p, v);
      Log2(v) - p.precision
  }

  function CountsIndex(p: Params, v: nat): nat {
    var b := BucketIndex(p, v);
    b * p.Half() + Shr(v, b)
  }

  /** The octave and sub-bucket an index encodes. */
  function Octave(p: Params, i: nat): nat {
    if i < p.Half() then 0 else i / p.Half() - 1
  }

  function SubBucket(p: Params, i: nat): nat {
    if i < p.Half() then i else i % p.Half() + p.Half()
  }

  function LowestEquivalent(p: Params, i: nat): nat { SubBucket(p, i) * Pow2(Octave(p, i)) }

  function HighestEquivalent(p: Params, i: nat): nat {
    LowestEquivalent(p, i) + Pow2(Octave(p, i)) - 1
  }

  function BucketCount(p: Params): nat { BucketIndex(p, p.highest) + 1 }

  function CountsLen(p: Params): nat { (BucketCount(p) + 1) * p.Half() }

  lemma LeadingBit(p: Params, v: nat)
    requires v >= Pow2(p.precision + 1)
    ensures Log2(v) > p.precision
  {
    Log2Bounds(v);
    if Log2(v) <= p.precision { Pow2Monotone(Log2(v) + 1, p.precision + 1); }
  }

  // ---- the same, as the source computes it -----------------------------------------------

  function Clz64(x: nat): int
    requires x > 0
  {
    63 - Log2(x)
  }

  /** The octave from the leading zeros of `value | mask`. */
  lemma BucketIndexAsComputed(p: Params, v: nat)
    ensures BitOr(v, Pow2(p.precision + 1) - 1) > 0
    ensures 64 - p.precision - 1 - Clz64(BitOr(v, Pow2(p.precision + 1) - 1)) == BucketIndex(p, v)
  {
    Log2OrMask(v, p.precision + 1);
  }

  /** The index from the shifted base and the signed offset; the 32-bit
      sub-bucket index loses nothing. */
  lemma CountsIndexAsComputed(p: Params, v: nat)
    requires p.precision <= 16
    ensures var b := BucketIndex(p, v);
            var sub := Shr(v, b);
            sub < 0x1_0000_0000 && (b + 1) * p.Half() + (sub - p.Half()) == CountsIndex(p, v)
  {
    SubBucketFits(p, v);
    var b := BucketIndex(p, v);
    OffsetFromBase(b, p.Half(), Shr(v, b));
  }

  lemma SubBucketFits(p: Params, v: nat)
    requires p.precision <= 16
    ensures Shr(v, BucketIndex(p, v)) < 0x1_0000_0000
  {
    IndexShape(p, v);
    Pow2Monotone(p.precision + 1, 17);
    Widths();
  }

  lemma OffsetFromBase(b: nat, h: nat, sub: nat)
    ensures (b + 1) * h + (sub - h) == b * h + sub
    ensures sub < 2 * h ==> b * h + sub < (b + 1 + 1) * h
  {
  }

  /** The inverse from the flat index by shift and mask. */
  lemma OctaveAsComputed(p: Params, i: nat)
    ensures var b := i / Pow2(p.precision) - 1;
            && (b < 0 <==> i < p.Half())
            && (b >= 0 ==> Octave(p, i) == b && SubBucket(p, i) == BitAnd(i, p.Half() - 1) + p.Half())
  {
    MaskIsMod(i, p.precision);
    QuotientIsZeroIff(i, p.Half());
  }

  lemma QuotientIsZeroIff(i: nat, h: nat)
    requires h > 0
    ensures i / h == 0 <==> i < h
  {
    if i < h { DivModUnique(i, h, 0, i); }
  }

  // ---- what the arithmetic comes to --------------------------------------------------

  /** Octave 0 holds the values below 2 * Half as they are; octave b > 0 holds
      [Half * 2^b, 2 * Half * 2^b) in steps of 2^b. */
  lemma IndexShape(p: Params, v: nat)
    ensures var b := BucketIndex(p, v);
            && Shr(v, b) < 2 * p.Half()
            && (b > 0 ==> p.Half() <= Shr(v, b) && p.Half() * Pow2(b) <= v)
            && (b == 0 ==> Shr(v, b) == v)
  {
    var b, h := BucketIndex(p, v), p.Half();
    if v >= Pow2(p.precision + 1) {
      LeadingBit(p, v);
      Log2Bounds(v);
      Pow2Add(p.precision, b);
      Pow2Add(p.precision + 1, b);
      ShrInterval(v, b, h, 2 * h);
    }
  }

  lemma OctaveOf(p: Params, i: nat, b: nat, sub: nat)
    requires i == b * p.Half() + sub && sub < 2 * p.Half() && (b > 0 ==> p.Half() <= sub)
    ensures Octave(p, i) == b && SubBucket(p, i) == sub
  {
    SplitOctave(i, p.Half(), b, sub);
  }

  lemma SplitOctave(i: nat, h: nat, b: nat, sub: nat)
    requires h > 0 && i == b * h + sub && sub < 2 * h && (b > 0 ==> h <= sub)
    ensures i < h <==> sub < h
    ensures sub >= h ==> i / h == b + 1 && i % h == sub - h
  {
    if sub >= h {
      assert h * (b + 1) == b * h + h;
      DivModUnique(i, h, b + 1, sub - h);
      assert b * h >= 0;
    }
  }

  /** The arithmetic of one bucket, [sub * unit, sub * unit + unit). */
  lemma Overshoot(v: nat, unit: nat, half: nat, sub: nat)
    requires sub * unit <= v < sub * unit + unit
    requires unit == 1 || half * unit <= v
    ensures (sub * unit + unit - 1 - v) * half <= v
  {
    MulMonotone(sub * unit + unit - 1 - v, unit, half);
  }

  /** Every value lies in the bucket it is indexed to, and the bucket's top
      overshoots it by at most one part in 2^precision. */
  lemma ValueInBucket(p: Params, v: nat)
    ensures LowestEquivalent(p, CountsIndex(p, v)) <= v <= HighestEquivalent(p, CountsIndex(p, v))
    ensures (HighestEquivalent(p, CountsIndex(p, v)) - v) * p.Half() <= v
  {
    IndexShape(p, v);
    var b := BucketIndex(p, v);
    OctaveOf(p, CountsIndex(p, v), b, Shr(v, b));
    ShrBounds(v, b);
    Overshoot(v, Pow2(b), p.Half(), Shr(v, b));
  }

  /** The buckets tile the values: each begins right after the one before. */
  lemma BucketsTile(p: Params, i: nat)
    ensures HighestEquivalent(p, i) + 1 == LowestEquivalent(p, i + 1)
  {
    var b, sub := Octave(p, i), SubBucket(p, i);
    SplitIndex(p, i);
    NextBucket(p, i, b, sub);
  }

  lemma NextBucket(p: Params, i: nat, b: nat, sub: nat)
    requires i == b * p.Half() + sub && sub < 2 * p.Half() && (b > 0 ==> p.Half() <= sub)
    ensures sub * Pow2(b) + Pow2(b) == LowestEquivalent(p, i + 1)
  {
    var h, unit := p.Half(), Pow2(b);
    NextStep(b, h, sub, unit);
    if sub + 1 < 2 * h {
      OctaveOf(p, i + 1, b, sub + 1);
    } else {
      OctaveOf(p, i + 1, b + 1, h);
    }
  }

  lemma NextStep(b: nat, h: nat, sub: nat, unit: nat)
    ensures sub * unit + unit == (sub + 1) * unit
    ensures sub + 1 == 2 * h ==> sub * unit + unit == h * (2 * unit) && b * h + sub + 1 == (b + 1) * h + h
  {
  }

  /** An index is its octave and sub-bucket. */
  lemma SplitIndex(p: Params, i: nat)
    ensures i == Octave(p, i) * p.Half() + SubBucket(p, i) && SubBucket(p, i) < 2 * p.Half()
    ensures Octave(p, i) > 0 ==> SubBucket(p, i) >= p.Half()
  {
    if i >= p.Half() { JoinOctave(i, p.Half()); }
  }

  lemma JoinOctave(i: nat, h: nat)
    requires 0 < h <= i
    ensures i / h >= 1 && i == (i / h - 1) * h + (i % h + h)
  {
    QuotientIsZeroIff(i, h);
    assert i == h * (i / h) + i % h;
    assert (i / h - 1) * h == h * (i / h) - h;
  }

  lemma {:induction false} BucketsAscend(p: Params, i: nat, j: nat)
    requires i < j
    ensures HighestEquivalent(p, i) < LowestEquivalent(p, j)
    decreases j - i
  {
    BucketsTile(p, j - 1);
    if i < j - 1 { BucketsAscend(p, i, j - 1); }
  }

  /** The index is the only bucket a value lies in. */
  lemma IndexUnique(p: Params, v: nat, i: nat)
    requires LowestEquivalent(p, i) <= v <= HighestEquivalent(p, i)
    ensures CountsIndex(p, v) == i
  {
    ValueInBucket(p, v);
    var j := CountsIndex(p, v);
    if i < j { BucketsAscend(p, i, j); }
    if j < i { BucketsAscend(p, j, i); }
  }

  /** Index and highest-equivalent value are an exact inverse pair, and order
      agrees: v is indexed at or below i exactly when it is at most i's top. */
  lemma IndexInverse(p: Params, v: nat, i: nat)
    ensures CountsIndex(p, HighestEquivalent(p, i)) == i
    ensures CountsIndex(p, v) <= i <==> v <= HighestEquivalent(p, i)
  {
    IndexUnique(p, HighestEquivalent(p, i), i);
    ValueInBucket(p, v);
    var j := CountsIndex(p, v);
    if i < j { BucketsAscend(p, i, j); }
    if j < i { BucketsAscend(p, j, i); }
  }

  lemma IndexMonotone(p: Params, u: nat, v: nat)
    requires u <= v
    ensures CountsIndex(p, u) <= CountsIndex(p, v)
  {
    ValueInBucket(p, v);
    IndexInverse(p, u, CountsIndex(p, v));
  }

  /** Every recordable value has its counter. */
  lemma IndexInRange(p: Params, v: nat)
    requires v <= p.highest
    ensures CountsIndex(p, v) < CountsLen(p)
  {
    IndexMonotone(p, v, p.highest);
    IndexShape(p, p.highest);
    var b := BucketIndex(p, p.highest);
    OffsetFromBase(b, p.Half(), Shr(p.highest, b));
  }

  /** No bucket top overflows 64 bits. */
  lemma TopsFit(p: Params, i: nat)
    requires p.Valid() && i < CountsLen(p)
    ensures BucketCount(p) <= 64 - p.precision && HighestEquivalent(p, i) < U64_END
  {
    LastOctave(p);
    SplitIndex(p, i);
    TopFits(p, Octave(p, i), SubBucket(p, i), BucketIndex(p, p.highest));
  }

  lemma LastOctave(p: Params)
    requires p.Valid()
    ensures BucketIndex(p, p.highest) <= 63 - p.precision
  {
    Widths();
    if p.highest > 0 {
      Log2Bounds(p.highest);
      if Log2(p.highest) >= 64 { Pow2Monotone(64, Log2(p.highest)); }
    }
  }

  lemma TopFits(p: Params, octave: nat, sub: nat, last: nat)
    requires p.Valid() && sub < 2 * p.Half() && (octave > 0 ==> sub >= p.Half())
    requires octave * p.Half() + sub < (last + 2) * p.Half() && last <= 63 - p.precision
    ensures sub * Pow2(octave) + Pow2(octave) <= U64_END
  {
    OctaveBound(octave, sub, last, p.Half());
    var unit := Pow2(octave);
    MulMonotone(sub + 1, 2 * p.Half(), unit);
    assert (sub + 1) * unit == sub * unit + unit;
    Pow2Add(p.precision + 1, octave);
    Pow2Monotone(p.precision + 1 + octave, 64);
    Widths();
  }

  lemma OctaveBound(octave: nat, sub: nat, last: nat, h: nat)
    requires octave * h + sub < (last + 2) * h && (octave > 0 ==> sub >= h)
    ensures octave <= last
  {
    assert (last + 2) * h == (last + 1) * h + h;
    if octave > last { MulMonotone(last + 1, octave, h); }
  }

  // ---- histograms of samples ------------------------------------------------------------

  function Clamp(p: Params, v: nat): nat { if v > p.highest then p.highest else v }

  /** How many samples an index counts. */
  function Occurs(p: Params, xs: seq<nat>, i: nat): nat {
    if xs == [] then 0
    else Occurs(p, xs[..|xs| - 1], i) + if CountsIndex(p, xs[|xs| - 1]) == i then 1 else 0
  }

  function CountLe(xs: seq<nat>, x: nat): nat {
    if xs == [] then 0 else CountLe(xs[..|xs| - 1], x) + if xs[|xs| - 1] <= x then 1 else 0
  }

  function Sum(xs: seq<nat>): nat {
    if xs == [] then 0 else Sum(xs[..|xs| - 1]) + xs[|xs| - 1]
  }

  function MaxOf(xs: seq<nat>): nat {
    if xs == [] then 0
    else var m := MaxOf(xs[..|xs| - 1]); if xs[|xs| - 1] > m then xs[|xs| - 1] else m
  }

  /** 2^64 - 1 when there is none. */
  function MinOf(xs: seq<nat>): nat {
    if xs == [] then U64_END - 1
    else var m := MinOf(xs[..|xs| - 1]); if xs[|xs| - 1] < m then xs[|xs| - 1] else m
  }

  datatype Hist = Hist(counts: seq<nat>, total: nat, sum: nat, max: nat, min: nat)

  /** The histogram of a sequence of (clamped) samples. */
  function HistOf(p: Params, xs: seq<nat>): Hist {
    Hist(seq(CountsLen(p), i requires 0 <= i => Occurs(p, xs, i)), |xs|, Sum(xs), MaxOf(xs), MinOf(xs))
  }

  function Merge(a: Hist, b: Hist): Hist
    requires |a.counts| == |b.counts|
  {
    Hist(seq(|a.counts|, i requires 0 <= i < |a.counts| => a.counts[i] + b.counts[i]),
         a.total + b.total, a.sum + b.sum,
         if b.max > a.max then b.max else a.max,
         if b.min < a.min then b.min else a.min)
  }

  lemma {:induction false} JoinedCounts(p: Params, xs: seq<nat>, ys: seq<nat>, i: nat)
    ensures Occurs(p, xs + ys, i) == Occurs(p, xs, i) + Occurs(p, ys, i)
    decreases |ys|
  {
    if ys == [] {
      assert xs + ys == xs;
    } else {
      assert (xs + ys)[..|xs + ys| - 1] == xs + ys[..|ys| - 1];
      JoinedCounts(p, xs, ys[..|ys| - 1], i);
    }
  }

  lemma {:induction false} JoinedTotals(xs: seq<nat>, ys: seq<nat>)
    ensures Sum(xs + ys) == Sum(xs) + Sum(ys)
    ensures MaxOf(xs + ys) == if MaxOf(ys) > MaxOf(xs) then MaxOf(ys) else MaxOf(xs)
    ensures MinOf(xs + ys) == if MinOf(ys) < MinOf(xs) then MinOf(ys) else MinOf(xs)
    decreases |ys|
  {
    LeastSample(xs);
    if ys == [] {
      assert xs + ys == xs;
    } else {
      assert (xs + ys)[..|xs + ys| - 1] == xs + ys[..|ys| - 1];
      JoinedTotals(xs, ys[..|ys| - 1]);
    }
  }

  lemma {:induction false} LeastSample(xs: seq<nat>)
    ensures MinOf(xs) < U64_END
    ensures forall x :: x in xs ==> MinOf(xs) <= x <= MaxOf(xs)
    ensures xs != [] ==> MaxOf(xs) in xs
  {
    if xs != [] {
      LeastSample(xs[..|xs| - 1]);
      assert xs == xs[..|xs| - 1] + [xs[|xs| - 1]];
    }
  }

  /** The minimum of samples that fit 64 bits is one of them. */
  lemma {:induction false} MinIsSample(xs: seq<nat>)
    requires xs != [] && forall x :: x in xs ==> x < U64_END
    ensures MinOf(xs) in xs
  {
    var front, x := xs[..|xs| - 1], xs[|xs| - 1];
    assert xs == front + [x];
    assert x in xs && forall y :: y in front ==> y in xs;
    if front != [] { MinIsSample(front); }
  }

  /** n occurrences of v entered under index i. */
  function Recorded(h: Hist, i: nat, v: nat, n: nat): Hist
    requires i < |h.counts|
  {
    Hist(h.counts[i := h.counts[i] + n], h.total + n, h.sum + v * n,
         if v > h.max then v else h.max, if v < h.min then v else h.min)
  }

  /** Recording adds one to the sample's counter and leaves the others. */
  lemma OneMoreSample(p: Params, xs: seq<nat>, v: nat)
    requires v <= p.highest
    ensures CountsIndex(p, v) < CountsLen(p)
    ensures HistOf(p, xs + [v]) == Recorded(HistOf(p, xs), CountsIndex(p, v), v, 1)
  {
    IndexInRange(p, v);
    OneMoreCount(p, xs, v, CountsIndex(p, v));
    assert (xs + [v])[..|xs|] == xs;
    assert v * 1 == v;
  }

  lemma OneMoreCount(p: Params, xs: seq<nat>, v: nat, idx: nat)
    requires idx == CountsIndex(p, v) < CountsLen(p)
    ensures var was := HistOf(p, xs).counts;
            HistOf(p, xs + [v]).counts == was[idx := was[idx] + 1]
  {
    assert (xs + [v])[..|xs|] == xs;
  }

  function Repeat(v: nat, n: nat): seq<nat> { seq(n, _ => v) }

  /** Recording n > 0 times at once is recording n times.  With n = 0 it is not
      nothing: the maximum and minimum still move. */
  lemma {:induction false} ManySamples(p: Params, xs: seq<nat>, v: nat, n: nat)
    requires v <= p.highest && n > 0
    ensures CountsIndex(p, v) < CountsLen(p)
    ensures HistOf(p, xs + Repeat(v, n)) == Recorded(HistOf(p, xs), CountsIndex(p, v), v, n)
    decreases n
  {
    if n == 1 {
      assert Repeat(v, 1) == [v];
      OneMoreSample(p, xs, v);
    } else {
      ManySamples(p, xs, v, n - 1);
      OneMoreSample(p, xs + Repeat(v, n - 1), v);
      assert xs + Repeat(v, n) == (xs + Repeat(v, n - 1)) + [v];
      assert v * n == v * (n - 1) + v;
    }
  }

  /** A zero count is harmless exactly when the value is no new extreme. */
  lemma ZeroCountIff(p: Params, xs: seq<nat>, v: nat)
    requires v <= p.highest
    ensures CountsIndex(p, v) < CountsLen(p)
    ensures Recorded(HistOf(p, xs), CountsIndex(p, v), v, 0) == HistOf(p, xs) <==> MinOf(xs) <= v <= MaxOf(xs)
  {
    IndexInRange(p, v);
  }

  /** Merging two histograms gives the histogram of all their samples. */
  lemma MergeIsUnion(p: Params, xs: seq<nat>, ys: seq<nat>)
    ensures Merge(HistOf(p, xs), HistOf(p, ys)) == HistOf(p, xs + ys)
  {
    JoinedTotals(xs, ys);
    forall i: nat ensures Occurs(p, xs + ys, i) == Occurs(p, xs, i) + Occurs(p, ys, i) {
      JoinedCounts(p, xs, ys, i);
    }
  }

  // ---- percentiles -------------------------------------------------------------------------

  /** Samples counted below index i. */
  function Cumulative(p: Params, xs: seq<nat>, i: nat): nat {
    if i == 0 then 0 else Cumulative(p, xs, i - 1) + Occurs(p, xs, i - 1)
  }

  lemma {:induction false} CumulativeStep(p: Params, xs: seq<nat>, x: nat, i: nat)
    ensures Cumulative(p, xs + [x], i) == Cumulative(p, xs, i) + if CountsIndex(p, x) < i then 1 else 0
  {
    assert (xs + [x])[..|xs|] == xs;
    if i > 0 { CumulativeStep(p, xs, x, i - 1); }
  }

  lemma {:induction false} CumulativeNone(p: Params, i: nat)
    ensures Cumulative(p, [], i) == 0
  {
    if i > 0 { CumulativeNone(p, i - 1); }
  }

  /** What is counted up to a bucket is exactly the samples up to its top. */
  lemma {:induction false} CumulativeIsCountLe(p: Params, xs: seq<nat>, i: nat)
    ensures Cumulative(p, xs, i + 1) == CountLe(xs, HighestEquivalent(p, i))
    decreases |xs|
  {
    if xs == [] {
      CumulativeNone(p, i + 1);
    } else {
      var front, x := xs[..|xs| - 1], xs[|xs| - 1];
      assert xs == front + [x];
      CumulativeIsCountLe(p, front, i);
      CumulativeStep(p, front, x, i + 1);
      IndexInverse(p, x, i);
    }
  }

  /** All buckets together count every sample. */
  lemma AllCounted(p: Params, xs: seq<nat>)
    requires forall x :: x in xs ==> x <= p.highest
    ensures Cumulative(p, xs, CountsLen(p)) == |xs|
  {
    var last := CountsLen(p) - 1;
    CumulativeIsCountLe(p, xs, last);
    IndexInRange(p, p.highest);
    IndexInverse(p, p.highest, last);
    CountLeTop(xs, HighestEquivalent(p, last));
  }

  /** x is the k-th smallest sample, counting from 1. */
  predicate IsKth(xs: seq<nat>, k: nat, x: nat) {
    x in xs && CountLe(xs, x) >= k && (x > 0 ==> CountLe(xs, x - 1) < k) && k > 0
  }

  lemma {:induction false} CountLeMonotone(xs: seq<nat>, x: nat, y: nat)
    requires x <= y
    ensures CountLe(xs, x) <= CountLe(xs, y) <= |xs|
  {
    if xs != [] { CountLeMonotone(xs[..|xs| - 1], x, y); }
  }

  lemma {:induction false} CountLeTop(xs: seq<nat>, x: nat)
    requires forall y :: y in xs ==> y <= x
    ensures CountLe(xs, x) == |xs|
  {
    if xs != [] {
      var front, last := xs[..|xs| - 1], xs[|xs| - 1];
      assert xs == front + [last];
      assert last in xs;
      forall y | y in front ensures y <= x { assert y in xs; }
      CountLeTop(front, x);
    }
  }

  /** The count steps up only at a sample. */
  lemma {:induction false} CountLeJump(xs: seq<nat>, x: nat)
    requires x > 0 && CountLe(xs, x - 1) < CountLe(xs, x)
    ensures x in xs
  {
    if xs[|xs| - 1] != x { CountLeJump(xs[..|xs| - 1], x); }
  }

  lemma {:induction false} CountLeZero(xs: seq<nat>)
    requires CountLe(xs, 0) > 0
    ensures 0 in xs
  {
    if xs[|xs| - 1] != 0 { CountLeZero(xs[..|xs| - 1]); }
  }

  /** Every rank from 1 to n has its sample. */
  lemma {:induction false} KthBelow(xs: seq<nat>, k: nat, top: nat) returns (x: nat)
    requires 0 < k <= CountLe(xs, top)
    ensures IsKth(xs, k, x) && x <= top
  {
    if top > 0 && CountLe(xs, top - 1) >= k {
      x := KthBelow(xs, k, top - 1);
    } else {
      x := top;
      if top > 0 { CountLeJump(xs, top); } else { CountLeZero(xs); }
    }
  }

  lemma KthExists(xs: seq<nat>, k: nat) returns (x: nat)
    requires 0 < k <= |xs|
    ensures IsKth(xs, k, x)
  {
    LeastSample(xs);
    CountLeTop(xs, MaxOf(xs));
    x := KthBelow(xs, k, MaxOf(xs));
  }

  /** Ranks are ordered as their samples, so there is one sample to a rank. */
  lemma KthMonotone(xs: seq<nat>, j: nat, x: nat, k: nat, y: nat)
    requires j <= k && IsKth(xs, j, x) && IsKth(xs, k, y)
    ensures x <= y && (j == k ==> x == y)
  {
    if x > y { CountLeMonotone(xs, y, x - 1); }
    if x < y && j == k { CountLeMonotone(xs, x, y - 1); }
  }

  /** The last rank is the maximum. */
  lemma LastIsMax(xs: seq<nat>)
    requires xs != []
    ensures IsKth(xs, |xs|, MaxOf(xs))
  {
    LeastSample(xs);
    var x := KthExists(xs, |xs|);
    CountLeTop(xs, MaxOf(xs));
    if x < MaxOf(xs) { StrictlyFewer(xs, x, MaxOf(xs)); }
  }

  lemma {:induction false} StrictlyFewer(xs: seq<nat>, x: nat, y: nat)
    requires y in xs && x < y
    ensures CountLe(xs, x) < |xs|
  {
    CountLeMonotone(xs[..|xs| - 1], x, x);
    if xs[|xs| - 1] <= x {
      assert xs == xs[..|xs| - 1] + [xs[|xs| - 1]];
      StrictlyFewer(xs[..|xs| - 1], x, y);
    }
  }

  /** The rank a percentile asks for, over exact arithmetic: clamped to 0..100,
      rounded half up, and 1 for what rounds to 0. */
  function Rank(pct: real, n: nat): nat {
    var target := Rounded(Clamped(pct) / 100.0, n);
    if target == 0 then 1 else target
  }

  function Clamped(pct: real): real { if pct < 0.0 then 0.0 else if pct > 100.0 then 100.0 else pct }

  function Rounded(share: real, n: nat): nat
    requires 0.0 <= share <= 1.0
  {
    ShareMonotone(0.0, share, n as real);
    (share * n as real + 0.5).Floor
  }

  lemma ShareMonotone(a: real, b: real, n: real)
    requires a <= b && n >= 0.0
    ensures a * n <= b * n
  {
    assert (b - a) * n >= 0.0;
  }

  lemma RoundedMonotone(a: real, b: real, n: nat)
    requires 0.0 <= a <= b <= 1.0
    ensures Rounded(a, n) <= Rounded(b, n)
  {
    ShareMonotone(a, b, n as real);
    FloorMonotone(a * n as real + 0.5, b * n as real + 0.5);
  }

  lemma RoundedWhole(n: nat)
    ensures Rounded(1.0, n) == n
  {
    HalfUp(1.0 * n as real, n);
  }

  lemma HalfUp(x: real, n: nat)
    requires x == n as real
    ensures (x + 0.5).Floor == n
  {
  }

  lemma FloorMonotone(x: real, y: real)
    requires x <= y
    ensures x.Floor <= y.Floor
  {
  }

  /** Every percentile names a rank that exists; the hundredth names the last. */
  lemma RankBounds(pct: real, n: nat)
    requires n > 0
    ensures 1 <= Rank(pct, n) <= n && (pct >= 100.0 ==> Rank(pct, n) == n)
  {
    var share := Clamped(pct) / 100.0;
    RoundedMonotone(share, 1.0, n);
    RoundedWhole(n);
    if pct >= 100.0 { assert share == 1.0; }
  }

  /** A greater percentile asks for no smaller a rank. */
  lemma RankMonotone(a: real, b: real, n: nat)
    requires a <= b
    ensures Rank(a, n) <= Rank(b, n)
  {
    RoundedMonotone(Clamped(a) / 100.0, Clamped(b) / 100.0, n);
  }

  /** k is the percentage of n rounded to the nearest whole number, halves up, or 1
      where that is nothing; a percentage outside 0..100 acts as the nearer end. */
  predicate RankFits(pct: real, n: nat, k: nat) {
    if pct < 0.0 then k == 1
    else if pct > 100.0 then k == n
    else
      var share := pct * n as real / 100.0;
      (k as real - 0.5 <= share < k as real + 0.5 && k > 0) || (k == 1 && share < 0.5)
  }

  lemma RankFitsIff(pct: real, n: nat, k: nat)
    requires n > 0
    ensures RankFits(pct, n, k) <==> k == Rank(pct, n)
  {
    RankBounds(pct, n);
    if 0.0 <= pct <= 100.0 {
      ShareOf(pct, n as real);
      NearestIff(pct * n as real / 100.0, k);
    }
  }

  lemma ShareOf(pct: real, n: real)
    ensures pct / 100.0 * n == pct * n / 100.0
  {
  }

  lemma NearestIff(share: real, k: nat)
    requires share >= 0.0
    ensures k == (share + 0.5).Floor <==> k as real - 0.5 <= share < k as real + 0.5
    ensures (share + 0.5).Floor == 0 <==> share < 0.5
  {
  }

  /** r is the top of the bucket of the k-th smallest sample: at least k samples are at
      most r, and fewer than k are below its bucket. */
  ghost predicate Reports(p: Params, xs: seq<nat>, k: nat, r: nat) {
    && CountLe(xs, r) >= k
    && (exists x :: IsKth(xs, k, x) && r == HighestEquivalent(p, CountsIndex(p, x)))
    && exists i :: r == HighestEquivalent(p, i)
                   && (LowestEquivalent(p, i) > 0 ==> CountLe(xs, LowestEquivalent(p, i) - 1) < k)
  }

  lemma ReportSplits(p: Params, xs: seq<nat>, k: nat, x: nat)
    requires IsKth(xs, k, x)
    ensures Reports(p, xs, k, HighestEquivalent(p, CountsIndex(p, x)))
  {
    var i := CountsIndex(p, x);
    ValueInBucket(p, x);
    CountLeMonotone(xs, x, HighestEquivalent(p, i));
    if LowestEquivalent(p, i) > 0 { CountLeMonotone(xs, LowestEquivalent(p, i) - 1, x - 1); }
  }

  /** CountLe counts the places that hold a sample of at most x. */
  lemma {:induction false} CountLeCounts(xs: seq<nat>, x: nat)
    ensures CountLe(xs, x) == |set i | 0 <= i < |xs| && xs[i] <= x|
  {
    var places := set i | 0 <= i < |xs| && xs[i] <= x;
    if xs == [] {
      assert places == {};
    } else {
      var n := |xs| - 1;
      var front := xs[..n];
      CountLeCounts(front, x);
      var before := set i | 0 <= i < |front| && front[i] <= x;
      assert places == before + if xs[n] <= x then {n} else {};
    }
  }

  /** What a percentile reports at ranks j <= k: it grows with the rank, is never
      below the sample of that rank, overshoots it by at most one part in
      2^precision, and at the last rank is at least the maximum. */
  lemma RankReports(p: Params, xs: seq<nat>, j: nat, x: nat, k: nat, y: nat)
    requires j <= k && IsKth(xs, j, x) && IsKth(xs, k, y)
    ensures var low, high := HighestEquivalent(p, CountsIndex(p, x)), HighestEquivalent(p, CountsIndex(p, y));
            && low <= high && x <= low && (low - x) * p.Half() <= x
            && (k == |xs| ==> MaxOf(xs) <= high)
  {
    KthMonotone(xs, j, x, k, y);
    ValueInBucket(p, x);
    ValueInBucket(p, y);
    IndexMonotone(p, x, y);
    if CountsIndex(p, x) < CountsIndex(p, y) { BucketsAscend(p, CountsIndex(p, x), CountsIndex(p, y)); }
    if k == |xs| {
      LastIsMax(xs);
      KthMonotone(xs, k, y, k, MaxOf(xs));
    }
  }

  /** The bucket where the cumulative count reaches the rank is the bucket of the
      sample of that rank. */
  lemma FirstBucketReaching(p: Params, xs: seq<nat>, k: nat, i: nat, x: nat)
    requires IsKth(xs, k, x)
    requires Cumulative(p, xs, i) < k <= Cumulative(p, xs, i + 1)
    ensures CountsIndex(p, x) == i
  {
    CumulativeIsCountLe(p, xs, i);
    IndexInverse(p, x, i);
    if x > HighestEquivalent(p, i) {
      CountLeMonotone(xs, HighestEquivalent(p, i), x - 1);
    }
    if i > 0 {
      CumulativeIsCountLe(p, xs, i - 1);
      IndexInverse(p, x, i - 1);
      if x <= HighestEquivalent(p, i - 1) { CountLeMonotone(xs, x, HighestEquivalent(p, i - 1)); }
    }
  }
}

/** include/hft/histogram.hpp: the counters as the recording thread updates them. */
module Histogram {
  import opened Bits
  import opened HistogramSpec

  /** buckets_needed: doubles until the range is covered, stopping where the next
      doubling would not fit 64 bits. */
  method BucketsNeeded(p: Params) returns (needed: nat)
    requires p.Valid()
    ensures needed == BucketCount(p)
  {
    var smallestUntrackable := Pow2(p.precision + 1);
    needed := 1;
    SmallWord(p.precision + 1);
    while smallestUntrackable <= p.highest
      invariant needed >= 1 && smallestUntrackable == Pow2(p.precision + needed) < U64_END
      invariant needed > 1 ==> Pow2(p.precision + needed - 1) <= p.highest
      decreases p.highest - smallestUntrackable
    {
      Doubling(p, needed);
      if smallestUntrackable > (U64_END - 1) / 2 { return needed + 1; }
      smallestUntrackable := smallestUntrackable * 2;
      needed := needed + 1;
    }
    if needed > 1 { Reached(p, needed); }
  }

  lemma SmallWord(n: nat)
    requires n <= 17
    ensures Pow2(n) < U64_END
  {
    Widths();
    Pow2Monotone(n, 17);
  }

  lemma Doubling(p: Params, needed: nat)
    requires p.Valid() && needed >= 1 && Pow2(p.precision + needed) <= p.highest
    ensures Pow2(p.precision + (needed + 1)) == 2 * Pow2(p.precision + needed)
    ensures Pow2(p.precision + needed) > (U64_END - 1) / 2 ==> needed + 1 == BucketCount(p)
  {
    var next := p.precision + needed + 1;
    assert Pow2(next) == 2 * Pow2(next - 1);
    if 2 * Pow2(next - 1) >= U64_END { Reached(p, needed + 1); }
  }

  lemma Reached(p: Params, needed: nat)
    requires needed > 1 && Pow2(p.precision + needed - 1) <= p.highest < Pow2(p.precision + needed)
    ensures needed == BucketCount(p)
  {
    Pow2Monotone(p.precision + 1, p.precision + needed - 1);
    Log2Unique(p.highest, p.precision + needed - 1);
  }

  /** The clamped percentage of the count, rounded, and at least 1. */
  method RankFor(pct: real, n: nat) returns (k: nat)
    requires n > 0
    ensures RankFits(pct, n, k) && 1 <= k <= n
  {
    RankFitsIff(pct, n, Rank(pct, n));
    RankBounds(pct, n);
    k := Rank(pct, n);
  }

  class Histogram {
    const p: Params
    const counts: array<nat>
    var totalCount: nat
    var sum: nat
    var max: nat
    var min: nat
    ghost var samples: seq<nat>    // clamped to the range, in order of recording

    ghost predicate Shape() {
      p.Valid() && counts.Length == CountsLen(p)
    }

    ghost predicate Valid()
      reads this, counts
    {
      && Shape()
      && (forall x :: x in samples ==> x <= p.highest)
      && View() == HistOf(p, samples)
    }

    ghost function View(): Hist
      reads this, counts
    {
      Hist(counts[..], totalCount, sum, max, min)
    }

    constructor (p: Params)
      requires p.Valid()
      ensures Valid() && samples == [] && this.p == p && fresh(counts)
    {
      this.p := p;
      counts := new nat[CountsLen(p)](_ => 0);
      totalCount, sum, max, min := 0, 0, 0, U64_END - 1;
      samples := [];
    }

    /** The index from leading zeros, shifts and masks. */
    method IndexOf(value: nat) returns (idx: nat)
      requires Shape() && value <= p.highest
      ensures idx == CountsIndex(p, value) < counts.Length
    {
      CountsIndexAsComputed(p, value);
      IndexInRange(p, value);
      var bidx := BucketIndexOf(value);
      var shifted := Shr(value, bidx);
      var sidx := shifted % 0x1_0000_0000;
      assert sidx == shifted;
      var bucketBase := (bidx + 1) * p.Half();
      var offset := sidx - p.Half();
      idx := bucketBase + offset;
    }

    method BucketIndexOf(value: nat) returns (bidx: nat)
      ensures bidx == BucketIndex(p, value)
    {
      BucketIndexAsComputed(p, value);
      bidx := 64 - p.precision - 1 - Clz64(BitOr(value, Pow2(p.precision + 1) - 1));
    }

    /** The inclusive top of a bucket, from its flat index. */
    method BucketUpperBound(index: nat) returns (top: nat)
      ensures top == HighestEquivalent(p, index)
    {
      OctaveAsComputed(p, index);
      var half := Pow2(p.precision);
      var bidx, sidx := index / half - 1, BitAnd(index, half - 1) + half;
      if bidx < 0 {
        bidx, sidx := 0, index;
      }
      assert bidx == Octave(p, index) && sidx == SubBucket(p, index);
      var bucketUnit := Pow2(bidx);
      top := sidx * bucketUnit + bucketUnit - 1;
    }

    method Record(value: nat)
      requires Valid()
      modifies this, counts
      ensures Valid() && samples == old(samples) + [if value > p.highest then p.highest else value]
    {
      OneMoreSample(p, samples, Clamp(p, value));
      RecordN(value, 1);
      samples := samples + [Clamp(p, value)];
    }

    /** n at once; on an empty or narrower histogram a zero n leaves a maximum or
        minimum that no sample has. */
    method RecordMany(value: nat, n: nat)
      requires Valid()
      modifies this, counts
      ensures samples == old(samples) + Repeat(if value > p.highest then p.highest else value, n)
      ensures Valid() <==> n > 0 || MinOf(old(samples)) <= Clamp(p, value) <= MaxOf(old(samples))
    {
      if n > 0 { ManySamples(p, samples, Clamp(p, value), n); }
      ZeroCountIff(p, samples, Clamp(p, value));
      RecordN(value, n);
      samples := samples + Repeat(Clamp(p, value), n);
      if n == 0 { assert samples == old(samples); }
    }

    /** record and record_n: the counter, the totals and the extremes. */
    method RecordN(value: nat, n: nat)
      requires Shape()
      modifies this`totalCount, this`sum, this`max, this`min, counts
      ensures CountsIndex(p, Clamp(p, value)) < counts.Length
      ensures View() == Recorded(old(View()), CountsIndex(p, Clamp(p, value)), Clamp(p, value), n)
      ensures var v := if value > p.highest then p.highest else value;
              totalCount == old(totalCount) + n && sum == old(sum) + v * n
    {
      var v := if value > p.highest then p.highest else value;
      var idx := IndexOf(v);
      Enter(idx, v, n);
    }

    method Enter(idx: nat, v: nat, n: nat)
      requires idx < counts.Length
      modifies this`totalCount, this`sum, this`max, this`min, counts
      ensures View() == Recorded(old(View()), idx, v, n)
    {
      counts[idx] := counts[idx] + n;
      totalCount := totalCount + n;
      sum := sum + v * n;
      if v > max { max := v; }
      if v < min { min := v; }
    }

    /** The value at a rank; rank 0 is read as 1.  It is the top of the bucket of
        the sample of that rank, and the maximum past the last rank. */
    method Percentile(target: nat) returns (r: nat)
      requires Valid()
      ensures samples == [] ==> r == 0
      ensures var want := if target == 0 then 1 else target;
              && (forall x :: IsKth(samples, want, x) ==> r == HighestEquivalent(p, CountsIndex(p, x)))
              && (samples != [] && want > |samples| ==> r == MaxOf(samples))
    {
      if totalCount == 0 { return 0; }
      var want := if target == 0 then 1 else target;
      var cumulative := 0;
      for i := 0 to counts.Length
        invariant cumulative == Cumulative(p, samples, i) < want
      {
        cumulative := cumulative + counts[i];
        if cumulative >= want {
          RankReached(i, want);
          r := BucketUpperBound(i);
          return;
        }
      }
      NotReached(want);
      return max;
    }

    /** A percentile: the bucket top of the sample whose rank it rounds to. */
    method PercentileAt(pct: real) returns (r: nat)
      requires Valid()
      ensures samples == [] ==> r == 0
      ensures samples != [] ==> exists k :: RankFits(pct, |samples|, k) && Reports(p, samples, k, r)
    {
      if totalCount == 0 { return 0; }
      var k := RankFor(pct, totalCount);
      ghost var x := KthExists(samples, k);
      ReportSplits(p, samples, k, x);
      r := Percentile(k);
    }

    lemma RankReached(i: nat, want: nat)
      requires Valid() && Cumulative(p, samples, i) < want <= Cumulative(p, samples, i + 1)
      ensures want <= |samples|
      ensures forall x :: IsKth(samples, want, x) ==> CountsIndex(p, x) == i
    {
      CumulativeIsCountLe(p, samples, i);
      CountLeMonotone(samples, HighestEquivalent(p, i), HighestEquivalent(p, i));
      forall x | IsKth(samples, want, x) ensures CountsIndex(p, x) == i {
        FirstBucketReaching(p, samples, want, i, x);
      }
    }

    lemma NotReached(want: nat)
      requires Valid() && Cumulative(p, samples, counts.Length) < want
      ensures want > |samples| && forall x :: !IsKth(samples, want, x)
    {
      AllCounted(p, samples);
      forall x: nat ensures !IsKth(samples, want, x) { CountLeMonotone(samples, x, x); }
    }

    /** Merging a histogram of the same shape, itself included, takes in all its samples. */
    method Add(other: Histogram)
      requires Valid() && other.Valid() && other.p == p && (other == this || other.counts != counts)
      modifies this, counts
      ensures Valid() && samples == old(samples) + old(other.samples)
      ensures totalCount == old(totalCount) + old(other.totalCount) && sum == old(sum) + old(other.sum)
    {
      MergeIsUnion(p, samples, other.samples);
      LeastSample(samples);
      AddAll(other);
      samples := samples + other.samples;
    }

    method AddAll(other: Histogram)
      requires Shape() && other.Shape() && other.p == p && (other == this || other.counts != counts)
      requires min < U64_END && (other.totalCount == 0 ==> other.min == U64_END - 1)
      modifies this`totalCount, this`sum, this`max, this`min, counts
      ensures View() == Merge(old(View()), old(other.View()))
    {
      ghost var was, theirs := counts[..], other.counts[..];
      for i := 0 to counts.Length
        invariant forall j :: 0 <= j < i ==> counts[j] == was[j] + theirs[j]
        invariant forall j :: i <= j < counts.Length ==> counts[j] == was[j] && other.counts[j] == theirs[j]
        modifies counts
      {
        counts[i] := counts[i] + other.counts[i];
      }
      totalCount := totalCount + other.totalCount;
      sum := sum + other.sum;
      if other.max > max { max := other.max; }
      var otherMin := if other.totalCount != 0 then other.min else 0;
      if other.totalCount != 0 && otherMin < min { min := otherMin; }
      assert counts[..] == Merge(old(View()), old(other.View())).counts;
    }
  }
}
