/** Pre-trade checks (include/hft/risk_gate.hpp).  The rate limiter is a component
    of the gate's state: either the GCRA arrival time the code keeps, or the
    explicit token bucket it stands for.  Time is in clock cycles. */
module RiskSpec {
  import opened Messages

  datatype Limits = Limits(maxPosition: int, maxOrderSize: U32, cyclesPerToken: nat, burst: U32)

  datatype Verdict = Accept | KillSwitch | SizeLimit | PositionLimit | RateLimit

  /** A burst of 0 counts as 1. */
  function Burst(l: Limits): nat { if l.burst == 0 then 1 else l.burst }

  function Tau(l: Limits): nat { l.cyclesPerToken * Burst(l) }

  datatype Limiter =
    | Gcra(tat: nat)                      // theoretical arrival time
    | Bucket(credit: nat, asOf: nat)      // credit in cycles, as of the last decision

  /** The bucket holds Burst + 1 tokens' worth of credit and one token costs cyclesPerToken. */
  function Depth(l: Limits): nat { Tau(l) + l.cyclesPerToken }

  function Max(a: int, b: int): int { if a > b then a else b }

  function Refilled(l: Limits, b: Limiter, now: nat): nat
    requires b.Bucket?
  {
    var c := b.credit + Max(now - b.asOf, 0);
    if c > Depth(l) then Depth(l) else c
  }

  predicate HasToken(l: Limits, m: Limiter, now: nat) {
    match m
    case Gcra(tat) => now >= (if tat > Tau(l) then tat - Tau(l) else 0)
    case Bucket(_, _) => Refilled(l, m, now) >= l.cyclesPerToken
  }

  function TakeToken(l: Limits, m: Limiter, now: nat): Limiter
    requires HasToken(l, m, now)
  {
    match m
    case Gcra(tat) => Gcra(Max(now, tat) + l.cyclesPerToken)
    case Bucket(_, asOf) => Bucket(Refilled(l, m, now) - l.cyclesPerToken, Max(now, asOf))
  }

  datatype Gate = Gate(
    position: int, limiter: Limiter,
    accepted: nat, rejKill: nat, rejSize: nat, rejPos: nat, rejRate: nat)

  const START := Gate(0, Gcra(0), 0, 0, 0, 0, 0)

  predicate WithinPosition(l: Limits, position: int) { -l.maxPosition <= position <= l.maxPosition }

  function Judge(l: Limits, g: Gate, o: OrderRequest, kill: bool, now: nat): Verdict {
    if kill then KillSwitch
    else if o.size == 0 || o.size > l.maxOrderSize then SizeLimit
    else if !WithinPosition(l, g.position + Signed(o.side, o.size)) then PositionLimit
    else if l.cyclesPerToken > 0 && !HasToken(l, g.limiter, now) then RateLimit
    else Accept
  }

  /** Only an accepted order takes a token; a rejected one changes its counter alone. */
  function Check(l: Limits, g: Gate, o: OrderRequest, kill: bool, now: nat): Gate {
    match Judge(l, g, o, kill, now)
    case KillSwitch => g.(rejKill := g.rejKill + 1)
    case SizeLimit => g.(rejSize := g.rejSize + 1)
    case PositionLimit => g.(rejPos := g.rejPos + 1)
    case RateLimit => g.(rejRate := g.rejRate + 1)
    case Accept =>
      g.(accepted := g.accepted + 1,
         limiter := if l.cyclesPerToken > 0 then TakeToken(l, g.limiter, now) else g.limiter)
  }

  function OnFill(g: Gate, r: ExecReport): Gate {
    g.(position := g.position + Signed(r.side, r.fillSize))
  }

  // ---- runs --------------------------------------------------------------------

  datatype Call = Ask(o: OrderRequest, kill: bool, now: nat) | Filled(r: ExecReport)

  function After(l: Limits, g: Gate, c: Call): Gate {
    match c
    case Ask(o, kill, now) => Check(l, g, o, kill, now)
    case Filled(r) => OnFill(g, r)
  }

  predicate Accepts(l: Limits, g: Gate, c: Call) {
    c.Ask? && Judge(l, g, c.o, c.kill, c.now) == Accept
  }

  function Verdicts(l: Limits, g: Gate, calls: seq<Call>): seq<Verdict>
    decreases |calls|
  {
    if calls == [] then []
    else
      (if calls[0].Ask? then [Judge(l, g, calls[0].o, calls[0].kill, calls[0].now)] else [])
      + Verdicts(l, After(l, g, calls[0]), calls[1..])
  }

  /** Clock readings of the accepted orders, in order. */
  function AcceptTimes(l: Limits, g: Gate, calls: seq<Call>): seq<nat>
    decreases |calls|
  {
    if calls == [] then []
    else
      (if Accepts(l, g, calls[0]) then [calls[0].now] else [])
      + AcceptTimes(l, After(l, g, calls[0]), calls[1..])
  }

  /** The clock never runs backwards, starting from `since`. */
  predicate ClockFrom(since: nat, calls: seq<Call>)
    decreases |calls|
  {
    calls == [] ||
    match calls[0]
    case Ask(_, _, now) => since <= now && ClockFrom(now, calls[1..])
    case Filled(_) => ClockFrom(since, calls[1..])
  }

  // ---- what the gate answers ---------------------------------------------------------

  /** Which check answers, in the order of the checks, and what each answer counts.
      For an arrival time: the order waits until `max(burst, 1)` intervals before it. */
  lemma GateAnswers(l: Limits, g: Gate, o: OrderRequest, kill: bool, now: nat)
    requires g.limiter.Gcra?
    ensures var fits := 1 <= o.size <= l.maxOrderSize;
            var after := if o.side == BUY then g.position + o.size else g.position - o.size;
            var inside := -l.maxPosition <= after <= l.maxPosition;
            var t := l.cyclesPerToken;
            var due := t == 0 || g.limiter.tat <= now + (if l.burst > 1 then l.burst else 1) * t;
            var h := Check(l, g, o, kill, now);
            && h.position == g.position
            && h.rejKill == g.rejKill + (if kill then 1 else 0)
            && h.rejSize == g.rejSize + (if !kill && !fits then 1 else 0)
            && h.rejPos == g.rejPos + (if !kill && fits && !inside then 1 else 0)
            && h.rejRate == g.rejRate + (if !kill && fits && inside && !due then 1 else 0)
            && h.accepted == g.accepted + (if !kill && fits && inside && due then 1 else 0)
            && (Judge(l, g, o, kill, now) == Accept <==> !kill && fits && inside && due)
            && h.limiter == if kill || !fits || !inside || !due || t == 0 then g.limiter
                            else Gcra((if now > g.limiter.tat then now else g.limiter.tat) + t)
  {
    var t := l.cyclesPerToken;
    assert Tau(l) == (if l.burst > 1 then l.burst else 1) * t;
  }

  function Killed(calls: seq<Call>): nat {
    if calls == [] then 0 else (if calls[0].Ask? && calls[0].kill then 1 else 0) + Killed(calls[1..])
  }

  /** The calls of a run without the orders asked while the kill switch was set. */
  function WithoutKilled(calls: seq<Call>): seq<Call> {
    if calls == [] then []
    else (if calls[0].Ask? && calls[0].kill then [] else [calls[0]]) + WithoutKilled(calls[1..])
  }

  /** No order asked with the kill switch set is accepted, whatever its size, side and
      time: a run is as if those orders had not been asked, but for the count of them. */
  lemma {:induction false} KillSwitchStopsAll(l: Limits, g: Gate, calls: seq<Call>)
    ensures AcceptTimes(l, g, calls) == AcceptTimes(l, g, WithoutKilled(calls))
    ensures End(l, g, calls) == End(l, g, WithoutKilled(calls)).(rejKill := g.rejKill + Killed(calls))
    decreases |calls|
  {
    if calls == [] { return; }
    var c, rest := calls[0], WithoutKilled(calls[1..]);
    var h := After(l, g, c);
    KillSwitchStopsAll(l, h, calls[1..]);
    if c.Ask? && c.kill {
      assert WithoutKilled(calls) == rest;
      assert h == g.(rejKill := g.rejKill + 1);
      KillCountIsApart(l, g, h, rest);
    } else {
      assert WithoutKilled(calls) == [c] + rest && WithoutKilled(calls)[1..] == rest;
      assert h.rejKill == g.rejKill;
    }
  }

  /** The count of killed orders decides nothing. */
  lemma {:induction false} KillCountIsApart(l: Limits, g: Gate, h: Gate, calls: seq<Call>)
    requires h == g.(rejKill := h.rejKill)
    ensures AcceptTimes(l, g, calls) == AcceptTimes(l, h, calls)
    ensures End(l, h, calls) == End(l, g, calls).(rejKill := End(l, h, calls).rejKill)
    ensures End(l, h, calls).rejKill - h.rejKill == End(l, g, calls).rejKill - g.rejKill
    decreases |calls|
  {
    if calls != [] { KillCountIsApart(l, After(l, g, calls[0]), After(l, h, calls[0]), calls[1..]); }
  }

  // ---- GCRA against the token bucket ---------------------------------------------

  /** The two limiters agree at every time from `since` on. */
  predicate Agree(l: Limits, a: Limiter, b: Limiter, since: nat) {
    && a.Gcra? && b.Bucket? && b.asOf <= since
    && b.credit <= Depth(l)
    && b.credit == Depth(l) - Max(a.tat - b.asOf, 0)
  }

  lemma AgreeDecides(l: Limits, a: Limiter, b: Limiter, since: nat, now: nat)
    requires l.cyclesPerToken > 0 && Agree(l, a, b, since) && since <= now
    ensures HasToken(l, a, now) == HasToken(l, b, now)
    ensures HasToken(l, a, now) ==> Agree(l, TakeToken(l, a, now), TakeToken(l, b, now), now)
  {
  }

  /** On every run with a clock that does not go back, the gate with GCRA gives
      every order the verdict of the gate with the explicit bucket. */
  lemma {:induction false} GcraIsTokenBucket(l: Limits, g: Gate, h: Gate, since: nat, calls: seq<Call>)
    requires ClockFrom(since, calls)
    requires Agree(l, g.limiter, h.limiter, since) && g.position == h.position
    ensures Verdicts(l, g, calls) == Verdicts(l, h, calls)
    decreases |calls|
  {
    if calls != [] {
      var c := calls[0];
      var since' := if c.Ask? then c.now else since;
      if c.Ask? && l.cyclesPerToken > 0 { AgreeDecides(l, g.limiter, h.limiter, since, c.now); }
      GcraIsTokenBucket(l, After(l, g, c), After(l, h, c), since', calls[1..]);
    }
  }

  /** From start-up: the bucket begins full. */
  lemma StartsAsFullBucket(l: Limits, calls: seq<Call>)
    requires ClockFrom(0, calls)
    ensures Verdicts(l, START, calls) == Verdicts(l, START.(limiter := Bucket(Depth(l), 0)), calls)
  {
    GcraIsTokenBucket(l, START, START.(limiter := Bucket(Depth(l), 0)), 0, calls);
  }

  // ---- the rate bound --------------------------------------------------------------

  /** The k-th accept from here on waits for k tokens beyond the arrival time reached. */
  lemma {:induction false} AcceptsWait(l: Limits, g: Gate, calls: seq<Call>, k: nat)
    requires g.limiter.Gcra? && l.cyclesPerToken > 0
    requires k < |AcceptTimes(l, g, calls)|
    ensures g.limiter.tat + k * l.cyclesPerToken <= AcceptTimes(l, g, calls)[k] + Tau(l)
    decreases |calls|
  {
    var c := calls[0];
    if !Accepts(l, g, c) {
      AcceptsWait(l, After(l, g, c), calls[1..], k);
    } else if k > 0 {
      AcceptsWait(l, After(l, g, c), calls[1..], k - 1);
      assert k * l.cyclesPerToken == (k - 1) * l.cyclesPerToken + l.cyclesPerToken;
    }
  }

  /** In any run, whatever the clock does and whatever else is asked or filled in
      between, accepts i <= j are (j - i) token intervals apart, less the burst. */
  lemma {:induction false} RateBound(l: Limits, g: Gate, calls: seq<Call>, i: nat, j: nat)
    requires g.limiter.Gcra? && l.cyclesPerToken > 0
    requires i <= j < |AcceptTimes(l, g, calls)|
    ensures var t := AcceptTimes(l, g, calls);
            (j - i) * l.cyclesPerToken <= t[j] - t[i] + Burst(l) * l.cyclesPerToken
    decreases |calls|
  {
    if i < j {
      var c := calls[0];
      var g' := After(l, g, c);
      if !Accepts(l, g, c) {
        RateBound(l, g', calls[1..], i, j);
      } else if i > 0 {
        RateBound(l, g', calls[1..], i - 1, j - 1);
      } else {
        AcceptsWait(l, g', calls[1..], j - 1);
        assert j * l.cyclesPerToken == (j - 1) * l.cyclesPerToken + l.cyclesPerToken;
      }
    }
  }

  function End(l: Limits, g: Gate, calls: seq<Call>): Gate
    decreases |calls|
  {
    if calls == [] then g else End(l, After(l, g, calls[0]), calls[1..])
  }

  /** The live part of the state: what later verdicts depend on. */
  function Core(g: Gate): (int, Limiter) { (g.position, g.limiter) }

  /** The calls of a run without those that were rejected. */
  function WithoutRejected(l: Limits, g: Gate, calls: seq<Call>): seq<Call>
    decreases |calls|
  {
    if calls == [] then []
    else
      (if calls[0].Filled? || Accepts(l, g, calls[0]) then [calls[0]] else [])
      + WithoutRejected(l, After(l, g, calls[0]), calls[1..])
  }

  /** Rejected orders cost nothing: taking them out of a run leaves every
      accept, and the limiter and position at the end, as they were. */
  lemma {:induction false} RejectedOrdersAreFree(l: Limits, g: Gate, h: Gate, calls: seq<Call>)
    requires Core(g) == Core(h)
    ensures var kept := WithoutRejected(l, g, calls);
            && AcceptTimes(l, h, kept) == AcceptTimes(l, g, calls)
            && (forall v :: v in Verdicts(l, h, kept) ==> v == Accept)
            && Core(End(l, h, kept)) == Core(End(l, g, calls))
    decreases |calls|
  {
    if calls != [] {
      var c := calls[0];
      var rest := WithoutRejected(l, After(l, g, c), calls[1..]);
      if c.Filled? || Accepts(l, g, c) {
        RejectedOrdersAreFree(l, After(l, g, c), After(l, h, c), calls[1..]);
        assert WithoutRejected(l, g, calls)[1..] == rest;
      } else {
        RejectedOrdersAreFree(l, After(l, g, c), h, calls[1..]);
        assert WithoutRejected(l, g, calls) == rest;
      }
    }
  }

  // ---- bursts ------------------------------------------------------------------------

  function Repeat(o: OrderRequest, now: nat, n: nat): seq<Call> {
    if n == 0 then [] else [Ask(o, false, now)] + Repeat(o, now, n - 1)
  }

  lemma {:induction false} BurstFrom(l: Limits, g: Gate, o: OrderRequest, now: nat, used: nat, n: nat)
    requires l.cyclesPerToken > 0 && 0 < o.size <= l.maxOrderSize
    requires WithinPosition(l, g.position + Signed(o.side, o.size))
    requires g.limiter.Gcra? && used <= Burst(l) + 1
    requires if used == 0 then g.limiter.tat <= now else g.limiter.tat == now + used * l.cyclesPerToken
    ensures |AcceptTimes(l, g, Repeat(o, now, n))| ==
            if n < Burst(l) + 1 - used then n else Burst(l) + 1 - used
    decreases n
  {
    if n > 0 {
      var c := Ask(o, false, now);
      assert Repeat(o, now, n)[1..] == Repeat(o, now, n - 1);
      TokensUsed(l, used);
      BurstFrom(l, After(l, g, c), o, now, if used <= Burst(l) then used + 1 else used, n - 1);
    }
  }

  lemma TokensUsed(l: Limits, used: nat)
    requires used <= Burst(l) + 1
    ensures (used + 1) * l.cyclesPerToken == used * l.cyclesPerToken + l.cyclesPerToken
    ensures used <= Burst(l) ==> used * l.cyclesPerToken <= Tau(l)
    ensures used == Burst(l) + 1 ==> used * l.cyclesPerToken == Tau(l) + l.cyclesPerToken
  {
    assert (Burst(l) - used) * l.cyclesPerToken == Tau(l) - used * l.cyclesPerToken;
  }

  /** A rested limiter lets exactly Burst + 1 of n simultaneous orders through,
      one more than the configured depth. */
  lemma BurstAdmitsOneMore(l: Limits, g: Gate, o: OrderRequest, now: nat, n: nat)
    requires l.cyclesPerToken > 0 && 0 < o.size <= l.maxOrderSize
    requires WithinPosition(l, g.position + Signed(o.side, o.size))
    requires g.limiter.Gcra? && g.limiter.tat <= now
    ensures |AcceptTimes(l, g, Repeat(o, now, n))| == if n < Burst(l) + 1 then n else Burst(l) + 1
  {
    BurstFrom(l, g, o, now, 0, n);
  }

  /** Consecutive orders at least one token interval apart, the first not before `since`. */
  predicate Spaced(l: Limits, since: nat, calls: seq<Call>)
    decreases |calls|
  {
    calls == [] ||
    match calls[0]
    case Ask(_, _, now) => since <= now && Spaced(l, now + l.cyclesPerToken, calls[1..])
    case Filled(_) => Spaced(l, since, calls[1..])
  }

  /** A sender that keeps to the token interval is never rejected for rate. */
  lemma {:induction false} SpacedSenderNeverLimited(l: Limits, g: Gate, since: nat, calls: seq<Call>)
    requires g.limiter.Gcra? && g.limiter.tat <= since && Spaced(l, since, calls)
    ensures RateLimit !in Verdicts(l, g, calls)
    decreases |calls|
  {
    if calls != [] {
      var c := calls[0];
      SpacedSenderNeverLimited(l, After(l, g, c),
        if c.Ask? then c.now + l.cyclesPerToken else since, calls[1..]);
    }
  }

  // ---- orders that are out -----------------------------------------------------------

  function Bought(os: seq<OrderRequest>): nat {
    if os == [] then 0 else (if os[0].side == BUY then os[0].size else 0) + Bought(os[1..])
  }

  function Sold(os: seq<OrderRequest>): nat {
    if os == [] then 0 else (if os[0].side == BUY then 0 else os[0].size) + Sold(os[1..])
  }

  /** A fill of part of an order that is out, or of all of it. */
  datatype Part = Part(k: nat, size: U32)

  predicate Possible(os: seq<OrderRequest>, f: Part) { f.k < |os| && f.size <= os[f.k].size }

  /** What is left out after it. */
  function Unfilled(os: seq<OrderRequest>, f: Part): (rest: seq<OrderRequest>)
    requires Possible(os, f)
    ensures |rest| == |os|
  {
    os[f.k := os[f.k].(size := os[f.k].size - f.size)]
  }

  function FillOf(o: OrderRequest, size: U32): ExecReport {
    ExecReport(o.orderId, o.mdTimestamp, o.price, o.symbol, size, o.side, STATUS_FILLED)
  }

  /** `fs` fills some of the orders that are out, each in any number of parts and
      never beyond its size, in any order. */
  predicate Fillable(os: seq<OrderRequest>, fs: seq<Part>)
    decreases |fs|
  {
    fs == [] || (Possible(os, fs[0]) && Fillable(Unfilled(os, fs[0]), fs[1..]))
  }

  function FillCalls(os: seq<OrderRequest>, fs: seq<Part>): seq<Call>
    requires Fillable(os, fs)
    decreases |fs|
  {
    if fs == [] then [] else [Filled(FillOf(os[fs[0].k], fs[0].size))] + FillCalls(Unfilled(os, fs[0]), fs[1..])
  }

  /** Whatever of the orders fills, in whatever parts and order, the position stays
      inside the limit.  Since a schedule may stop anywhere, this holds at every moment. */
  ghost predicate AnyFillsFit(l: Limits, g: Gate, os: seq<OrderRequest>) {
    forall fs :: Fillable(os, fs) ==> WithinPosition(l, End(l, g, FillCalls(os, fs)).position)
  }

  /** The two extremes: all buys filled and no sell, all sells filled and no buy. */
  predicate ExtremesFit(l: Limits, position: int, os: seq<OrderRequest>) {
    position + Bought(os) <= l.maxPosition && -l.maxPosition <= position - Sold(os)
  }

  lemma {:induction false} TotalsAfter(os: seq<OrderRequest>, f: Part)
    requires Possible(os, f)
    ensures Bought(os) == Bought(Unfilled(os, f)) + if os[f.k].side == BUY then f.size else 0
    ensures Sold(os) == Sold(Unfilled(os, f)) + if os[f.k].side == BUY then 0 else f.size
    decreases f.k
  {
    if f.k == 0 {
      assert Unfilled(os, f)[1..] == os[1..];
    } else {
      var g := Part(f.k - 1, f.size);
      TotalsAfter(os[1..], g);
      assert Unfilled(os, f)[1..] == Unfilled(os[1..], g);
    }
  }

  /** Filling any schedule stays between the extremes. */
  lemma {:induction false} FillsStayBetween(l: Limits, g: Gate, os: seq<OrderRequest>, fs: seq<Part>)
    requires Fillable(os, fs)
    ensures g.position - Sold(os) <= End(l, g, FillCalls(os, fs)).position <= g.position + Bought(os)
    decreases |fs|
  {
    if fs != [] {
      var c := Filled(FillOf(os[fs[0].k], fs[0].size));
      TotalsAfter(os, fs[0]);
      FillsStayBetween(l, After(l, g, c), Unfilled(os, fs[0]), fs[1..]);
      assert FillCalls(os, fs)[1..] == FillCalls(Unfilled(os, fs[0]), fs[1..]);
    }
  }

  function Later(fs: seq<Part>): seq<Part> {
    seq(|fs|, i requires 0 <= i < |fs| => Part(fs[i].k + 1, fs[i].size))
  }

  /** A schedule for the orders behind the first one is a schedule with the first one left alone. */
  lemma {:induction false} LeaveFirst(os: seq<OrderRequest>, fs: seq<Part>)
    requires os != [] && Fillable(os[1..], fs)
    ensures Fillable(os, Later(fs)) && FillCalls(os, Later(fs)) == FillCalls(os[1..], fs)
    decreases |fs|
  {
    if fs != [] {
      var left := Unfilled(os, Later(fs)[0]);
      assert left[1..] == Unfilled(os[1..], fs[0]);
      LeaveFirst(left, fs[1..]);
      assert Later(fs)[1..] == Later(fs[1..]);
    }
  }

  /** Each extreme is reached by a schedule of whole fills. */
  lemma {:induction false} ExtremeReached(l: Limits, g: Gate, os: seq<OrderRequest>, buys: bool) returns (fs: seq<Part>)
    ensures Fillable(os, fs)
    ensures End(l, g, FillCalls(os, fs)).position == if buys then g.position + Bought(os) else g.position - Sold(os)
    decreases |os|
  {
    if os == [] {
      fs := [];
    } else if (os[0].side == BUY) == buys {
      var f := Part(0, os[0].size);
      var c := Filled(FillOf(os[0], os[0].size));
      var rest := ExtremeReached(l, After(l, g, c), os[1..], buys);
      var left := Unfilled(os, f);
      assert left[1..] == os[1..];
      LeaveFirst(left, rest);
      fs := [f] + Later(rest);
      assert fs[1..] == Later(rest);
      assert FillCalls(os, fs)[1..] == FillCalls(left, Later(rest));
    } else {
      var rest := ExtremeReached(l, g, os[1..], buys);
      LeaveFirst(os, rest);
      fs := Later(rest);
    }
  }

  /** The position limit survives whatever fills of the orders that are out if and
      only if both extremes are inside it. */
  lemma LimitHoldsIff(l: Limits, g: Gate, os: seq<OrderRequest>)
    ensures AnyFillsFit(l, g, os) <==> ExtremesFit(l, g.position, os)
  {
    var high := ExtremeReached(l, g, os, true);
    var low := ExtremeReached(l, g, os, false);
    if ExtremesFit(l, g.position, os) {
      forall fs | Fillable(os, fs) ensures WithinPosition(l, End(l, g, FillCalls(os, fs)).position) {
        FillsStayBetween(l, g, os, fs);
      }
    }
  }

  function Asks(os: seq<OrderRequest>, times: seq<nat>): seq<Call>
    requires |times| == |os|
  {
    seq(|os|, i requires 0 <= i < |os| => Ask(os[i], false, times[i]))
  }

  /** Asking moves no position. */
  lemma {:induction false} AskingKeepsPosition(l: Limits, g: Gate, os: seq<OrderRequest>, times: seq<nat>)
    requires |times| == |os|
    ensures End(l, g, Asks(os, times)).position == g.position
    decreases |os|
  {
    if os != [] {
      AskingKeepsPosition(l, After(l, g, Ask(os[0], false, times[0])), os[1..], times[1..]);
      assert Asks(os, times)[1..] == Asks(os[1..], times[1..]);
    }
  }

  /** Orders the gate has accepted one after the other, with no fill in between:
      the limit then holds over all their fills exactly under the same condition
      on the position before the first of them. */
  lemma AcceptedOrdersFitIff(l: Limits, g: Gate, os: seq<OrderRequest>, times: seq<nat>)
    requires |times| == |os| && forall v :: v in Verdicts(l, g, Asks(os, times)) ==> v == Accept
    ensures AnyFillsFit(l, End(l, g, Asks(os, times)), os) <==> ExtremesFit(l, g.position, os)
  {
    AskingKeepsPosition(l, g, os, times);
    LimitHoldsIff(l, End(l, g, Asks(os, times)), os);
  }

  /** One order: from a position inside the limit, acceptance alone is enough
      when nothing else is out. */
  lemma AcceptanceIsEnoughAlone(l: Limits, g: Gate, o: OrderRequest, now: nat)
    requires WithinPosition(l, g.position) && Accepts(l, g, Ask(o, false, now))
    ensures AnyFillsFit(l, After(l, g, Ask(o, false, now)), [o])
  {
    ReservingTestIff(l, g.position, [], o);
    assert [] + [o] == [o];
    LimitHoldsIff(l, After(l, g, Ask(o, false, now)), [o]);
  }

  /** A fill uses up its own reservation, so the condition lasts until the next order. */
  lemma FillKeepsExtremes(l: Limits, position: int, os: seq<OrderRequest>, f: Part)
    requires Possible(os, f) && ExtremesFit(l, position, os)
    ensures ExtremesFit(l, position + Signed(os[f.k].side, f.size), Unfilled(os, f))
  {
    TotalsAfter(os, f);
  }

  lemma {:induction false} TotalsAppend(os: seq<OrderRequest>, o: OrderRequest)
    ensures Bought(os + [o]) == Bought(os) + if o.side == BUY then o.size else 0
    ensures Sold(os + [o]) == Sold(os) + if o.side == BUY then 0 else o.size
  {
    if os == [] {
      assert os + [o] == [o] && [o][1..] == [];
    } else {
      assert (os + [o])[1..] == os[1..] + [o];
      TotalsAppend(os[1..], o);
    }
  }

  /** What the gate would have to test of an order while others are out: with its
      own test taken from the extreme on the order's side, the limit holds on. */
  lemma ReservingTestIff(l: Limits, position: int, os: seq<OrderRequest>, o: OrderRequest)
    requires ExtremesFit(l, position, os)
    ensures ExtremesFit(l, position, os + [o]) <==>
            WithinPosition(l, (if o.side == BUY then position + Bought(os) else position - Sold(os))
                              + Signed(o.side, o.size))
  {
    TotalsAppend(os, o);
  }

  /** The gate reserves nothing for orders already out: two accepted orders of
      the full limit fill to twice the limit. */
  lemma OutstandingOrderEscapesLimit(size: U32) returns (l: Limits, calls: seq<Call>)
    requires size > 0
    ensures Verdicts(l, START, calls) == [Accept, Accept]
    ensures |calls| == 4 && l.maxPosition == size
    ensures After(l, After(l, After(l, After(l, START, calls[0]), calls[1]), calls[2]), calls[3]).position
            == 2 * l.maxPosition
  {
    l := Limits(size, size, 0, 0);
    var o := OrderRequest(1, 0, 0, 0, size, BUY, ACTION_NEW);
    var r := ExecReport(1, 0, 0, 0, size, BUY, STATUS_FILLED);
    calls := [Ask(o, false, 0), Ask(o.(orderId := 2), false, 0), Filled(r), Filled(r.(orderId := 2))];
    var g1 := After(l, START, calls[0]);
    var g2 := After(l, g1, calls[1]);
    assert Verdicts(l, g2, calls[2..]) == [] by {
      assert Verdicts(l, After(l, g2, calls[2]), calls[3..]) == [];
    }
    assert Verdicts(l, g1, calls[1..]) == [Accept] + Verdicts(l, g2, calls[2..]);
  }
}

/** The gate as the object the gateway owns. */
module RiskGate {
  import opened Messages
  import opened RiskSpec

  class RiskGate {
    const l: Limits
    var position: int
    var tat: nat
    var accepted: nat
    var rejKill: nat
    var rejSize: nat
    var rejPos: nat
    var rejRate: nat

    ghost function View(): Gate
      reads this
    {
      Gate(position, Gcra(tat), accepted, rejKill, rejSize, rejPos, rejRate)
    }

    constructor (l: Limits)
      ensures View() == START && this.l == l
    {
      this.l := l;
      position, tat, accepted, rejKill, rejSize, rejPos, rejRate := 0, 0, 0, 0, 0, 0, 0;
    }

    method Check(o: OrderRequest, kill: bool, now: nat) returns (v: Verdict)
      modifies this
      ensures v == Judge(l, old(View()), o, kill, now)
      ensures View() == RiskSpec.Check(l, old(View()), o, kill, now)
      ensures kill ==> v == KillSwitch && View() == old(View()).(rejKill := old(rejKill) + 1)
    {
      if kill {
        rejKill := rejKill + 1;
        return KillSwitch;
      }
      if o.size == 0 || o.size > l.maxOrderSize {
        rejSize := rejSize + 1;
        return SizeLimit;
      }
      var signedSize := if o.side == BUY then o.size as int else -(o.size as int);
      var projected := position + signedSize;
      if projected > l.maxPosition || projected < -l.maxPosition {
        rejPos := rejPos + 1;
        return PositionLimit;
      }
      if l.cyclesPerToken != 0 {
        var tau := l.cyclesPerToken * (if l.burst != 0 then l.burst else 1);
        var earliest := if tat > tau then tat - tau else 0;
        if now < earliest {
          rejRate := rejRate + 1;
          return RateLimit;
        }
        tat := (if now > tat then now else tat) + l.cyclesPerToken;
      }
      accepted := accepted + 1;
      return Accept;
    }

    method OnFill(r: ExecReport)
      modifies this
      ensures View() == RiskSpec.OnFill(old(View()), r)
    {
      if r.side == BUY {
        position := position + r.fillSize;
      } else {
        position := position - r.fillSize;
      }
    }
  }
}
