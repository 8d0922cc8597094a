/** Unsigned bit arithmetic on unbounded naturals: powers of two, masks, the
    highest set bit.  The shifts of the C++ source are `* Pow2(n)` and
    `/ Pow2(n)`; its `&` and `|` are the bitwise functions below. */
module Bits {

  function Pow2(k: nat): (p: nat)
    ensures p >= 1
  {
    if k == 0 then 1 else 2 * Pow2(k - 1)
  }

  function BitAnd(a: nat, b: nat): nat {
    if a == 0 || b == 0 then 0 else (a % 2) * (b % 2) + 2 * BitAnd(a / 2, b / 2)
  }

  function BitOr(a: nat, b: nat): nat {
    if a == 0 then b else if b == 0 then a
    else (if a % 2 == 1 || b % 2 == 1 then 1 else 0) + 2 * BitOr(a / 2, b / 2)
  }

  /** Position of the highest set bit. */
  function Log2(x: nat): nat
    requires x > 0
  {
    if x == 1 then 0 else 1 + Log2(x / 2)
  }

  /** Shifting right, one bit at a time. */
  function Shr(x: nat, n: nat): nat
    decreases n
  {
    if n == 0 then x else Shr(x / 2, n - 1)
  }

  /** The bits shifted out are a remainder below 2^n. */
  lemma {:induction false} ShrBounds(x: nat, n: nat)
    ensures Shr(x, n) * Pow2(n) <= x < Shr(x, n) * Pow2(n) + Pow2(n)
    decreases n
  {
    if n > 0 {
      ShrBounds(x / 2, n - 1);
      ShrStep(x, Shr(x, n), Pow2(n - 1));
    }
  }

  lemma ShrStep(x: nat, q: nat, m: nat)
    requires q * m <= x / 2 < q * m + m
    ensures q * (2 * m) <= x < q * (2 * m) + 2 * m
  {
    assert q * (2 * m) == 2 * (q * m);
  }

  lemma DivModUnique(x: nat, m: nat, q: nat, r: nat)
    requires r < m && x == m * q + r
    ensures x / m == q && x % m == r
  {
    var dq := x / m - q;
    assert m * dq == r - x % m;
  }

  lemma MulMonotone(a: nat, b: nat, c: nat)
    requires a <= b
    ensures a * c <= b * c
  {
    assert (b - a) * c >= 0;
  }

  lemma ShrInterval(v: nat, n: nat, lo: nat, hi: nat)
    requires lo * Pow2(n) <= v < hi * Pow2(n)
    ensures lo <= Shr(v, n) < hi
  {
    ShrBounds(v, n);
    Between(Shr(v, n), Pow2(n), v, lo, hi);
  }

  lemma Between(q: nat, unit: nat, v: nat, lo: nat, hi: nat)
    requires q * unit <= v < q * unit + unit && lo * unit <= v < hi * unit
    ensures lo <= q < hi
  {
    if q < lo { MulMonotone(q + 1, lo, unit); }
    if q >= hi { MulMonotone(hi, q, unit); }
  }

  lemma ModDouble(x: nat, m: nat)
    requires m > 0
    ensures x % (2 * m) == 2 * ((x / 2) % m) + x % 2
  {
    var q, s := x / 2 / m, (x / 2) % m;
    assert x / 2 == m * q + s;
    assert (2 * m) * q == 2 * (m * q);
    DivModUnique(x, 2 * m, q, 2 * s + x % 2);
  }

  lemma NearbyRemaindersDiffer(j: nat, k: nat, m: nat)
    requires j < k < j + m
    ensures j % m != k % m
  {
    if j % m == k % m {
      DivModUnique(k - j, m, 0, k - j);
      var d := k / m - j / m;
      assert m * d == k - j;
      if d > 0 { DivModUnique(k - j, m, d, 0); }
    }
  }

  lemma {:induction false} Pow2Add(a: nat, b: nat)
    ensures Pow2(a + b) == Pow2(a) * Pow2(b)
  {
    if a > 0 { Pow2Add(a - 1, b); }
  }

  lemma {:induction false} Pow2Monotone(a: nat, b: nat)
    requires a <= b
    ensures Pow2(a) <= Pow2(b)
    decreases b - a
  {
    if a < b { Pow2Monotone(a + 1, b); }
  }

  /** Masking with a power of two minus one is the remainder: the ring's
      `pos & kMask` and the gateway's `order_id & kMask`. */
  lemma {:induction false} MaskIsMod(x: nat, k: nat)
    ensures BitAnd(x, Pow2(k) - 1) == x % Pow2(k)
  {
    if k > 0 {
      MaskIsMod(x / 2, k - 1);
      MaskStep(x, Pow2(k - 1));
    }
  }

  lemma MaskStep(x: nat, m: nat)
    requires m > 0 && BitAnd(x / 2, m - 1) == (x / 2) % m
    ensures BitAnd(x, 2 * m - 1) == x % (2 * m)
  {
    ModDouble(x, m);
    LowBitOfMask(x, m);
  }

  lemma LowBitOfMask(x: nat, m: nat)
    requires m > 0
    ensures BitAnd(x, 2 * m - 1) == x % 2 + 2 * BitAnd(x / 2, m - 1)
  {
    assert (2 * m - 1) % 2 == 1 && (2 * m - 1) / 2 == m - 1;
  }

  lemma {:induction false} Log2Bounds(x: nat)
    requires x > 0
    ensures Pow2(Log2(x)) <= x < Pow2(Log2(x) + 1)
  {
    if x > 1 { Log2Bounds(x / 2); }
  }

  lemma {:induction false} Log2Unique(x: nat, k: nat)
    requires Pow2(k) <= x < Pow2(k + 1)
    ensures Log2(x) == k
  {
    if k > 0 { Log2Unique(x / 2, k - 1); }
  }

  /** Or-ing in the low mask moves the highest set bit to at least bit k - 1
      and leaves any higher one where it is. */
  lemma {:induction false} Log2OrMask(x: nat, k: nat)
    requires k > 0
    ensures BitOr(x, Pow2(k) - 1) > 0
    ensures Log2(BitOr(x, Pow2(k) - 1)) == if x < Pow2(k) then k - 1 else Log2(x)
  {
    if x == 0 {
      Log2Unique(Pow2(k) - 1, k - 1);
    } else if k > 1 {
      Log2OrMask(x / 2, k - 1);
      LogOrStep(x, Pow2(k - 1), k);
    } else {
      LogOrOne(x);
    }
  }

  lemma LogOrOne(x: nat)
    requires x > 0
    ensures BitOr(x, 1) > 0 && Log2(BitOr(x, 1)) == if x < 2 then 0 else Log2(x)
  {
    assert BitOr(x / 2, 0) == x / 2;
  }

  lemma LogOrStep(x: nat, m: nat, k: nat)
    requires x > 0 && m > 0 && k > 1 && BitOr(x / 2, m - 1) > 0
    requires Log2(BitOr(x / 2, m - 1)) == if x / 2 < m then k - 2 else Log2(x / 2)
    ensures BitOr(x, 2 * m - 1) > 0
    ensures Log2(BitOr(x, 2 * m - 1)) == if x < 2 * m then k - 1 else Log2(x)
  {
    LowBitOfOr(x, m);
    assert (1 + 2 * BitOr(x / 2, m - 1)) / 2 == BitOr(x / 2, m - 1);
  }

  lemma LowBitOfOr(x: nat, m: nat)
    requires x > 0 && m > 0
    ensures BitOr(x, 2 * m - 1) == 1 + 2 * BitOr(x / 2, m - 1)
  {
    assert (2 * m - 1) % 2 == 1 && (2 * m - 1) / 2 == m - 1;
  }

  lemma {:induction false} Doubled(k: nat)
    ensures Pow2(2 * k) == Pow2(k) * Pow2(k)
  {
    Pow2Add(k, k);
  }

  lemma Widths()
    ensures Pow2(16) == 0x1_0000 && Pow2(17) == 0x2_0000 && Pow2(32) == 0x1_0000_0000
    ensures Pow2(48) == 0x1_0000_0000_0000 && Pow2(64) == 0x1_0000_0000_0000_0000
  {
    assert Pow2(8) == 256;
    Doubled(8);
    Doubled(16);
    Doubled(32);
    Pow2Add(16, 32);
    Pow2Add(1, 16);
  }
}
