/** Confinement of the grinding kernel's nonce runs to a pool's sub-range (src/pom_gpu.rs:217-233,
src/miner.rs:463-468). */
module Nonces {
  import opened Halving

  // ---------------------------------------------------------------- bitwise operations

  function And(x: nat, y: nat): nat
    decreases x
  {
    if x == 0 then 0 else x % 2 * (y % 2) + 2 * And(x / 2, y / 2)
  }

  function Or(x: nat, y: nat): nat
    decreases x + y
  {
    if x == 0 then y else (if x % 2 == 1 || y % 2 == 1 then 1 else 0) + 2 * Or(x / 2, y / 2)
  }

  /** Complement of an `n`-bit number. */
  function Not(x: nat, n: nat): nat
    requires x < Pow2(n)
  {
    Pow2(n) - 1 - x
  }

  /** The mask of the `k` low of `n` bits. */
  function LowMask(k: nat, n: nat): (m: nat)
    requires k <= n
    ensures m == Pow2(k) - 1 && m < Pow2(n)
  {
    Pow2Monotone(k, n);
    Pow2(k) - 1
  }

  lemma {:induction false} Pow2Divides(k: nat, n: nat)
    requires k <= n
    ensures Pow2(n) % Pow2(k) == 0
  {
    if k > 0 {
      Pow2Divides(k - 1, n - 1);
      HalfMod(Pow2(n), Pow2(k - 1));
    }
  }

  lemma {:induction false} HalfMod(x: nat, q: nat)
    requires q > 0
    ensures x % (2 * q) == x % 2 + 2 * ((x / 2) % q)
  {
    var h, r := x / 2 / q, (x / 2) % q;
    assert x / 2 == q * h + r;
    DivUnique(x, 2 * q, h, x % 2 + 2 * r);
  }

  lemma {:induction false} AndStep(x: nat, m: nat)
    ensures m % 2 == 1 ==> And(x, m) == x % 2 + 2 * And(x / 2, m / 2)
    ensures m % 2 == 0 ==> And(x, m) == 2 * And(x / 2, m / 2)
  {
  }

  lemma {:induction false} AndZero(x: nat)
    ensures And(x, 0) == 0
  {
    if x > 0 {
      AndZero(x / 2);
    }
  }

  lemma {:induction false} AndLowMask(x: nat, k: nat, m: nat)
    requires m + 1 == Pow2(k)
    ensures And(x, m) == x % (m + 1)
    decreases k
  {
    if k == 0 {
      AndZero(x);
    } else {
      var q := m / 2;
      AndStep(x, m);
      AndLowMask(x / 2, k - 1, q);
      HalfMod(x, q + 1);
      assert m + 1 == 2 * (q + 1);
    }
  }

  /** Masking with all but the `k` low of `n` bits clears exactly the `k` low ones. */
  lemma {:induction false} AndHighMask(x: nat, k: nat, n: nat, m: nat)
    requires k <= n && x < Pow2(n) && m + Pow2(k) == Pow2(n)
    ensures And(x, m) == x - x % Pow2(k)
    decreases n
  {
    if k == 0 {
      AndLowMask(x, n, m);
      AllBits(x, Pow2(n));
    } else {
      var p, q := Pow2(n - 1), Pow2(k - 1);
      assert m / 2 == p - q && m % 2 == 0;
      AndStep(x, m);
      AndHighMask(x / 2, k - 1, n - 1, m / 2);
      HalfMod(x, q);
    }
  }

  lemma {:induction false} AllBits(x: nat, p: nat)
    requires x < p
    ensures x % p == x && x % 1 == 0
  {
  }

  /** A part below `2^k` and a multiple of `2^k` share no bit. */
  lemma {:induction false} OrDisjoint(low: nat, high: nat, k: nat)
    requires low < Pow2(k) && high % Pow2(k) == 0
    ensures Or(low, high) == low + high
    decreases k
  {
    if low > 0 {
      HalfMod(high, Pow2(k - 1));
      OrDisjoint(low / 2, high / 2, k - 1);
    }
  }

  // ---------------------------------------------------------------- sub-ranges

  /** Start of the aligned block of `p` nonces that holds `x`. */
  function Base(x: nat, p: nat): (b: nat)
    requires p > 0
    ensures b <= x < b + p && b % p == 0
  {
    BaseAligned(x, p);
    x - x % p
  }

  lemma {:induction false} BaseAligned(x: nat, p: nat)
    requires p > 0
    ensures x % p <= x && (x - x % p) % p == 0
  {
    var c := x / p;
    assert x == p * c + x % p;
    MulMonotone(0, c, p);
    DivUnique(p * c, p, c, 0);
  }

  lemma {:induction false} MultiplesApart(a: nat, b: nat, p: nat)
    requires p > 0 && a % p == 0 && b % p == 0 && a < b
    ensures a + p <= b
  {
    var c, d := a / p, b / p;
    assert a == p * c && b == p * d;
    MulMonotone(d, c, p);
    MulMonotone(c + 1, d, p);
    MulSucc(c, p);
  }

  lemma {:induction false} NextAligned(b: nat, p: nat)
    requires p > 0 && b % p == 0
    ensures (b + p) % p == 0
  {
    var c := b / p;
    assert b == p * c;
    MulSucc(c, p);
    DivUnique(b + p, p, c + 1, 0);
  }

  lemma {:induction false} BaseUnique(x: nat, b: nat, p: nat)
    requires p > 0 && b % p == 0 && b <= x < b + p
    ensures Base(x, p) == b && x % p == x - b
  {
    if Base(x, p) < b {
      MultiplesApart(Base(x, p), b, p);
    } else if b < Base(x, p) {
      MultiplesApart(b, Base(x, p), p);
    }
  }

  /** The bits of `x` the pool prescribes when the `k` low of `n` bits are free. */
  function PoolBits(x: nat, k: nat, n: nat): (b: nat)
    requires x < Pow2(n) && k <= n
    ensures b == Base(x, Pow2(k))
  {
    AndHighMask(x, k, n, Not(LowMask(k, n), n));
    And(x, Not(LowMask(k, n), n))
  }

  // ---------------------------------------------------------------- the start of a batch

  /** `pom_batch_start`, bit for bit, on words of `n` bits. */
  function BatchStart(cursor: nat, batch: nat, mask: nat, fixed: nat, n: nat): nat
    requires cursor < Pow2(n) && mask < Pow2(n) && fixed < Pow2(n)
  {
    if mask == Pow2(n) - 1 then cursor
    else
      var free := And(cursor, mask);
      var last := mask - (if batch > 0 then batch - 1 else 0);
      var confined := if last < 0 || free > last then 0 else free;
      Or(confined, And(fixed, Not(mask, n)))
  }

  /** The start in numbers: the sub-range's base, plus the cursor's free bits when the batch still fits. */
  lemma {:induction false} BatchStartValue(cursor: nat, batch: nat, k: nat, fixed: nat, n: nat)
    requires cursor < Pow2(n) && fixed < Pow2(n) && k < n
    ensures
      var p := Pow2(k);
      var free := cursor % p;
      BatchStart(cursor, batch, LowMask(k, n), fixed, n)
      == Base(fixed, p) + if batch > 0 && free + batch > p then 0 else free
  {
    Pow2Monotone(k + 1, n);
    var p := Pow2(k);
    var free := cursor % p;
    AndLowMask(cursor, k, p - 1);
    assert And(fixed, Not(LowMask(k, n), n)) == PoolBits(fixed, k, n);
    var confined := if batch > 0 && free + batch > p then 0 else free;
    assert Or(confined, PoolBits(fixed, k, n)) == confined + PoolBits(fixed, k, n) by {
      OrDisjoint(confined, PoolBits(fixed, k, n), k);
    }
  }

  /** Nonce `t` of the kernel's run from `start`. */
  function NonceAt(start: nat, t: nat, n: nat): (x: nat)
    ensures x < Pow2(n)
  {
    (start + t) % Pow2(n)
  }

  /** Every nonce of the run carries the pool's bits. */
  ghost predicate Confined(start: nat, batch: nat, fixed: nat, k: nat, n: nat)
    requires fixed < Pow2(n) && k <= n
  {
    forall t: nat | t < batch :: PoolBits(NonceAt(start, t, n), k, n) == PoolBits(fixed, k, n)
  }

  /** A whole sub-range lies within the word. */
  lemma {:induction false} RangeFits(fixed: nat, k: nat, n: nat)
    requires fixed < Pow2(n) && k <= n
    ensures Base(fixed, Pow2(k)) + Pow2(k) <= Pow2(n)
  {
    Pow2Divides(k, n);
    MultiplesApart(Base(fixed, Pow2(k)), Pow2(n), Pow2(k));
  }

  lemma {:induction false} NonceInside(start: nat, t: nat, fixed: nat, k: nat, n: nat)
    requires fixed < Pow2(n) && k <= n
    requires Base(fixed, Pow2(k)) <= start && start + t < Base(fixed, Pow2(k)) + Pow2(k)
    ensures NonceAt(start, t, n) == start + t && PoolBits(NonceAt(start, t, n), k, n) == PoolBits(fixed, k, n)
  {
    RangeFits(fixed, k, n);
    var x, b, p := start + t, Base(fixed, Pow2(k)), Pow2(k);
    BaseUnique(x, b, p);
    assert NonceAt(start, t, n) == x by { AllBits(x, Pow2(n)); }
  }

  /** The nonce just past the sub-range begins another one, also when it wraps to zero. */
  lemma {:induction false} NoncePast(start: nat, t: nat, fixed: nat, k: nat, n: nat)
    requires fixed < Pow2(n) && k < n && start + t == Base(fixed, Pow2(k)) + Pow2(k)
    ensures NonceAt(start, t, n) % Pow2(k) == 0
    ensures PoolBits(NonceAt(start, t, n), k, n) != PoolBits(fixed, k, n)
  {
    Pow2Monotone(k + 1, n);
    RangeFits(fixed, k, n);
    PastAligned(start + t, Base(fixed, Pow2(k)), Pow2(k), Pow2(n));
  }

  lemma {:induction false} PastAligned(x: nat, b: nat, p: nat, limit: nat)
    requires 0 < p < limit && b % p == 0 && x == b + p <= limit
    ensures (x % limit) % p == 0 && Base(x % limit, p) != b
  {
    if x < limit {
      AllBits(x, limit);
      NextAligned(b, p);
      BaseUnique(x, x, p);
    } else {
      FullTurn(limit);
      AllBits(0, p);
      BaseUnique(0, 0, p);
    }
  }

  lemma {:induction false} FullTurn(limit: nat)
    requires limit > 0
    ensures limit % limit == 0
  {
  }

  /** Every nonce of a batch carries the pool's bits exactly when the batch fits the sub-range. */
  lemma {:induction false} ConfinedIffFits(cursor: nat, batch: nat, k: nat, fixed: nat, n: nat)
    requires cursor < Pow2(n) && fixed < Pow2(n) && k < n
    ensures Confined(BatchStart(cursor, batch, LowMask(k, n), fixed, n), batch, fixed, k, n) <==> batch <= Pow2(k)
  {
    BatchStartValue(cursor, batch, k, fixed, n);
    var start := BatchStart(cursor, batch, LowMask(k, n), fixed, n);
    if batch <= Pow2(k) {
      FitsConfined(start, batch, k, fixed, n);
    } else {
      NoncePast(start, Pow2(k), fixed, k, n);
    }
  }

  lemma {:induction false} FitsConfined(start: nat, batch: nat, k: nat, fixed: nat, n: nat)
    requires fixed < Pow2(n) && k <= n
    requires Base(fixed, Pow2(k)) <= start && start + batch <= Base(fixed, Pow2(k)) + Pow2(k)
    ensures Confined(start, batch, fixed, k, n)
  {
    forall t: nat | t < batch ensures PoolBits(NonceAt(start, t, n), k, n) == PoolBits(fixed, k, n) {
      NonceInside(start, t, fixed, k, n);
    }
  }

  // ---------------------------------------------------------------- a run of batches

  /** The miner's loop: its nonce cursor, its job's extranonce, and a constant batch. */
  datatype Grind = Grind(cursor: nat, batch: nat, k: nat, fixed: nat, n: nat)

  /** Words of `n` bits of which the `k` low ones are free. */
  predicate Words(g: Grind) {
    g.cursor < Pow2(g.n) && g.fixed < Pow2(g.n) && g.k <= g.n
  }

  /** Cursor before batch `i`: just past the batch before it, modulo the word. */
  ghost function Cursor(g: Grind, i: nat): (at: nat)
    requires Words(g)
    ensures at < Pow2(g.n)
    decreases i, 0
  {
    if i == 0 then g.cursor else NonceAt(Start(g, i - 1), g.batch, g.n)
  }

  /** Start of batch `i`. */
  ghost function Start(g: Grind, i: nat): nat
    requires Words(g)
    decreases i, 1
  {
    BatchStart(Cursor(g, i), g.batch, LowMask(g.k, g.n), g.fixed, g.n)
  }

  /** Over a whole run every nonce of every batch is inside the sub-range, and each batch starts right
  after the previous one if it still fits there, else back at the beginning of the sub-range. */
  lemma {:induction false} RunConfined(g: Grind, i: nat)
    requires Words(g) && g.k < g.n && g.batch <= Pow2(g.k)
    ensures Confined(Start(g, i), g.batch, g.fixed, g.k, g.n)
    ensures var first, next := PoolBits(g.fixed, g.k, g.n), Start(g, i) + g.batch;
      Start(g, i + 1) == if next < first + Pow2(g.k) && next + g.batch <= first + Pow2(g.k) then next else first
  {
    ConfinedIffFits(Cursor(g, i), g.batch, g.k, g.fixed, g.n);
    BatchStartValue(Cursor(g, i), g.batch, g.k, g.fixed, g.n);
    NextStart(g, Start(g, i));
  }

  /** The batch after one that starts at `start`. */
  lemma {:induction false} NextStart(g: Grind, start: nat)
    requires Words(g) && g.k < g.n && g.batch <= Pow2(g.k)
    requires Base(g.fixed, Pow2(g.k)) <= start && start + g.batch <= Base(g.fixed, Pow2(g.k)) + Pow2(g.k)
    ensures var next := BatchStart(NonceAt(start, g.batch, g.n), g.batch, LowMask(g.k, g.n), g.fixed, g.n);
      var end := Base(g.fixed, Pow2(g.k)) + Pow2(g.k);
      next == if start + g.batch < end && start + g.batch + g.batch <= end then start + g.batch
        else Base(g.fixed, Pow2(g.k))
  {
    var b, p := Base(g.fixed, Pow2(g.k)), Pow2(g.k);
    BatchStartValue(NonceAt(start, g.batch, g.n), g.batch, g.k, g.fixed, g.n);
    if start + g.batch < b + p {
      NonceInside(start, g.batch, g.fixed, g.k, g.n);
      BaseUnique(start + g.batch, b, p);
    } else {
      NoncePast(start, g.batch, g.fixed, g.k, g.n);
    }
  }

  /** Solo mining leaves every bit free: each batch starts right after the previous one, modulo the word. */
  lemma {:induction false} SoloRun(g: Grind, i: nat)
    requires Words(g) && g.k == g.n
    ensures Start(g, 0) == g.cursor && Start(g, i + 1) == NonceAt(Start(g, i), g.batch, g.n)
  {
  }
}
