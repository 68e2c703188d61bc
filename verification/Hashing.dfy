/** Bytes, digests and the node hash shared by every Merkle structure of the miner.

The hash function itself (blake3 in the miner) is a parameter of everything below: no property of
it is assumed, and where a result needs collision resistance it says which two inputs collide. */
module Hashing {

  type Byte = x: int | 0 <= x < 256

  type Bytes = seq<Byte>

  /** A 32-byte string: a digest, or one canonical weight chunk. */
  type Digest = d: Bytes | |d| == 32 witness seq(32, _ => 0)

  type Blake = Bytes -> Digest

  /** Little-endian value of a byte string. */
  function LeNat(bytes: Bytes): nat {
    if bytes == [] then 0 else bytes[0] + 256 * LeNat(bytes[1..])
  }

  /** The 64-byte input of an inner node. */
  function PairInput(left: Digest, right: Digest): (input: Bytes)
    ensures |input| == 64
  {
    left + right
  }

  /** Parent of two nodes: the hash of their concatenation. */
  function HashPair(blake: Blake, left: Digest, right: Digest): Digest {
    blake(PairInput(left, right))
  }

  /** Two different inputs with the same digest. */
  ghost predicate Collides(blake: Blake, x: Bytes, y: Bytes) {
    x != y && blake(x) == blake(y)
  }

  /** Some hash input of `xs` collides with some hash input of `ys`.
  A bare "a collision exists" would hold of every hash into 32 bytes; this one names finite sets. */
  ghost predicate CollisionBetween(blake: Blake, xs: set<Bytes>, ys: set<Bytes>) {
    exists x, y :: x in xs && y in ys && Collides(blake, x, y)
  }

  lemma {:induction false} CollisionWidens(blake: Blake, xs: set<Bytes>, ys: set<Bytes>, xs': set<Bytes>,
      ys': set<Bytes>)
    requires CollisionBetween(blake, xs, ys)
    requires xs <= xs' && ys <= ys'
    ensures CollisionBetween(blake, xs', ys')
  {
  }

  lemma {:induction false} PairInputInjective(l: Digest, r: Digest, l': Digest, r': Digest)
    requires PairInput(l, r) == PairInput(l', r')
    ensures l == l' && r == r'
  {
    assert l == PairInput(l, r)[..32] && l' == PairInput(l', r')[..32];
    assert r == PairInput(l, r)[32..] && r' == PairInput(l', r')[32..];
  }
}

/** Powers of two and halving, as used to size tree levels. */
module Halving {

  const U64_LIMIT: nat := 0x1_0000_0000_0000_0000

  function Pow2(k: nat): (r: nat)
    ensures r >= 1
  {
    if k == 0 then 1 else 2 * Pow2(k - 1)
  }

  /** `n` halved `k` times, rounding up: the node count `k` levels above `n` nodes. */
  function CountAt(n: nat, k: nat): nat {
    if k == 0 then n else CountAt((n + 1) / 2, k - 1)
  }

  /** Halvings needed to reach a single node. */
  function Depth(n: nat): nat {
    if n <= 1 then 0 else 1 + Depth((n + 1) / 2)
  }

  function Min(a: nat, b: nat): nat {
    if a <= b then a else b
  }

  lemma {:induction false} Pow2Add(a: nat, b: nat)
    ensures Pow2(a + b) == Pow2(a) * Pow2(b)
  {
    if a > 0 {
      Pow2Add(a - 1, b);
      assert Pow2(a + b) == 2 * Pow2(a - 1 + b);
      assert 2 * (Pow2(a - 1) * Pow2(b)) == (2 * Pow2(a - 1)) * Pow2(b);
    }
  }

  lemma {:induction false} Pow2Of64()
    ensures Pow2(64) == U64_LIMIT
  {
    Pow2Twice(8, 256);
    Pow2Twice(16, 0x1_0000);
    Pow2Twice(32, 0x1_0000_0000);
  }

  lemma {:induction false} Pow2Twice(a: nat, p: nat)
    requires Pow2(a) == p
    ensures Pow2(2 * a) == p * p
  {
    Pow2Add(a, a);
  }

  lemma {:induction false} Pow2Monotone(a: nat, b: nat)
    requires a <= b
    ensures Pow2(a) <= Pow2(b)
  {
    if a < b {
      Pow2Monotone(a, b - 1);
    }
  }

  /** Repeated rounded-up halving is one rounded-up division. */
  lemma {:induction false} CountAtBounds(n: nat, k: nat)
    requires n > 0
    ensures CountAt(n, k) > 0
    ensures (CountAt(n, k) - 1) * Pow2(k) < n <= CountAt(n, k) * Pow2(k)
  {
    if k > 0 {
      CountAtBounds((n + 1) / 2, k - 1);
      var c: nat, p := CountAt(n, k), Pow2(k - 1);
      var low: nat, high: nat := (c - 1) * p, c * p;
      assert low < (n + 1) / 2 <= high;
      assert (c - 1) * Pow2(k) == 2 * low by { MulTwo(c - 1, p); }
      assert c * Pow2(k) == 2 * high by { MulTwo(c, p); }
    }
  }

  /** `i >> k`. */
  function Shr(i: nat, k: nat): nat {
    if k == 0 then i else Shr(i / 2, k - 1)
  }

  lemma {:induction false} ShrSucc(i: nat, k: nat)
    ensures Shr(i, k + 1) == Shr(i, k) / 2
  {
    if k > 0 {
      ShrSucc(i / 2, k - 1);
    }
  }

  lemma {:induction false} ShrAdd(i: nat, a: nat, b: nat)
    ensures Shr(Shr(i, a), b) == Shr(i, a + b)
  {
    if a > 0 {
      ShrAdd(i / 2, a - 1, b);
    }
  }

  /** An index below `n`, shifted right `k` times, is below the count `k` levels up. */
  lemma {:induction false} ShrInRange(n: nat, i: nat, k: nat)
    requires i < n
    ensures Shr(i, k) < CountAt(n, k)
  {
    if k > 0 {
      ShrInRange((n + 1) / 2, i / 2, k - 1);
    }
  }

  /** Shifting drops the low part. */
  lemma {:induction false} ShrDropsLow(hi: nat, lo: nat, k: nat)
    requires lo < Pow2(k)
    ensures Shr(hi * Pow2(k) + lo, k) == hi
  {
    if k > 0 {
      var h := hi * Pow2(k - 1);
      MulTwo(hi, Pow2(k - 1));
      ShrDropsLow(hi, lo / 2, k - 1);
      assert (2 * h + lo) / 2 == h + lo / 2;
    }
  }

  /** Bits below `k` do not see a multiple of `Pow2(k)`. */
  lemma {:induction false} ShrLowBits(hi: nat, lo: nat, k: nat, j: nat)
    requires j < k
    ensures Shr(hi * Pow2(k) + lo, j) % 2 == Shr(lo, j) % 2
  {
    var h := hi * Pow2(k - 1);
    MulTwo(hi, Pow2(k - 1));
    if j > 0 {
      ShrLowBits(hi, lo / 2, k - 1, j - 1);
      assert (2 * h + lo) / 2 == h + lo / 2;
    }
  }

  lemma {:induction false} DepthReachesOne(n: nat)
    requires n > 0
    ensures CountAt(n, Depth(n)) == 1
  {
    if n > 1 {
      DepthReachesOne((n + 1) / 2);
    }
  }

  /** Below the depth there is still more than one node. */
  lemma {:induction false} AboveOneBeforeDepth(n: nat, k: nat)
    requires k < Depth(n)
    ensures CountAt(n, k) > 1
  {
    if k > 0 {
      AboveOneBeforeDepth((n + 1) / 2, k - 1);
    }
  }

  lemma {:induction false} CountAtAdd(n: nat, a: nat, b: nat)
    ensures CountAt(CountAt(n, a), b) == CountAt(n, a + b)
  {
    if a > 0 {
      CountAtAdd((n + 1) / 2, a - 1, b);
    }
  }

  lemma {:induction false} DepthSplit(n: nat, k: nat)
    requires k <= Depth(n)
    ensures Depth(n) == k + Depth(CountAt(n, k))
  {
    if k > 0 {
      DepthSplit((n + 1) / 2, k - 1);
    }
  }

  /** The depth is the rounded-up base-two logarithm. */
  lemma {:induction false} DepthAtLeast(n: nat, k: nat)
    ensures Depth(n) > k <==> n > Pow2(k)
  {
    if k > 0 && n > 1 {
      DepthAtLeast((n + 1) / 2, k - 1);
    }
  }

  lemma {:induction false} DepthOfPow2(k: nat)
    ensures Depth(Pow2(k)) == k
  {
    if k > 0 {
      DepthOfPow2(k - 1);
    }
  }

  lemma {:induction false} MulTwo(a: nat, p: nat)
    ensures a * (2 * p) == 2 * (a * p)
  {
  }

  lemma {:induction false} MulSucc(a: int, p: int)
    ensures (a + 1) * p == a * p + p
  {
  }

  lemma {:induction false} MulMonotone(a: int, b: int, c: nat)
    ensures a <= b ==> a * c <= b * c
  {
  }

  lemma {:induction false} DivUnique(x: int, d: int, q: int, r: int)
    requires d > 0 && 0 <= r < d && x == d * q + r
    ensures x / d == q && x % d == r
  {
    var q', r' := x / d, x % d;
    assert x == d * q' + r';
    MulMonotone(q + 1, q', d);
    MulMonotone(q' + 1, q, d);
  }
}
