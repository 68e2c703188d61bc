/** 256-bit difficulty targets on four little-endian 64-bit words (src/target.rs), and the byte-wise
comparison the PoM gate uses instead (`le_leq` in src/pom.rs). */
module Target {
  import opened Hashing
  import opened Halving
  import opened Borsh

  const WORD: nat := 0x1_0000_0000_0000_0000
  const TOP: nat := 0x1_0000_0000_0000_0000_0000_0000_0000_0000_0000_0000_0000_0000_0000_0000_0000_0000

  type Word = x: nat | x < WORD

  type Uint256 = w: seq<Word> | |w| == 4 witness [0, 0, 0, 0]

  /** The number four words stand for. */
  ghost function Value(w: Uint256): nat {
    w[0] + WORD * (w[1] + WORD * (w[2] + WORD * w[3]))
  }

  lemma {:induction false} ValueBelowTop(w: Uint256)
    ensures Value(w) < TOP
  {
  }

  // ---------------------------------------------------------------- shift

  /** The part of a word that stays in its word when shifted left, and the part carried over. */
  function Low(x: Word, s: nat): nat { (x * Pow2(s)) % WORD }

  function High(x: Word, s: nat): nat
    requires s < 64
  {
    Quotient(x, Pow2(64 - s))
  }

  function Quotient(x: nat, d: nat): nat
    requires d > 0
  {
    x / d
  }

  lemma {:induction false} Pow2Of256()
    ensures Pow2(128) == WORD * WORD && Pow2(192) == WORD * WORD * WORD && Pow2(256) == TOP
  {
    Pow2Of64();
    Pow2Add(64, 64);
    Pow2Add(128, 64);
    Pow2Add(128, 128);
  }

  lemma {:induction false} SplitProduct(x: nat, p: nat, q: nat, h: nat, r: nat)
    requires x == q * h + r && r < q
    ensures x * p == h * (p * q) + r * p
    ensures r * p + p <= q * p
  {
    assert (q * h + r) * p == (q * h) * p + r * p;
    assert (q * h) * p == h * (p * q);
    MulSucc(r, p);
    MulMonotone(r + 1, q, p);
  }

  lemma {:induction false} FactorBelow(h: nat, p: nat, q: nat, x: nat)
    requires h * q <= x < p * q
    ensures h < p
  {
    MulMonotone(p, h, q);
  }

  /** Shifted word: `High` is below the shift's power, `Low` leaves room for it. */
  lemma {:induction false} WordSplit(x: Word, s: nat)
    requires s < 64
    ensures x * Pow2(s) == High(x, s) * WORD + Low(x, s)
    ensures High(x, s) < Pow2(s) && Low(x, s) + Pow2(s) <= WORD
  {
    var p, q := Pow2(s), Pow2(64 - s);
    assert p * q == WORD by {
      Pow2Of64();
      Pow2Add(s, 64 - s);
    }
    WordSplitBy(x, s, p, q);
  }

  lemma {:induction false} WordSplitBy(x: Word, s: nat, p: nat, q: nat)
    requires p > 0 && q > 0 && p * q == WORD
    ensures x * p == (x / q) * WORD + (x * p) % WORD
    ensures x / q < p && (x * p) % WORD + p <= WORD
  {
    var h, r := x / q, x % q;
    SplitProduct(x, p, q, h, r);
    assert q * p == WORD;
    DivUnique(x * p, WORD, h, r * p);
    FactorBelow(h, p, q, x);
  }

  lemma {:induction false} NothingCarried(x: Word)
    ensures High(x, 0) == 0
  {
    WordSplit(x, 0);
  }

  /** Word `j` of a shift by `64 * ws + s` bits, once the first `n` source words are in. */
  ghost function ShiftedWord(w: Uint256, ws: nat, s: nat, n: nat, j: nat): nat
    requires s < 64 && n <= 4
  {
    (if ws <= j < ws + n then Low(w[j - ws], s) else 0)
      + (if ws + 1 <= j < ws + 1 + n then High(w[j - ws - 1], s) else 0)
  }

  lemma {:induction false} ShiftedWordFits(w: Uint256, ws: nat, s: nat, n: nat, j: nat)
    requires s < 64 && n <= 4
    ensures ShiftedWord(w, ws, s, n, j) < WORD
  {
    if ws <= j < ws + n {
      WordSplit(w[j - ws], s);
    }
    if ws + 1 <= j < ws + 1 + n {
      WordSplit(w[j - ws - 1], s);
    }
  }

  /** `<<`: the two additions into a word never overflow it. */
  method Shl(w: Uint256, shift: nat) returns (r: Uint256)
    ensures Value(r) == (Value(w) * Pow2(shift)) % TOP
  {
    var ret := new nat[4](_ => 0);
    var ws, s := shift / 64, shift % 64;
    for i := 0 to 4
      invariant forall j | 0 <= j < 4 :: ret[j] == ShiftedWord(w, ws, s, i, j)
    {
      if i + ws < 4 {
        ret[i + ws] := ret[i + ws] + Low(w[i], s);
      }
      if s > 0 && i + ws + 1 < 4 {
        ret[i + ws + 1] := ret[i + ws + 1] + High(w[i], s);
      }
      if s == 0 {
        NothingCarried(w[i]);
      }
    }
    forall j | 0 <= j < 4 ensures ret[j] < WORD {
      ShiftedWordFits(w, ws, s, 4, j);
    }
    r := [ret[0], ret[1], ret[2], ret[3]];
    ShiftedValue(w, ws, s, r);
  }

  /** The shifted words are the shifted number. */
  lemma {:induction false} ShiftedValue(w: Uint256, ws: nat, s: nat, r: Uint256)
    requires s < 64
    requires forall j | 0 <= j < 4 :: r[j] == ShiftedWord(w, ws, s, 4, j)
    ensures Value(r) == (Value(w) * Pow2(64 * ws + s)) % TOP
  {
    ValueBelowTop(r);
    if ws < 4 {
      SmallShift(w, ws, s, r);
    } else {
      assert Value(r) == 0;
      LargeShift(Value(w), 64 * ws + s);
    }
  }

  lemma {:induction false} SmallShift(w: Uint256, ws: nat, s: nat, r: Uint256)
    requires s < 64 && ws < 4 && Value(r) < TOP
    requires forall j | 0 <= j < 4 :: r[j] == ShiftedWord(w, ws, s, 4, j)
    ensures Value(r) == (Value(w) * Pow2(64 * ws + s)) % TOP
  {
    var v := Value(w) * Pow2(s);
    var c := [Digit(w, s, 0), Digit(w, s, 1), Digit(w, s, 2), Digit(w, s, 3), Digit(w, s, 4)];
    forall j | 0 <= j < 4 ensures r[j] == if j >= ws then c[j - ws] else 0 {
      ShiftedWordIsDigit(w, ws, s, j);
    }
    ValueTimesPower(w, s);
    ShiftedDigits(c, ws, r, v);
    DivUnique(v * Unit(ws), TOP, Overflow(c, ws), Value(r));
    UnitIsPower(Value(w), ws, s);
  }

  lemma {:induction false} ShiftedWordIsDigit(w: Uint256, ws: nat, s: nat, j: nat)
    requires s < 64 && j < 4
    ensures ShiftedWord(w, ws, s, 4, j) == if j >= ws then Digit(w, s, j - ws) else 0
  {
  }

  lemma {:induction false} LargeShift(v: nat, shift: nat)
    requires shift >= 256
    ensures (v * Pow2(shift)) % TOP == 0
  {
    Pow2Of256();
    var rest := Pow2(shift - 256);
    Pow2Add(256, shift - 256);
    Reorder(v, TOP, rest);
    DivUnique(v * Pow2(shift), TOP, v * rest, 0);
  }

  /** `2^64` to the power `ws`. */
  ghost function Unit(ws: nat): nat {
    if ws == 0 then 1 else if ws == 1 then WORD else if ws == 2 then WORD * WORD else WORD * WORD * WORD
  }

  lemma {:induction false} UnitIsPower(v: nat, ws: nat, s: nat)
    requires ws < 4
    ensures v * Pow2(64 * ws + s) == v * Pow2(s) * Unit(ws)
  {
    assert Pow2(64 * ws) == Unit(ws) by {
      Pow2Of64();
      Pow2Of256();
    }
    Pow2Add(64 * ws, s);
    Reorder(v, Unit(ws), Pow2(s));
  }

  lemma {:induction false} Reorder(v: nat, u: nat, p: nat)
    ensures v * (u * p) == v * p * u
  {
  }

  /** The five digits of a number times `2^s`: each word's low part plus the carry from below. */
  ghost function Digit(w: Uint256, s: nat, j: nat): nat
    requires s < 64 && j < 5
  {
    (if j < 4 then Low(w[j], s) else 0) + (if j > 0 then High(w[j - 1], s) else 0)
  }

  /** What moving five digits up by `ws` places pushes past the top. */
  ghost function Overflow(c: seq<nat>, ws: nat): nat
    requires |c| == 5 && ws < 4
  {
    var o1 := c[3] + WORD * c[4];
    var o2 := c[2] + WORD * o1;
    if ws == 0 then c[4] else if ws == 1 then o1 else if ws == 2 then o2 else c[1] + WORD * o2
  }

  lemma {:induction false} ShiftedDigits(c: seq<nat>, ws: nat, r: Uint256, v: nat)
    requires |c| == 5 && ws < 4
    requires v == c[0] + WORD * (c[1] + WORD * (c[2] + WORD * (c[3] + WORD * c[4])))
    requires forall j | 0 <= j < 4 :: r[j] == if j >= ws then c[j - ws] else 0
    ensures v * Unit(ws) == TOP * Overflow(c, ws) + Value(r)
  {
    MoveDigits(c[0], c[1], c[2], c[3], c[4]);
    if ws == 0 {
    } else if ws == 1 {
    } else if ws == 2 {
    } else {
    }
  }

  /** Five base-`2^64` digits, moved up by zero to three places. */
  lemma {:induction false} MoveDigits(c0: nat, c1: nat, c2: nat, c3: nat, c4: nat)
    ensures var v := c0 + WORD * (c1 + WORD * (c2 + WORD * (c3 + WORD * c4)));
      && v * Unit(0) == TOP * c4 + (c0 + WORD * (c1 + WORD * (c2 + WORD * c3)))
      && v * Unit(1) == TOP * (c3 + WORD * c4) + WORD * (c0 + WORD * (c1 + WORD * c2))
      && v * Unit(2) == TOP * (c2 + WORD * (c3 + WORD * c4)) + WORD * (WORD * (c0 + WORD * c1))
      && v * Unit(3) == TOP * (c1 + WORD * (c2 + WORD * (c3 + WORD * c4))) + WORD * (WORD * (WORD * c0))
  {
  }

  /** The number times `2^s`, word by word. */
  lemma {:induction false} ValueTimesPower(w: Uint256, s: nat)
    requires s < 64
    ensures Value(w) * Pow2(s) ==
      Digit(w, s, 0)
        + WORD * (Digit(w, s, 1) + WORD * (Digit(w, s, 2) + WORD * (Digit(w, s, 3) + WORD * Digit(w, s, 4))))
  {
    WordSplit(w[0], s);
    WordSplit(w[1], s);
    WordSplit(w[2], s);
    WordSplit(w[3], s);
    DistributeAll(w, Pow2(s));
    Carry(
      Low(w[0], s), Low(w[1], s), Low(w[2], s), Low(w[3], s),
      High(w[0], s), High(w[1], s), High(w[2], s), High(w[3], s));
  }

  /** Carrying every word's high part into the next word. */
  lemma {:induction false} Carry(l0: nat, l1: nat, l2: nat, l3: nat, h0: nat, h1: nat, h2: nat, h3: nat)
    ensures (h0 * WORD + l0) + WORD * ((h1 * WORD + l1) + WORD * ((h2 * WORD + l2) + WORD * (h3 * WORD + l3)))
         == l0 + WORD * (l1 + h0 + WORD * (l2 + h1 + WORD * (l3 + h2 + WORD * h3)))
  {
  }

  lemma {:induction false} DistributeAll(w: Uint256, p: nat)
    ensures Value(w) * p == w[0] * p + WORD * (w[1] * p + WORD * (w[2] * p + WORD * (w[3] * p)))
  {
    Distribute(w[2], w[3], p);
    Distribute(w[1], w[2] + WORD * w[3], p);
    Distribute(w[0], w[1] + WORD * (w[2] + WORD * w[3]), p);
  }

  lemma {:induction false} Distribute(a: nat, b: nat, p: nat)
    ensures (a + WORD * b) * p == a * p + WORD * (b * p)
  {
  }

  // ---------------------------------------------------------------- order

  /** Words compared from the top, as `Ord` does. */
  predicate Less(a: Uint256, b: Uint256) {
    || a[3] < b[3]
    || (a[3] == b[3] && (a[2] < b[2]
      || (a[2] == b[2] && (a[1] < b[1]
        || (a[1] == b[1] && a[0] < b[0])))))
  }

  lemma {:induction false} OrderIsNumeric(a: Uint256, b: Uint256)
    ensures Less(a, b) <==> Value(a) < Value(b)
    ensures a == b <==> Value(a) == Value(b)
  {
    var a1, b1 := a[2] + WORD * a[3], b[2] + WORD * b[3];
    var a2, b2 := a[1] + WORD * a1, b[1] + WORD * b1;
    assert Value(a) == a[0] + WORD * a2 && Value(b) == b[0] + WORD * b2;
  }

  // ---------------------------------------------------------------- bytes

  function ToLeBytes(w: Uint256): (bytes: Digest) {
    LeBytes(w[0], 8) + LeBytes(w[1], 8) + LeBytes(w[2], 8) + LeBytes(w[3], 8)
  }

  lemma {:induction false} LeNatAppend(a: Bytes, b: Bytes)
    ensures LeNat(a + b) == LeNat(a) + Bound(|a|) * LeNat(b)
    decreases |a|
  {
    if a == [] {
      assert a + b == b;
    } else {
      assert (a + b)[1..] == a[1..] + b;
      LeNatAppend(a[1..], b);
      Reorder(256, LeNat(b), Bound(|a| - 1));
      assert Bound(|a|) == 256 * Bound(|a| - 1);
    }
  }

  lemma {:induction false} ToLeBytesValue(w: Uint256)
    ensures LeNat(ToLeBytes(w)) == Value(w)
  {
    Bounds();
    WordBytes(w, 8);
  }

  /** Four words of `k` bytes each, lowest first. */
  lemma {:induction false} WordBytes(w: Uint256, k: nat)
    requires Bound(k) == WORD
    ensures LeNat(LeBytes(w[0], k) + LeBytes(w[1], k) + LeBytes(w[2], k) + LeBytes(w[3], k)) == Value(w)
  {
    var b0, b1, b2, b3 := LeBytes(w[0], k), LeBytes(w[1], k), LeBytes(w[2], k), LeBytes(w[3], k);
    assert b0 + b1 + b2 + b3 == b0 + (b1 + (b2 + b3));
    WordThenRest(w[0], k, b1 + (b2 + b3));
    WordThenRest(w[1], k, b2 + b3);
    WordThenRest(w[2], k, b3);
    LeNatOfLeBytes(w[3], k);
  }

  lemma {:induction false} WordThenRest(x: Word, k: nat, rest: Bytes)
    requires Bound(k) == WORD
    ensures LeNat(LeBytes(x, k) + rest) == x + WORD * LeNat(rest)
  {
    LeNatOfLeBytes(x, k);
    LeNatAppend(LeBytes(x, k), rest);
  }

  /** Comparing from the last byte down is comparing the numbers. */
  method LeLeq(a: Digest, b: Digest) returns (leq: bool)
    ensures leq <==> LeNat(a) <= LeNat(b)
  {
    var i := 32;
    assert a[..32] == a && b[..32] == b;
    while i > 0
      invariant 0 <= i <= 32
      invariant LeNat(a) <= LeNat(b) <==> LeNat(a[..i]) <= LeNat(b[..i])
    {
      i := i - 1;
      TopByteDecides(a[..i + 1], b[..i + 1]);
      assert a[..i + 1][..i] == a[..i] && b[..i + 1][..i] == b[..i];
      if a[i] < b[i] {
        return true;
      }
      if a[i] > b[i] {
        return false;
      }
    }
    leq := true;
  }

  /** The high digit decides; equal high digits leave it to the low parts. */
  lemma {:induction false} HighDecides(lo: nat, hi: nat, lo': nat, hi': nat, unit: nat)
    requires lo < unit && lo' < unit
    ensures hi < hi' ==> lo + unit * hi < lo' + unit * hi'
    ensures hi == hi' ==> (lo + unit * hi <= lo' + unit * hi' <==> lo <= lo')
  {
    MulMonotone(hi + 1, hi', unit);
    MulSucc(hi, unit);
  }

  lemma {:induction false} LastByte(a: Bytes)
    requires a != []
    ensures var n := |a| - 1; LeNat(a) == LeNat(a[..n]) + Bound(n) * a[n] && LeNat(a[..n]) < Bound(n)
  {
    var n := |a| - 1;
    assert a == a[..n] + [a[n]];
    LeNatAppend(a[..n], [a[n]]);
    LeBytesOfLeNat(a[..n]);
    assert LeNat([a[n]]) == a[n];
  }

  lemma {:induction false} TopByteDecides(a: Bytes, b: Bytes)
    requires |a| == |b| > 0
    ensures var n := |a| - 1;
      && (a[n] < b[n] ==> LeNat(a) < LeNat(b))
      && (a[n] > b[n] ==> LeNat(a) > LeNat(b))
      && (a[n] == b[n] ==> (LeNat(a) <= LeNat(b) <==> LeNat(a[..n]) <= LeNat(b[..n])))
  {
    var n := |a| - 1;
    LastByte(a);
    LastByte(b);
    HighDecides(LeNat(a[..n]), a[n], LeNat(b[..n]), b[n], Bound(n));
    HighDecides(LeNat(b[..n]), b[n], LeNat(a[..n]), a[n], Bound(n));
  }

  /** The byte-wise test against a target's bytes is the word-wise order. */
  lemma {:induction false} ByteOrderIsWordOrder(a: Uint256, b: Uint256)
    ensures LeNat(ToLeBytes(a)) <= LeNat(ToLeBytes(b)) <==> !Less(b, a)
  {
    ToLeBytesValue(a);
    ToLeBytesValue(b);
    OrderIsNumeric(b, a);
  }

  // ---------------------------------------------------------------- compact targets

  /** `m` times a power of two. */
  ghost function Scaled(m: nat, s: nat): nat { m * Pow2(s) }

  /** The number a compact target stands for: a 24-bit mantissa at a byte exponent, no fraction. */
  ghost function CompactValue(m: nat, e: nat): nat {
    Scaled(m, 8 * e) / 0x100_0000
  }

  type Compact = bits: nat | bits < 0x1_0000_0000

  /** The target that `bits` encodes (Bitcoin nBits); a mantissa whose sign bit is still set after the
  small-exponent shift stands for zero. */
  ghost function Threshold(bits: Compact): nat {
    var e, m := bits / 0x100_0000, bits % 0x100_0000;
    if e >= 3 && m > 0x7F_FFFF then 0 else CompactValue(m, e) % TOP
  }

  /** The threshold exponent by exponent: below three the mantissa loses low bytes, from three on it gains
  zero bytes, up to 256 bits. */
  lemma {:induction false} ThresholdIs(bits: Compact)
    ensures var e, m := bits / 0x100_0000, bits % 0x100_0000;
      && (e == 0 ==> Threshold(bits) == 0)
      && (e == 1 ==> Threshold(bits) == m / 0x1_0000)
      && (e == 2 ==> Threshold(bits) == m / 0x100)
      && (e >= 3 ==> Threshold(bits) == if m >= 0x80_0000 then 0 else (m * Pow2(8 * (e - 3))) % TOP)
  {
    var e, m := bits / 0x100_0000, bits % 0x100_0000;
    Pow2Of24();
    if e >= 3 {
      LargeExponent(m, e);
    } else {
      SmallExponent(m, e);
      assert 8 * (3 - e) == if e == 0 then 24 else if e == 1 then 16 else 8;
    }
  }

  /** `u256_from_compact_target`. */
  method FromCompactTarget(bits: Compact) returns (r: Uint256)
    ensures Value(r) == Threshold(bits)
    ensures var e, m := bits / 0x100_0000, bits % 0x100_0000;
      && (e == 0 ==> Value(r) == 0)
      && (e == 1 ==> Value(r) == m / 0x1_0000)
      && (e == 2 ==> Value(r) == m / 0x100)
      && (e >= 3 ==> Value(r) == if m >= 0x80_0000 then 0 else (m * Pow2(8 * (e - 3))) % TOP)
  {
    var e, m := bits / 0x100_0000, bits % 0x100_0000;
    ThresholdIs(bits);
    var mant, expt := Mantissa(m, e);
    if mant > 0x7F_FFFF {
      r := [0, 0, 0, 0];
    } else {
      r := Shl([mant, 0, 0, 0], expt);
    }
  }

  /** Mantissa and bit exponent, with the exponent below three folded into the mantissa. */
  method Mantissa(m: nat, e: nat) returns (mant: nat, expt: nat)
    requires m < 0x100_0000
    ensures mant < 0x100_0000 && (mant > 0x7F_FFFF <==> e >= 3 && m > 0x7F_FFFF)
    ensures mant * Pow2(expt) == CompactValue(m, e)
  {
    if e <= 3 {
      SmallExponent(m, e);
      mant, expt := m / Pow2(8 * (3 - e)), 0;
    } else {
      LargeExponent(m, e);
      mant, expt := m, 8 * (e - 3);
    }
  }

  lemma {:induction false} Pow2Of24()
    ensures Pow2(0) == 1 && Pow2(8) == 0x100 && Pow2(16) == 0x1_0000 && Pow2(24) == 0x100_0000
  {
    Pow2Add(8, 8);
    Pow2Add(16, 8);
  }

  lemma {:induction false} LargeExponent(m: nat, e: nat)
    requires e >= 3
    ensures m * Pow2(8 * (e - 3)) == CompactValue(m, e)
  {
    Pow2Of24();
    Pow2Add(24, 8 * (e - 3));
    var x := m * Pow2(8 * (e - 3));
    Reorder(m, 0x100_0000, Pow2(8 * (e - 3)));
    DivUnique(Scaled(m, 8 * e), 0x100_0000, x, 0);
  }

  lemma {:induction false} SmallExponent(m: nat, e: nat)
    requires e <= 3 && m < 0x100_0000
    ensures var q := m / Pow2(8 * (3 - e));
      q <= m && (q > 0x7F_FFFF <==> e == 3 && m > 0x7F_FFFF) && q * Pow2(0) == CompactValue(m, e)
  {
    Pow2Of24();
    assert 8 * (3 - e) == if e == 0 then 24 else if e == 1 then 16 else if e == 2 then 8 else 0;
    assert 8 * e == if e == 0 then 0 else if e == 1 then 8 else if e == 2 then 16 else 24;
    assert Scaled(m, 8 * e)
      == if e == 0 then m else if e == 1 then 0x100 * m else if e == 2 then 0x1_0000 * m else 0x100_0000 * m;
  }
}
