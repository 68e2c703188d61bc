/** The dense duplicate-last Merkle tree (src/pom.rs): root, inclusion proof and verification.

`NextLevel` is the one rule of the tree: neighbours are hashed in pairs and a lone last node is
hashed with itself. The loops of the miner are the methods; `Root`, `Path` and `Climb` are what
they compute, and `Level` numbers the levels from the leaves (0) to the root (`Depth`). */
module Merkle {
  import opened Hashing
  import opened Halving

  function Parent(blake: Blake, level: seq<Digest>, i: nat): Digest
    requires 2 * i < |level|
  {
    HashPair(blake, level[2 * i], if 2 * i + 1 < |level| then level[2 * i + 1] else level[2 * i])
  }

  function NextLevel(blake: Blake, level: seq<Digest>): (next: seq<Digest>)
    ensures |next| == (|level| + 1) / 2
  {
    seq((|level| + 1) / 2, i requires 0 <= i < (|level| + 1) / 2 => Parent(blake, level, i))
  }

  /** The nodes `k` levels above `nodes`; a lone node is carried up by hashing it with itself. */
  function Level(blake: Blake, nodes: seq<Digest>, k: nat): seq<Digest>
    decreases k
  {
    if k == 0 then nodes else Level(blake, NextLevel(blake, nodes), k - 1)
  }

  function Root(blake: Blake, leaves: seq<Digest>): Digest
    requires leaves != []
    decreases |leaves|
  {
    if |leaves| == 1 then leaves[0] else Root(blake, NextLevel(blake, leaves))
  }

  /** Sibling of node `idx`; the node itself when it has none. */
  function Sibling(level: seq<Digest>, idx: nat): Digest
    requires idx < |level|
  {
    var sib := if idx % 2 == 0 then idx + 1 else idx - 1;
    if sib < |level| then level[sib] else level[idx]
  }

  function Path(blake: Blake, leaves: seq<Digest>, idx: nat): seq<Digest>
    requires idx < |leaves|
    decreases |leaves|
  {
    if |leaves| <= 1 then [] else [Sibling(leaves, idx)] + Path(blake, NextLevel(blake, leaves), idx / 2)
  }

  /** The node reached from `acc` at index `idx` by absorbing the siblings of `path` in turn. */
  function Climb(blake: Blake, acc: Digest, idx: nat, path: seq<Digest>): Digest
    decreases |path|
  {
    if path == [] then acc
    else
      var parent := if idx % 2 == 0 then HashPair(blake, acc, path[0]) else HashPair(blake, path[0], acc);
      Climb(blake, parent, idx / 2, path[1..])
  }

  // ---------------------------------------------------------------- the miner's loops

  /** One pass over a level, two nodes at a time. */
  method FoldOnce(blake: Blake, level: seq<Digest>) returns (next: seq<Digest>)
    ensures next == NextLevel(blake, level)
  {
    next := [];
    var i := 0;
    while i < |level|
      invariant i == 2 * |next| && i <= |level| + 1
      invariant next == NextLevel(blake, level)[..|next|]
    {
      var r := if i + 1 < |level| then level[i + 1] else level[i];
      next := next + [HashPair(blake, level[i], r)];
      i := i + 2;
    }
  }

  method MerkleRoot(blake: Blake, leaves: seq<Digest>) returns (root: Digest)
    requires leaves != []
    ensures root == Root(blake, leaves)
  {
    var level := leaves;
    while |level| > 1
      invariant level != [] && Root(blake, level) == Root(blake, leaves)
    {
      level := FoldOnce(blake, level);
    }
    root := level[0];
  }

  method MerkleProof(blake: Blake, leaves: seq<Digest>, index: nat) returns (path: seq<Digest>)
    requires index < |leaves|
    ensures path == Path(blake, leaves, index)
  {
    path := [];
    var level: seq<Digest>, idx: nat := leaves, index;
    while |level| > 1
      invariant idx < |level|
      invariant path + Path(blake, level, idx) == Path(blake, leaves, index)
    {
      var sibIdx := if idx % 2 == 0 then idx + 1 else idx - 1;
      var sib := if sibIdx < |level| then level[sibIdx] else level[idx];
      ghost var rest := Path(blake, NextLevel(blake, level), idx / 2);
      assert Path(blake, level, idx) == [sib] + rest && path + ([sib] + rest) == path + [sib] + rest;
      path := path + [sib];
      level := FoldOnce(blake, level);
      idx := idx / 2;
    }
  }

  method VerifyMerkle(blake: Blake, leaf: Digest, index: nat, path: seq<Digest>, root: Digest) returns (ok: bool)
    ensures ok <==> Climb(blake, leaf, index, path) == root
  {
    var acc: Digest, idx: nat := leaf, index;
    for i := 0 to |path|
      invariant Climb(blake, acc, idx, path[i..]) == Climb(blake, leaf, index, path)
    {
      acc := if idx % 2 == 0 then HashPair(blake, acc, path[i]) else HashPair(blake, path[i], acc);
      idx := idx / 2;
    }
    ok := acc == root;
  }

  /** `fold_levels`: exactly `rounds` levels up, even past the point where one node is left. */
  method FoldLevels(blake: Blake, batch: seq<Digest>, rounds: nat) returns (node: Digest)
    requires batch != [] && |batch| <= Pow2(rounds)
    ensures Level(blake, batch, rounds) == [node]
  {
    var level := batch;
    LevelCount(blake, batch, rounds);
    CountOne(|batch|, rounds);
    for k := 0 to rounds
      invariant level != [] && Level(blake, level, rounds - k) == Level(blake, batch, rounds)
    {
      level := FoldOnce(blake, level);
    }
    assert Level(blake, batch, rounds) == level && |level| == 1;
    node := level[0];
  }

  // ---------------------------------------------------------------- shape of the levels

  lemma {:induction false} LevelCount(blake: Blake, nodes: seq<Digest>, k: nat)
    ensures |Level(blake, nodes, k)| == CountAt(|nodes|, k)
    decreases k
  {
    if k > 0 {
      LevelCount(blake, NextLevel(blake, nodes), k - 1);
    }
  }

  lemma {:induction false} CountOne(n: nat, k: nat)
    requires 0 < n <= Pow2(k)
    ensures CountAt(n, k) == 1
  {
    CountAtBounds(n, k);
    MulMonotone(1, CountAt(n, k) - 1, Pow2(k));
  }

  lemma {:induction false} LevelAdd(blake: Blake, nodes: seq<Digest>, a: nat, b: nat)
    ensures Level(blake, Level(blake, nodes, a), b) == Level(blake, nodes, a + b)
    decreases a
  {
    if a > 0 {
      LevelAdd(blake, NextLevel(blake, nodes), a - 1, b);
    }
  }

  lemma {:induction false} LevelSucc(blake: Blake, nodes: seq<Digest>, k: nat)
    ensures Level(blake, nodes, k + 1) == NextLevel(blake, Level(blake, nodes, k))
  {
    LevelAdd(blake, nodes, k, 1);
    var x := Level(blake, nodes, k);
    assert Level(blake, x, 1) == Level(blake, NextLevel(blake, x), 0);
  }

  /** The root is the single node of level `Depth`. */
  lemma {:induction false} RootIsTopLevel(blake: Blake, leaves: seq<Digest>)
    requires leaves != []
    ensures Level(blake, leaves, Depth(|leaves|)) == [Root(blake, leaves)]
    decreases |leaves|
  {
    if |leaves| > 1 {
      RootIsTopLevel(blake, NextLevel(blake, leaves));
    }
  }

  lemma {:induction false} NextLevelOfSlice(blake: Blake, nodes: seq<Digest>, a: nat, b: nat)
    requires a <= b && 2 * a <= |nodes|
    ensures NextLevel(blake, nodes[2 * a..Min(2 * b, |nodes|)])
         == NextLevel(blake, nodes)[a..Min(b, |NextLevel(blake, nodes)|)]
  {
    var s := nodes[2 * a..Min(2 * b, |nodes|)];
    var l, r := NextLevel(blake, s), NextLevel(blake, nodes)[a..Min(b, |NextLevel(blake, nodes)|)];
    assert |l| == |r|;
    forall i | 0 <= i < |l| ensures l[i] == r[i] {
      assert s[2 * i] == nodes[2 * (a + i)];
      assert l[i] == Parent(blake, s, i) && r[i] == Parent(blake, nodes, a + i);
    }
  }

  /** Folding an aligned slice of a level lands on the matching slice `k` levels up, also at a
  ragged right edge: a short slice is only ever the last one. */
  lemma {:induction false} LevelOfSlice(blake: Blake, nodes: seq<Digest>, a: nat, b: nat, k: nat)
    requires a <= b && a * Pow2(k) <= |nodes|
    ensures a <= |Level(blake, nodes, k)| && a * Pow2(k) <= b * Pow2(k)
    ensures Level(blake, nodes[a * Pow2(k)..Min(b * Pow2(k), |nodes|)], k)
         == Level(blake, nodes, k)[a..Min(b, |Level(blake, nodes, k)|)]
    decreases k
  {
    assert a * Pow2(k) <= b * Pow2(k) by { MulMonotone(a, b, Pow2(k)); }
    LevelOfRange(blake, nodes, a, b, k, a * Pow2(k), b * Pow2(k));
  }

  lemma {:induction false} LevelOfRange(blake: Blake, nodes: seq<Digest>, a: nat, b: nat, k: nat, lo: nat, hi: nat)
    requires lo == a * Pow2(k) && hi == b * Pow2(k) && a <= b && lo <= hi && lo <= |nodes|
    ensures a <= |Level(blake, nodes, k)|
    ensures Level(blake, nodes[lo..Min(hi, |nodes|)], k) == Level(blake, nodes, k)[a..Min(b, |Level(blake, nodes, k)|)]
    decreases k
  {
    if k > 0 {
      var p, next := Pow2(k - 1), NextLevel(blake, nodes);
      var lo': nat, hi': nat := a * p, b * p;
      assert lo == 2 * lo' by { MulTwo(a, p); }
      assert hi == 2 * hi' by { MulTwo(b, p); }
      NextLevelOfSlice(blake, nodes, lo', hi');
      LevelOfRange(blake, next, a, b, k - 1, lo', hi');
    } else {
      assert Pow2(0) == 1;
    }
  }

  /** Node `j` of level `k` is the fold of the (possibly short) batch of leaves below it. */
  lemma {:induction false} NodeIsFoldOfBatch(blake: Blake, nodes: seq<Digest>, j: nat, k: nat)
    requires j * Pow2(k) < |nodes|
    ensures j < |Level(blake, nodes, k)| && j * Pow2(k) <= (j + 1) * Pow2(k)
    ensures Level(blake, nodes[j * Pow2(k)..Min((j + 1) * Pow2(k), |nodes|)], k) == [Level(blake, nodes, k)[j]]
  {
    LevelOfSlice(blake, nodes, j, j + 1, k);
    LevelCount(blake, nodes, k);
    CountAtBounds(|nodes|, k);
    MulMonotone(CountAt(|nodes|, k), j, Pow2(k));
  }

  // ---------------------------------------------------------------- proofs and verification

  lemma {:induction false} ClimbAppend(blake: Blake, acc: Digest, idx: nat, p: seq<Digest>, q: seq<Digest>)
    ensures Climb(blake, acc, idx, p + q) == Climb(blake, Climb(blake, acc, idx, p), Shr(idx, |p|), q)
    decreases |p|
  {
    if p == [] {
      assert p + q == q;
    } else {
      assert (p + q)[1..] == p[1..] + q;
      var acc' := if idx % 2 == 0 then HashPair(blake, acc, p[0]) else HashPair(blake, p[0], acc);
      ClimbAppend(blake, acc', idx / 2, p[1..], q);
    }
  }

  lemma {:induction false} PathLength(blake: Blake, leaves: seq<Digest>, idx: nat)
    requires idx < |leaves|
    ensures |Path(blake, leaves, idx)| == Depth(|leaves|)
    decreases |leaves|
  {
    if |leaves| > 1 {
      PathLength(blake, NextLevel(blake, leaves), idx / 2);
    }
  }

  /** Completeness of the dense tree: every proof it hands out climbs to its root. */
  lemma {:induction false} PathClimbsToRoot(blake: Blake, leaves: seq<Digest>, idx: nat)
    requires idx < |leaves|
    ensures Climb(blake, leaves[idx], idx, Path(blake, leaves, idx)) == Root(blake, leaves)
    decreases |leaves|
  {
    if |leaves| > 1 {
      var next := NextLevel(blake, leaves);
      PathClimbsToRoot(blake, next, idx / 2);
      ParentAbsorbsSibling(blake, leaves, idx);
      assert Path(blake, leaves, idx)[1..] == Path(blake, next, idx / 2);
    }
  }

  lemma {:induction false} ParentAbsorbsSibling(blake: Blake, level: seq<Digest>, idx: nat)
    requires idx < |level|
    ensures var own, sib := level[idx], Sibling(level, idx);
      NextLevel(blake, level)[idx / 2] == if idx % 2 == 0 then HashPair(blake, own, sib) else HashPair(blake, sib, own)
  {
    assert NextLevel(blake, level)[idx / 2] == Parent(blake, level, idx / 2);
  }

  /** The proof of a leaf continues, after `k` levels, as the proof of its ancestor there. */
  lemma {:induction false} PathSuffix(blake: Blake, leaves: seq<Digest>, idx: nat, k: nat)
    requires idx < |leaves| && k <= Depth(|leaves|)
    ensures Shr(idx, k) < |Level(blake, leaves, k)|
    ensures k <= |Path(blake, leaves, idx)|
    ensures Path(blake, leaves, idx)[k..] == Path(blake, Level(blake, leaves, k), Shr(idx, k))
    decreases k
  {
    PathLength(blake, leaves, idx);
    if k > 0 {
      var next := NextLevel(blake, leaves);
      PathSuffix(blake, next, idx / 2, k - 1);
      assert Path(blake, leaves, idx)[k..] == Path(blake, next, idx / 2)[k - 1..];
    }
  }

  /** Entry `k` of a proof is the sibling of the leaf's ancestor on level `k`. */
  lemma {:induction false} PathEntry(blake: Blake, leaves: seq<Digest>, idx: nat, k: nat)
    requires idx < |leaves| && k < Depth(|leaves|)
    ensures k < |Path(blake, leaves, idx)|
    ensures Shr(idx, k) < |Level(blake, leaves, k)|
    ensures Path(blake, leaves, idx)[k] == Sibling(Level(blake, leaves, k), Shr(idx, k))
  {
    PathLength(blake, leaves, idx);
    PathSuffix(blake, leaves, idx, k);
    var level := Level(blake, leaves, k);
    LevelCount(blake, leaves, k);
    AboveOneBeforeDepth(|leaves|, k);
    assert Path(blake, leaves, idx)[k] == Path(blake, leaves, idx)[k..][0] == Path(blake, level, Shr(idx, k))[0];
  }
}
