/** What an accepted proof binds, although `verify_merkle` never checks the length of the path
(src/pom.rs:634-642): chunks are hashed as 32-byte inputs and nodes as 64-byte inputs, so a path of
the wrong length confuses a leaf with a node, which is already a collision. */
module MerkleBinding {
  import opened Hashing
  import opened Halving
  import opened Merkle

  function Leaves(blake: Blake, chunks: seq<Digest>): (leaves: seq<Digest>)
    ensures |leaves| == |chunks|
  {
    seq(|chunks|, i requires 0 <= i < |chunks| => blake(chunks[i]))
  }

  /** The 64-byte input hashed into parent `i` of `level`. */
  ghost function ParentInput(level: seq<Digest>, i: nat): Bytes
    requires 2 * i < |level|
  {
    PairInput(level[2 * i], if 2 * i + 1 < |level| then level[2 * i + 1] else level[2 * i])
  }

  ghost function LevelInputs(level: seq<Digest>): set<Bytes> {
    set i | 0 <= i < (|level| + 1) / 2 :: ParentInput(level, i)
  }

  /** Every input hashed while building levels 1 to `k` above `nodes`. */
  ghost function InputsBelow(blake: Blake, nodes: seq<Digest>, k: nat): set<Bytes> {
    if k == 0 then {} else InputsBelow(blake, nodes, k - 1) + LevelInputs(Level(blake, nodes, k - 1))
  }

  /** Every input hashed for a tree of `k` levels above the leaf hashes of `chunks`. */
  ghost function TreeInputs(blake: Blake, chunks: seq<Digest>, k: nat): set<Bytes> {
    (set c | c in chunks) + InputsBelow(blake, Leaves(blake, chunks), k)
  }

  /** The input hashed when a node at index `idx` is joined with its sibling. */
  ghost function JoinInput(acc: Digest, idx: nat, sib: Digest): Bytes {
    if idx % 2 == 0 then PairInput(acc, sib) else PairInput(sib, acc)
  }

  /** Every input hashed while climbing a path. */
  ghost function ClimbInputs(blake: Blake, acc: Digest, idx: nat, path: seq<Digest>): set<Bytes>
    decreases |path|
  {
    if path == [] then {}
    else
      var x := JoinInput(acc, idx, path[0]);
      {x} + ClimbInputs(blake, blake(x), idx / 2, path[1..])
  }

  lemma {:induction false} ClimbInputsAppend(blake: Blake, acc: Digest, idx: nat, p: seq<Digest>, q: seq<Digest>)
    ensures ClimbInputs(blake, acc, idx, p + q)
         == ClimbInputs(blake, acc, idx, p) + ClimbInputs(blake, Climb(blake, acc, idx, p), Shr(idx, |p|), q)
    decreases |p|
  {
    if p == [] {
      assert p + q == q;
    } else {
      assert (p + q)[0] == p[0] && (p + q)[1..] == p[1..] + q;
      ClimbInputsAppend(blake, blake(JoinInput(acc, idx, p[0])), idx / 2, p[1..], q);
    }
  }

  /** The last step of a climb. */
  lemma {:induction false} ClimbSnoc(blake: Blake, acc: Digest, idx: nat, p: seq<Digest>, s: Digest)
    ensures var x := JoinInput(Climb(blake, acc, idx, p), Shr(idx, |p|), s);
      && Climb(blake, acc, idx, p + [s]) == blake(x)
      && ClimbInputs(blake, acc, idx, p + [s]) == ClimbInputs(blake, acc, idx, p) + {x}
  {
    var mid, i := Climb(blake, acc, idx, p), Shr(idx, |p|);
    ClimbAppend(blake, acc, idx, p, [s]);
    ClimbInputsAppend(blake, acc, idx, p, [s]);
    assert [s][1..] == [];
    assert ClimbInputs(blake, mid, i, [s]) == {JoinInput(mid, i, s)};
  }

  lemma {:induction false} InputsBelowMonotone(blake: Blake, nodes: seq<Digest>, j: nat, k: nat)
    requires j <= k
    ensures InputsBelow(blake, nodes, j) <= InputsBelow(blake, nodes, k)
  {
    if j < k {
      InputsBelowMonotone(blake, nodes, j, k - 1);
      var a, b := InputsBelow(blake, nodes, k - 1), LevelInputs(Level(blake, nodes, k - 1));
      assert InputsBelow(blake, nodes, k) == a + b && a <= a + b;
    }
  }

  lemma {:induction false} NodeInput(blake: Blake, nodes: seq<Digest>, j: nat, k: nat, m: nat)
    requires j < k && m < |Level(blake, nodes, j + 1)|
    ensures 2 * m < |Level(blake, nodes, j)|
    ensures Level(blake, nodes, j + 1)[m] == blake(ParentInput(Level(blake, nodes, j), m))
    ensures ParentInput(Level(blake, nodes, j), m) in InputsBelow(blake, nodes, k)
  {
    LevelSucc(blake, nodes, j);
    InputsBelowMonotone(blake, nodes, j + 1, k);
    assert ParentInput(Level(blake, nodes, j), m) in LevelInputs(Level(blake, nodes, j));
  }

  /** One accepted climb, from the top of the tree down: `top` is the level the root sits on and
  `k`, `m` the node the first `|path|` siblings have reached. */
  lemma {:induction false} ClimbBinds(blake: Blake, chunks: seq<Digest>, top: nat, chunk: Digest, idx: nat,
      path: seq<Digest>, k: nat, m: nat)
    requires idx < |chunks| && k <= top
    requires m < |Level(blake, Leaves(blake, chunks), k)|
    requires Climb(blake, blake(chunk), idx, path) == Level(blake, Leaves(blake, chunks), k)[m]
    requires |path| == k ==> m == Shr(idx, k)
    ensures (|path| == k && chunk == chunks[idx])
         || CollisionBetween(blake, {chunk} + ClimbInputs(blake, blake(chunk), idx, path),
           TreeInputs(blake, chunks, top))
    decreases |path|
  {
    var xs, ys := {chunk} + ClimbInputs(blake, blake(chunk), idx, path), TreeInputs(blake, chunks, top);
    var y := NodeBytes(blake, chunks, top, k, m);
    if path == [] {
      if chunk != y {
        assert chunk in xs && Collides(blake, chunk, y);
      }
    } else {
      var n := |path| - 1;
      var p, s := path[..n], path[n];
      assert path == p + [s];
      ClimbSnoc(blake, blake(chunk), idx, p, s);
      var x := JoinInput(Climb(blake, blake(chunk), idx, p), Shr(idx, n), s);
      if x != y {
        assert x in xs && Collides(blake, x, y);
      } else {
        var m' := ClimbDescends(blake, Leaves(blake, chunks), idx, Climb(blake, blake(chunk), idx, p), s, k - 1, m, n);
        ClimbBinds(blake, chunks, top, chunk, idx, p, k - 1, m');
        var xs0 := {chunk} + ClimbInputs(blake, blake(chunk), idx, p);
        if CollisionBetween(blake, xs0, ys) {
          CollisionWidens(blake, xs0, ys, xs, ys);
        }
      }
    }
  }

  /** The input the tree hashed into node `m` of level `k`. */
  lemma {:induction false} NodeBytes(blake: Blake, chunks: seq<Digest>, top: nat, k: nat, m: nat) returns (y: Bytes)
    requires k <= top && m < |Level(blake, Leaves(blake, chunks), k)|
    ensures y in TreeInputs(blake, chunks, top) && blake(y) == Level(blake, Leaves(blake, chunks), k)[m]
    ensures k == 0 ==> m < |chunks| && y == chunks[m]
    ensures k > 0 ==>
      var below := Level(blake, Leaves(blake, chunks), k - 1); 2 * m < |below| && y == ParentInput(below, m)
  {
    if k > 0 {
      NodeInput(blake, Leaves(blake, chunks), k - 1, top, m);
      y := ParentInput(Level(blake, Leaves(blake, chunks), k - 1), m);
    } else {
      y := chunks[m];
    }
  }

  /** Equal inputs one level down: the climbed node is one of the two children. */
  lemma {:induction false} ClimbDescends(blake: Blake, leaves: seq<Digest>, idx: nat, a: Digest, sib: Digest, k: nat,
      m: nat, n: nat) returns (m': nat)
    requires idx < |leaves| && 2 * m < |Level(blake, leaves, k)|
    requires JoinInput(a, Shr(idx, n), sib) == ParentInput(Level(blake, leaves, k), m)
    requires n == k ==> m == Shr(idx, k + 1)
    ensures m' < |Level(blake, leaves, k)| && a == Level(blake, leaves, k)[m']
    ensures n == k ==> m' == Shr(idx, k)
  {
    var level, q := Level(blake, leaves, k), Shr(idx, n);
    var other: nat := if 2 * m + 1 < |level| then 2 * m + 1 else 2 * m;
    m' := if q % 2 == 0 then 2 * m else other;
    if q % 2 == 0 {
      PairInputInjective(a, sib, level[2 * m], level[other]);
    } else {
      PairInputInjective(sib, a, level[2 * m], level[other]);
    }
    if n == k {
      ShrSucc(idx, k);
      ShrInRange(|leaves|, idx, k);
      LevelCount(blake, leaves, k);
    }
  }

  // ---------------------------------------------------------------- tiles

  /** Root of an aligned tile of `Pow2(d)` chunks, as the verifier recomputes it. */
  function TileRoot(blake: Blake, tile: seq<Digest>): Digest
    requires tile != []
  {
    Root(blake, Leaves(blake, tile))
  }

  /** Every input the verifier hashes for one opened tile. */
  ghost function TileInputs(blake: Blake, tile: seq<Digest>, off: nat, path: seq<Digest>): set<Bytes>
    requires tile != []
  {
    TreeInputs(blake, tile, Depth(|tile|)) + ClimbInputs(blake, TileRoot(blake, tile), off, path)
  }

  /** A climb only looks at as many low index bits as the path is long. */
  lemma {:induction false} ClimbLowBits(blake: Blake, acc: Digest, idx: nat, hi: nat, path: seq<Digest>)
    ensures Climb(blake, acc, hi * Pow2(|path|) + idx, path) == Climb(blake, acc, idx, path)
    decreases |path|
  {
    if path != [] {
      var h := hi * Pow2(|path| - 1);
      MulTwo(hi, Pow2(|path| - 1));
      var acc' := if idx % 2 == 0 then HashPair(blake, acc, path[0]) else HashPair(blake, path[0], acc);
      ClimbLowBits(blake, acc', idx / 2, hi, path[1..]);
      assert (2 * h + idx) % 2 == idx % 2 && (2 * h + idx) / 2 == idx / 2 + h;
    }
  }

  /** Two indices with the same low `k` bits. */
  ghost predicate LowBitsAgree(i: nat, idx: nat, k: nat) {
    forall j: nat | j < k :: Shr(i, j) % 2 == Shr(idx, j) % 2
  }

  /** The two nodes a proof step pairs up are the two children of the parent. */
  lemma {:induction false} StepInput(level: seq<Digest>, q: nat, i: nat)
    requires q < |level| && i % 2 == q % 2
    ensures JoinInput(level[q], i, Sibling(level, q)) == ParentInput(level, q / 2)
  {
  }

  /** The siblings of the ancestors of leaf `idx`, bottom up. */
  ghost predicate SiblingsOf(blake: Blake, nodes: seq<Digest>, idx: nat, path: seq<Digest>) {
    forall j: nat | j < |path| :: SiblingAt(blake, nodes, idx, j, path[j])
  }

  ghost predicate SiblingAt(blake: Blake, nodes: seq<Digest>, idx: nat, j: nat, s: Digest) {
    Shr(idx, j) < |Level(blake, nodes, j)| && s == Sibling(Level(blake, nodes, j), Shr(idx, j))
  }

  /** Climbing along a leaf's own siblings stays inside the tree. */
  lemma {:induction false} OwnPathInputs(blake: Blake, nodes: seq<Digest>, idx: nat, i: nat, path: seq<Digest>)
    requires idx < |nodes| && SiblingsOf(blake, nodes, idx, path) && LowBitsAgree(i, idx, |path|)
    ensures Shr(idx, |path|) < |Level(blake, nodes, |path|)|
    ensures Climb(blake, nodes[idx], i, path) == Level(blake, nodes, |path|)[Shr(idx, |path|)]
    ensures ClimbInputs(blake, nodes[idx], i, path) <= InputsBelow(blake, nodes, |path|)
    decreases |path|
  {
    if path != [] {
      var n := |path| - 1;
      var p, s := path[..n], path[n];
      assert path == p + [s];
      OwnPathInputs(blake, nodes, idx, i, p);
      assert SiblingAt(blake, nodes, idx, n, path[n]);
      OwnStepInput(blake, nodes, idx, i, n, s);
      InputsBelowMonotone(blake, nodes, n, n + 1);
      ClimbStaysInside(blake, nodes[idx], i, p, s, InputsBelow(blake, nodes, n), InputsBelow(blake, nodes, n + 1));
    }
  }

  lemma {:induction false} ClimbStaysInside(blake: Blake, acc: Digest, i: nat, p: seq<Digest>, s: Digest,
      below: set<Bytes>, inputs: set<Bytes>)
    requires ClimbInputs(blake, acc, i, p) <= below <= inputs
    requires JoinInput(Climb(blake, acc, i, p), Shr(i, |p|), s) in inputs
    ensures Climb(blake, acc, i, p + [s]) == blake(JoinInput(Climb(blake, acc, i, p), Shr(i, |p|), s))
    ensures ClimbInputs(blake, acc, i, p + [s]) <= inputs
  {
    ClimbSnoc(blake, acc, i, p, s);
  }

  /** The input of the next step of a leaf's own proof is the one the tree hashed there. */
  lemma {:induction false} OwnStepInput(blake: Blake, nodes: seq<Digest>, idx: nat, i: nat, j: nat, s: Digest)
    requires idx < |nodes| && SiblingAt(blake, nodes, idx, j, s) && Shr(i, j) % 2 == Shr(idx, j) % 2
    ensures Shr(idx, j + 1) < |Level(blake, nodes, j + 1)|
    ensures var x := JoinInput(Level(blake, nodes, j)[Shr(idx, j)], Shr(i, j), s);
      blake(x) == Level(blake, nodes, j + 1)[Shr(idx, j + 1)] && x in InputsBelow(blake, nodes, j + 1)
  {
    ShrSucc(idx, j);
    LevelSucc(blake, nodes, j);
    StepInput(Level(blake, nodes, j), Shr(idx, j), Shr(i, j));
    NodeInput(blake, nodes, j, j + 1, Shr(idx, j + 1));
  }

  /** An accepted tile is the tree's own tile at that offset, and its path has the one right length,
  or the verifier and the tree have hashed two different inputs to the same digest. */
  lemma {:induction false} TileBinds(blake: Blake, chunks: seq<Digest>, top: nat, tile: seq<Digest>, d: nat, off: nat,
      path: seq<Digest>, base: nat)
    requires |tile| == Pow2(d) && base == off * |tile| && base + |tile| <= |chunks|
    requires Level(blake, Leaves(blake, chunks), top) == [Climb(blake, TileRoot(blake, tile), off, path)]
    ensures (tile == chunks[base..base + |tile|] && |path| + d == top)
         || CollisionBetween(blake, TileInputs(blake, tile, off, path), TreeInputs(blake, chunks, top))
  {
    if !CollisionBetween(blake, TileInputs(blake, tile, off, path), TreeInputs(blake, chunks, top)) {
      forall c | 0 <= c < |tile| ensures tile[c] == chunks[base + c] && |path| + d == top {
        TileChunkBinds(blake, chunks, top, tile, d, off, path, base, c);
      }
      assert tile[0] == chunks[base];
    }
  }

  lemma {:induction false} TileChunkBinds(blake: Blake, chunks: seq<Digest>, top: nat, tile: seq<Digest>, d: nat,
      off: nat, path: seq<Digest>, base: nat, c: nat)
    requires |tile| == Pow2(d) && base == off * |tile| && base + |tile| <= |chunks| && c < |tile|
    requires Level(blake, Leaves(blake, chunks), top) == [Climb(blake, TileRoot(blake, tile), off, path)]
    ensures (tile[c] == chunks[base + c] && |path| + d == top)
         || CollisionBetween(blake, TileInputs(blake, tile, off, path), TreeInputs(blake, chunks, top))
  {
    var idx: nat, own := base + c, Path(blake, Leaves(blake, tile), c);
    ChunkClimb(blake, tile, d, off, path, c, idx);
    TopIndex(blake, chunks, top, idx);
    ClimbBinds(blake, chunks, top, tile[c], idx, own + path, top, 0);
    var xs, ys := {tile[c]} + ClimbInputs(blake, blake(tile[c]), idx, own + path), TreeInputs(blake, chunks, top);
    if CollisionBetween(blake, xs, ys) {
      CollisionWidens(blake, xs, ys, TileInputs(blake, tile, off, path), ys);
    }
  }

  /** Climbing chunk `c` through its own tile and on along the tile's path. */
  lemma {:induction false} ChunkClimb(blake: Blake, tile: seq<Digest>, d: nat, off: nat, path: seq<Digest>, c: nat,
      idx: nat)
    requires |tile| == Pow2(d) && c < |tile| && idx == off * Pow2(d) + c
    ensures var own := Path(blake, Leaves(blake, tile), c);
      && |own| == d
      && Climb(blake, blake(tile[c]), idx, own + path) == Climb(blake, TileRoot(blake, tile), off, path)
      && {tile[c]} + ClimbInputs(blake, blake(tile[c]), idx, own + path) <= TileInputs(blake, tile, off, path)
  {
    var own := Path(blake, Leaves(blake, tile), c);
    DepthOfPow2(d);
    TileClimb(blake, tile, d, off, c, idx);
    IndexAbove(off, c, d, idx);
    ClimbAppend(blake, blake(tile[c]), idx, own, path);
    ClimbInputsAppend(blake, blake(tile[c]), idx, own, path);
  }

  /** Climbing chunk `c` through its own tile, under its index in the whole tree. */
  lemma {:induction false} TileClimb(blake: Blake, tile: seq<Digest>, d: nat, off: nat, c: nat, idx: nat)
    requires |tile| == Pow2(d) && c < |tile| && idx == off * Pow2(d) + c
    ensures var own := Path(blake, Leaves(blake, tile), c);
      && |own| == d
      && Climb(blake, blake(tile[c]), idx, own) == TileRoot(blake, tile)
      && ClimbInputs(blake, blake(tile[c]), idx, own) <= InputsBelow(blake, Leaves(blake, tile), d)
  {
    DepthOfPow2(d);
    PathLength(blake, Leaves(blake, tile), c);
    TileClimbInputs(blake, tile, d, off, c, idx);
    TileClimbRoot(blake, tile, d, off, c, idx);
  }

  lemma {:induction false} IndexAbove(off: nat, c: nat, d: nat, idx: nat)
    requires c < Pow2(d) && idx == off * Pow2(d) + c
    ensures Shr(idx, d) == off
  {
    ShrDropsLow(off, c, d);
  }

  lemma {:induction false} TileClimbInputs(blake: Blake, tile: seq<Digest>, d: nat, off: nat, c: nat, idx: nat)
    requires Depth(|tile|) == d && c < |tile| && idx == off * Pow2(d) + c
    ensures var own := Path(blake, Leaves(blake, tile), c);
      ClimbInputs(blake, blake(tile[c]), idx, own) <= InputsBelow(blake, Leaves(blake, tile), d)
  {
    var leaves := Leaves(blake, tile);
    var own := Path(blake, leaves, c);
    PathLength(blake, leaves, c);
    SameLowBits(off, c, d, idx);
    forall j: nat | j < |own| ensures SiblingAt(blake, leaves, c, j, own[j]) {
      PathEntry(blake, leaves, c, j);
    }
    OwnPathInputs(blake, leaves, c, idx, own);
  }

  lemma {:induction false} TileClimbRoot(blake: Blake, tile: seq<Digest>, d: nat, off: nat, c: nat, idx: nat)
    requires Depth(|tile|) == d && c < |tile| && idx == off * Pow2(d) + c
    ensures Climb(blake, blake(tile[c]), idx, Path(blake, Leaves(blake, tile), c)) == TileRoot(blake, tile)
  {
    var leaves := Leaves(blake, tile);
    PathLength(blake, leaves, c);
    PathClimbsToRoot(blake, leaves, c);
    ClimbLowBits(blake, blake(tile[c]), c, off, Path(blake, leaves, c));
  }

  lemma {:induction false} SameLowBits(off: nat, c: nat, d: nat, idx: nat)
    requires idx == off * Pow2(d) + c
    ensures LowBitsAgree(idx, c, d)
  {
    forall j: nat | j < d ensures Shr(idx, j) % 2 == Shr(c, j) % 2 {
      ShrLowBits(off, c, d, j);
    }
  }

  lemma {:induction false} TopIndex(blake: Blake, chunks: seq<Digest>, top: nat, idx: nat)
    requires |Level(blake, Leaves(blake, chunks), top)| == 1 && idx < |chunks|
    ensures Shr(idx, top) == 0
  {
    LevelCount(blake, Leaves(blake, chunks), top);
    ShrInRange(|chunks|, idx, top);
  }
}
