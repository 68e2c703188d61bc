/** What the three runs of the walk owe each other: a proof built from the index always verifies to
the walked value, and a proof that verifies is the index's own, whoever built it. */
module WalkTheorems {
  import opened Hashing
  import opened Halving
  import opened Merkle
  import opened MerkleBinding
  import opened Gguf
  import opened SparseIndex
  import opened WeightIndexes
  import opened PadSchedule
  import opened PossessionWalk
  import opened WalkRuns
  import opened Outcomes

  // ---------------------------------------------------------------- completeness

  /** An aligned tile's own root is its node of the chunk tree. */
  lemma {:induction false} TileRootIsNode(blake: Blake, chunks: seq<Digest>, tile: seq<Digest>, d: nat, off: nat,
      lo: nat)
    requires |tile| == Pow2(d) && lo == off * |tile| && lo + |tile| <= |chunks| && tile == chunks[lo..lo + |tile|]
    ensures off < |Level(blake, Leaves(blake, chunks), d)|
    ensures TileRoot(blake, tile) == Level(blake, Leaves(blake, chunks), d)[off]
  {
    var leaves := Leaves(blake, chunks);
    MulSucc(off, |tile|);
    NodeIsFoldOfBatch(blake, leaves, off, d);
    assert leaves[lo..lo + |tile|] == Leaves(blake, tile);
    DepthOfPow2(d);
    RootIsTopLevel(blake, Leaves(blake, tile));
  }

  /** The cut index path carries the tile's root to the dense root. */
  lemma {:induction false} CutPathClimbs(blake: Blake, chunks: seq<Digest>, tile: seq<Digest>, d: nat, off: nat,
      lo: nat)
    requires |tile| == Pow2(d) && lo == off * |tile| && lo + |tile| <= |chunks| && tile == chunks[lo..lo + |tile|]
    requires d <= Depth(|chunks|)
    ensures d <= |Path(blake, Leaves(blake, chunks), lo)|
    ensures Climb(blake, TileRoot(blake, tile), off, Path(blake, Leaves(blake, chunks), lo)[d..])
      == Root(blake, Leaves(blake, chunks))
  {
    var leaves := Leaves(blake, chunks);
    TileRootIsNode(blake, chunks, tile, d, off, lo);
    assert Shr(lo, d) == off by { ShrDropsLow(off, 0, d); }
    PathSuffix(blake, leaves, lo, d);
    PathClimbsToRoot(blake, Level(blake, leaves, d), off);
    RootOfLevel(blake, leaves, d);
  }

  /** Every level of a tree has its root. */
  lemma {:induction false} RootOfLevel(blake: Blake, leaves: seq<Digest>, d: nat)
    requires leaves != [] && d <= Depth(|leaves|)
    ensures Level(blake, leaves, d) != [] && Root(blake, Level(blake, leaves, d)) == Root(blake, leaves)
  {
    var level := Level(blake, leaves, d);
    LevelCount(blake, leaves, d);
    CountAtBounds(|leaves|, d);
    DepthSplit(|leaves|, d);
    LevelAdd(blake, leaves, d, Depth(|level|));
    RootIsTopLevel(blake, leaves);
    RootIsTopLevel(blake, level);
  }

  lemma {:induction false} WeightTileChunks(chunks: seq<Digest>, off: nat)
    requires off < WeightTiles(chunks)
    ensures Chunks(WeightTile(chunks, off)) == chunks[32 * off..32 * off + 32]
  {
    ChunksOfFlat(chunks[32 * off..32 * off + 32]);
  }

  /** A tile of the index with its range path passes the check exactly when the root it is checked
  against is the dense root. */
  lemma {:induction false} WeightStepAccepted(p: Primitives, chunks: seq<Digest>, rT: Digest, off: nat)
    requires off < WeightTiles(chunks)
    ensures TILE_SUBTREE_DEPTH <= |Path(p.blake, Leaves(p.blake, chunks), 32 * off)|
    ensures StepAccepted(p, WeightTiles(chunks), rT, off, WeightTile(chunks, off),
      Path(p.blake, Leaves(p.blake, chunks), 32 * off)[TILE_SUBTREE_DEPTH..])
      <==> rT == Root(p.blake, Leaves(p.blake, chunks))
  {
    WeightTileChunks(chunks, off);
    DepthOfTiles(|chunks|);
    assert Pow2(5) == 32;
    CutPathClimbs(p.blake, chunks, chunks[32 * off..32 * off + 32], 5, off, 32 * off);
  }

  lemma {:induction false} HonestStepAccepted(p: Primitives, era: Era, seed: nat, chunks: seq<Digest>, n: nat,
      tile: Bytes, path: seq<Digest>)
    requires HasTiles(era, WeightTiles(chunks)) && n < WALK_STEPS
    requires HonestStep(p, era, seed, chunks, n, tile, path)
    ensures StepAccepted(p, WeightTiles(chunks), Root(p.blake, Leaves(p.blake, chunks)),
      HonestOffset(p, era, seed, chunks, n), tile, path)
  {
    var off := HonestOffset(p, era, seed, chunks, n);
    if off < WeightTiles(chunks) {
      WeightStepAccepted(p, chunks, Root(p.blake, Leaves(p.blake, chunks)), off);
    }
  }

  /** Checked against the dense root, an honest proof opens exactly the tiles of the honest walk. */
  lemma {:induction false} HonestOpens(p: Primitives, era: Era, seed: nat, chunks: seq<Digest>, rT: Digest,
      proof: WalkProof, n: nat)
    requires HonestProof(p, era, seed, chunks, proof) && n <= WALK_STEPS && rT == Root(p.blake, Leaves(p.blake, chunks))
    ensures Opened(p, era, seed, WeightTiles(chunks), rT, proof, n) == Some(HonestTiles(p, era, seed, chunks, n))
    decreases n
  {
    if n > 0 {
      HonestOpens(p, era, seed, chunks, rT, proof, n - 1);
      HonestOpensNext(p, era, seed, chunks, rT, proof, n - 1);
    }
  }

  lemma {:induction false} HonestOpensNext(p: Primitives, era: Era, seed: nat, chunks: seq<Digest>, rT: Digest,
      proof: WalkProof, n: nat)
    requires HonestProof(p, era, seed, chunks, proof) && n < WALK_STEPS && rT == Root(p.blake, Leaves(p.blake, chunks))
    requires Opened(p, era, seed, WeightTiles(chunks), rT, proof, n) == Some(HonestTiles(p, era, seed, chunks, n))
    ensures Opened(p, era, seed, WeightTiles(chunks), rT, proof, n + 1)
      == Some(HonestTiles(p, era, seed, chunks, n + 1))
  {
    assert HonestStep(p, era, seed, chunks, n, proof.tiles[n], proof.merkle[n]);
    HonestStepAccepted(p, era, seed, chunks, n, proof.tiles[n], proof.merkle[n]);
    NextAgrees(p, era, seed, chunks, rT, proof, n);
  }

  /** Where the walk is at after the first `n` honest steps. */
  ghost function HonestOffset(p: Primitives, era: Era, seed: nat, chunks: seq<Digest>, n: nat): nat
    requires HasTiles(era, WeightTiles(chunks)) && n <= WALK_STEPS
  {
    Replay(p, era, seed, WeightTiles(chunks), HonestTiles(p, era, seed, chunks, n)).off
  }

  /** One more accepted step that opens the index's own tile. */
  lemma {:induction false} NextAgrees(p: Primitives, era: Era, seed: nat, chunks: seq<Digest>, rT: Digest,
      proof: WalkProof, n: nat)
    requires HasTiles(era, WeightTiles(chunks)) && Shaped(proof) && n < WALK_STEPS
    requires Opened(p, era, seed, WeightTiles(chunks), rT, proof, n) == Some(HonestTiles(p, era, seed, chunks, n))
    requires var off := HonestOffset(p, era, seed, chunks, n);
      && StepAccepted(p, WeightTiles(chunks), rT, off, proof.tiles[n], proof.merkle[n])
      && (off < WeightTiles(chunks) ==> proof.tiles[n] == WeightTile(chunks, off))
    ensures Opened(p, era, seed, WeightTiles(chunks), rT, proof, n + 1)
      == Some(HonestTiles(p, era, seed, chunks, n + 1))
  {
    OpenedStep(p, era, seed, WeightTiles(chunks), rT, proof, HonestTiles(p, era, seed, chunks, n));
    NextHonestTile(p, era, seed, chunks, n);
  }

  /** Completeness. The proof built from an index verifies, to the value of the pre-check walk, exactly
  when the index's recorded root is the dense root of its chunks; otherwise it is refused. */
  lemma {:induction false} BuiltProofVerifies(p: Primitives, k: nat, era: Era, seed: nat, idx: WeightIndex,
      chunks: seq<Digest>, proof: WalkProof)
    requires IndexOf(p.blake, k, idx, chunks) && HonestProof(p, era, seed, chunks, proof)
    ensures Walked(p, era, seed, chunks).Some?
    ensures Verified(p, era, seed, idx.rT, idx.nChunks, proof)
         == if idx.rT == Root(p.blake, Leaves(p.blake, chunks)) then Walked(p, era, seed, chunks) else None
  {
    if idx.rT == Root(p.blake, Leaves(p.blake, chunks)) {
      HonestOpens(p, era, seed, chunks, idx.rT, proof, WALK_STEPS);
    } else {
      OtherRootRefuses(p, era, seed, chunks, idx.rT, proof);
    }
  }

  /** Against any other root already the first step is refused. */
  lemma {:induction false} OtherRootRefuses(p: Primitives, era: Era, seed: nat, chunks: seq<Digest>, rT: Digest,
      proof: WalkProof)
    requires HonestProof(p, era, seed, chunks, proof)
    requires rT != Root(p.blake, Leaves(p.blake, chunks))
    ensures Opened(p, era, seed, WeightTiles(chunks), rT, proof, WALK_STEPS) == None
  {
    var w := WeightTiles(chunks);
    var off := Replay(p, era, seed, w, HonestTiles(p, era, seed, chunks, 0)).off;
    assert HonestStep(p, era, seed, chunks, 0, proof.tiles[0], proof.merkle[0]);
    WeightStepAccepted(p, chunks, rT, off);
    assert Opened(p, era, seed, w, rT, proof, 0) == Some([]);
    RefusedStays(p, era, seed, w, rT, proof, 1, WALK_STEPS);
  }

  /** The shipped interval is 6. A walk needs 32 chunks and the recorded root is the dense one above 32,
  so 32 chunks is the one size at which a built proof can be refused. */
  lemma {:induction false} OnlyThirtyTwo(p: Primitives, era: Era, seed: nat, idx: WeightIndex, chunks: seq<Digest>,
      proof: WalkProof)
    requires IndexOf(p.blake, CHECKPOINT_INTERVAL, idx, chunks) && HonestProof(p, era, seed, chunks, proof)
    ensures Verified(p, era, seed, idx.rT, idx.nChunks, proof) != Walked(p, era, seed, chunks) ==> |chunks| == 32
  {
    IndexRoot(p.blake, CHECKPOINT_INTERVAL, idx, chunks);
    BuiltProofVerifies(p, CHECKPOINT_INTERVAL, era, seed, idx, chunks, proof);
    assert Pow2(5) == 32;
  }

  /** And there it can be: under the successor hash every walk over 32 chunks has a value, in both eras,
  and every proof built for it is refused. */
  lemma {:induction false} WinnerDropped(p: Primitives, era: Era, seed: nat, idx: WeightIndex, chunks: seq<Digest>,
      proof: WalkProof)
    requires |chunks| == 32 && IndexOf(SuccessorHash, CHECKPOINT_INTERVAL, idx, chunks)
    requires HonestProof(p.(blake := SuccessorHash), era, seed, chunks, proof)
    ensures Walked(p.(blake := SuccessorHash), era, seed, chunks).Some?
    ensures Verified(p.(blake := SuccessorHash), era, seed, idx.rT, idx.nChunks, proof) == None
  {
    assert Pow2(5) == 32;
    SmallRootsDiffer(CHECKPOINT_INTERVAL, idx, chunks);
    BuiltProofVerifies(p.(blake := SuccessorHash), CHECKPOINT_INTERVAL, era, seed, idx, chunks, proof);
  }

  // ---------------------------------------------------------------- binding

  /** Every input the verifier hashes for the range proofs of the first `n` steps. */
  ghost function ProofInputs(p: Primitives, era: Era, seed: nat, w: nat, rT: Digest, proof: WalkProof,
      n: nat): set<Bytes>
    requires HasTiles(era, w) && Shaped(proof) && n <= WALK_STEPS
    decreases n, proof
  {
    if n == 0 then {}
    else
      match Opened(p, era, seed, w, rT, proof, n - 1)
      case None => {}
      case Some(before) =>
        var off := Replay(p, era, seed, w, before).off;
        ProofInputs(p, era, seed, w, rT, proof, n - 1)
        + if off < w && |proof.tiles[n - 1]| == TILE_BYTES then
            TileInputs(p.blake, Chunks(proof.tiles[n - 1]), off, proof.merkle[n - 1])
          else {}
  }

  /** Every input hashed while the index was built. */
  ghost function IndexInputs(p: Primitives, k: nat, chunks: seq<Digest>): set<Bytes> {
    TreeInputs(p.blake, chunks, Top(k, |chunks|))
  }

  lemma {:induction false} TileOfChunksBinds(blake: Blake, chunks: seq<Digest>, top: nat, tile: seq<Digest>, off: nat,
      path: seq<Digest>)
    requires |tile| == 32 && 32 * off + 32 <= |chunks|
    requires Level(blake, Leaves(blake, chunks), top) == [Climb(blake, TileRoot(blake, tile), off, path)]
    ensures tile == chunks[32 * off..32 * off + 32]
      || CollisionBetween(blake, TileInputs(blake, tile, off, path), TreeInputs(blake, chunks, top))
  {
    assert Pow2(5) == 32;
    TileBinds(blake, chunks, top, tile, 5, off, path, 32 * off);
  }

  /** A tile that passes the check at a weight offset is the index's tile there, or a collision. */
  lemma {:induction false} WeightStepBinds(p: Primitives, k: nat, idx: WeightIndex, chunks: seq<Digest>, off: nat,
      tile: Bytes, path: seq<Digest>)
    requires IndexOf(p.blake, k, idx, chunks) && off < WeightTiles(chunks)
    requires StepAccepted(p, WeightTiles(chunks), idx.rT, off, tile, path)
    ensures tile == WeightTile(chunks, off)
      || CollisionBetween(p.blake, TileInputs(p.blake, Chunks(tile), off, path), IndexInputs(p, k, chunks))
  {
    TileOfChunksBinds(p.blake, chunks, Top(k, |chunks|), Chunks(tile), off, path);
    FlatOfChunks(tile);
  }

  lemma {:induction false} OpenedIsHonest(p: Primitives, k: nat, era: Era, seed: nat, idx: WeightIndex,
      chunks: seq<Digest>, proof: WalkProof, n: nat)
    requires IndexOf(p.blake, k, idx, chunks)
    requires HasTiles(era, WeightTiles(chunks)) && Shaped(proof) && n <= WALK_STEPS
    requires Opened(p, era, seed, WeightTiles(chunks), idx.rT, proof, n).Some?
    ensures Opened(p, era, seed, WeightTiles(chunks), idx.rT, proof, n) == Some(HonestTiles(p, era, seed, chunks, n))
      || CollisionBetween(p.blake, ProofInputs(p, era, seed, WeightTiles(chunks), idx.rT, proof, n),
        IndexInputs(p, k, chunks))
    decreases n
  {
    if n > 0 {
      var w, ys := WeightTiles(chunks), IndexInputs(p, k, chunks);
      InputsGrow(p, era, seed, w, idx.rT, proof, n);
      OpenedIsHonest(p, k, era, seed, idx, chunks, proof, n - 1);
      var xs0 := ProofInputs(p, era, seed, w, idx.rT, proof, n - 1);
      if CollisionBetween(p.blake, xs0, ys) {
        CollisionWidens(p.blake, xs0, ys, ProofInputs(p, era, seed, w, idx.rT, proof, n), ys);
      } else {
        NextOpenedIsHonest(p, k, era, seed, idx, chunks, proof, n - 1);
      }
    }
  }

  lemma {:induction false} InputsGrow(p: Primitives, era: Era, seed: nat, w: nat, rT: Digest, proof: WalkProof, n: nat)
    requires HasTiles(era, w) && Shaped(proof) && 0 < n <= WALK_STEPS && Opened(p, era, seed, w, rT, proof, n).Some?
    ensures Opened(p, era, seed, w, rT, proof, n - 1).Some?
    ensures ProofInputs(p, era, seed, w, rT, proof, n - 1) <= ProofInputs(p, era, seed, w, rT, proof, n)
  {
  }

  lemma {:induction false} NextOpenedIsHonest(p: Primitives, k: nat, era: Era, seed: nat, idx: WeightIndex,
      chunks: seq<Digest>, proof: WalkProof, n: nat)
    requires IndexOf(p.blake, k, idx, chunks)
    requires HasTiles(era, WeightTiles(chunks)) && Shaped(proof) && n < WALK_STEPS
    requires Opened(p, era, seed, WeightTiles(chunks), idx.rT, proof, n) == Some(HonestTiles(p, era, seed, chunks, n))
    requires Opened(p, era, seed, WeightTiles(chunks), idx.rT, proof, n + 1).Some?
    ensures Opened(p, era, seed, WeightTiles(chunks), idx.rT, proof, n + 1)
      == Some(HonestTiles(p, era, seed, chunks, n + 1))
      || CollisionBetween(p.blake, ProofInputs(p, era, seed, WeightTiles(chunks), idx.rT, proof, n + 1),
        IndexInputs(p, k, chunks))
  {
    var w, before := WeightTiles(chunks), HonestTiles(p, era, seed, chunks, n);
    var off, tile, path := HonestOffset(p, era, seed, chunks, n), proof.tiles[n], proof.merkle[n];
    OpenedStep(p, era, seed, w, idx.rT, proof, before);
    if off >= w || tile == WeightTile(chunks, off) {
      NextAgrees(p, era, seed, chunks, idx.rT, proof, n);
    } else {
      WeightStepBinds(p, k, idx, chunks, off, tile, path);
      StepInputsCounted(p, era, seed, w, idx.rT, proof, before);
      var own, ys := TileInputs(p.blake, Chunks(tile), off, path), IndexInputs(p, k, chunks);
      CollisionWidens(p.blake, own, ys, ProofInputs(p, era, seed, w, idx.rT, proof, n + 1), ys);
    }
  }

  lemma {:induction false} StepInputsCounted(p: Primitives, era: Era, seed: nat, w: nat, rT: Digest, proof: WalkProof,
      before: seq<Tile>)
    requires HasTiles(era, w) && Shaped(proof) && |before| < WALK_STEPS
    requires Opened(p, era, seed, w, rT, proof, |before|) == Some(before)
    ensures var n, off := |before|, Replay(p, era, seed, w, before).off;
      off < w && |proof.tiles[n]| == TILE_BYTES ==>
        TileInputs(p.blake, Chunks(proof.tiles[n]), off, proof.merkle[n])
        <= ProofInputs(p, era, seed, w, rT, proof, n + 1)
  {
  }

  /** Soundness. Whatever the proof, if it verifies against an index's root then it yields the value
  of the honest walk and every tile it opens is the index's tile at the walked offset, unless the
  verifier hashed an input that collides with one the index hashed. Holds for every chunk count. */
  lemma {:induction false} VerifiedProofIsHonest(p: Primitives, k: nat, era: Era, seed: nat, idx: WeightIndex,
      chunks: seq<Digest>, proof: WalkProof)
    requires IndexOf(p.blake, k, idx, chunks)
    requires Verified(p, era, seed, idx.rT, idx.nChunks, proof).Some?
    ensures
      || (Verified(p, era, seed, idx.rT, idx.nChunks, proof) == Walked(p, era, seed, chunks)
          && forall i | 0 <= i < WALK_STEPS :: OpensIndexTile(p, era, seed, chunks, proof, i))
      || CollisionBetween(p.blake, ProofInputs(p, era, seed, WeightTiles(chunks), idx.rT, proof, WALK_STEPS),
        IndexInputs(p, k, chunks))
  {
    OpenedIsHonest(p, k, era, seed, idx, chunks, proof, WALK_STEPS);
    if Opened(p, era, seed, WeightTiles(chunks), idx.rT, proof, WALK_STEPS)
      == Some(HonestTiles(p, era, seed, chunks, WALK_STEPS)) {
      forall i | 0 <= i < WALK_STEPS ensures OpensIndexTile(p, era, seed, chunks, proof, i) {
        HonestOpening(p, era, seed, chunks, idx.rT, proof, i, WALK_STEPS);
      }
    }
  }

  lemma {:induction false} HonestOpening(p: Primitives, era: Era, seed: nat, chunks: seq<Digest>, rT: Digest,
      proof: WalkProof, i: nat, n: nat)
    requires HasTiles(era, WeightTiles(chunks)) && Shaped(proof) && i < n <= WALK_STEPS
    requires Opened(p, era, seed, WeightTiles(chunks), rT, proof, n) == Some(HonestTiles(p, era, seed, chunks, n))
    ensures OpensIndexTile(p, era, seed, chunks, proof, i)
  {
    OpenedPrefix(p, era, seed, chunks, rT, proof, i + 1, n);
    OpenedPrefix(p, era, seed, chunks, rT, proof, i, n);
    var w, before := WeightTiles(chunks), HonestTiles(p, era, seed, chunks, i);
    var off := Replay(p, era, seed, w, before).off;
    OpenedStep(p, era, seed, w, rT, proof, before);
    NextHonestTile(p, era, seed, chunks, i);
    assert (before + [OpenedTile(p, era, w, off, proof.tiles[i])])[i] == (before + [TileAt(p, era, chunks, off)])[i];
  }

  /** Position `i` opens the index's tile at the walked offset; a pad position opens nothing. */
  ghost predicate OpensIndexTile(p: Primitives, era: Era, seed: nat, chunks: seq<Digest>, proof: WalkProof, i: nat)
    requires HasTiles(era, WeightTiles(chunks)) && Shaped(proof) && i < WALK_STEPS
  {
    var off := Replay(p, era, seed, WeightTiles(chunks), HonestTiles(p, era, seed, chunks, i)).off;
    proof.tiles[i] == if off < WeightTiles(chunks) then WeightTile(chunks, off) else []
  }

  lemma {:induction false} OpenedPrefix(p: Primitives, era: Era, seed: nat, chunks: seq<Digest>, rT: Digest,
      proof: WalkProof, i: nat, n: nat)
    requires HasTiles(era, WeightTiles(chunks)) && Shaped(proof) && i <= n <= WALK_STEPS
    requires Opened(p, era, seed, WeightTiles(chunks), rT, proof, n) == Some(HonestTiles(p, era, seed, chunks, n))
    ensures Opened(p, era, seed, WeightTiles(chunks), rT, proof, i) == Some(HonestTiles(p, era, seed, chunks, i))
    decreases n
  {
    if i < n {
      var a, b := Opened(p, era, seed, WeightTiles(chunks), rT, proof, n - 1), HonestTiles(p, era, seed, chunks, n - 1);
      assert a.value == Opened(p, era, seed, WeightTiles(chunks), rT, proof, n).value[..n - 1];
      assert b == HonestTiles(p, era, seed, chunks, n)[..n - 1];
      OpenedPrefix(p, era, seed, chunks, rT, proof, i, n - 1);
    }
  }
}
