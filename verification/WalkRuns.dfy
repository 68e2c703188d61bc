/** The three runs of the walk, in both eras, as the miner's loops (src/pom_v4.rs:87-163,
src/pom_v5.rs:142-228). The v5 `walk` takes its tile source as a closure; each of its three uses is
written out with the closure in place. */
module WalkRuns {
  import opened Hashing
  import opened Halving
  import opened Merkle
  import opened MerkleBinding
  import opened Gguf
  import opened WeightIndexes
  import opened PadSchedule
  import opened PossessionWalk
  import opened WalkTraces
  import opened Outcomes

  /** A failable run returns exactly what the reference says. */
  ghost predicate Agrees<T>(r: Result<T>, spec: Option<T>) {
    match spec
    case None => r.Err?
    case Some(v) => r == Ok(v)
  }

  /** Position `i` of a proof built from the index. */
  ghost predicate HonestStep(p: Primitives, era: Era, seed: nat, chunks: seq<Digest>, i: nat, tile: Bytes,
      path: seq<Digest>)
    requires HasTiles(era, WeightTiles(chunks)) && i < WALK_STEPS
  {
    var off := Replay(p, era, seed, WeightTiles(chunks), HonestTiles(p, era, seed, chunks, i)).off;
    if off < WeightTiles(chunks) then
      && tile == WeightTile(chunks, off)
      && TILE_SUBTREE_DEPTH <= |Path(p.blake, Leaves(p.blake, chunks), 32 * off)|
      && path == Path(p.blake, Leaves(p.blake, chunks), 32 * off)[TILE_SUBTREE_DEPTH..]
    else tile == [] && path == []
  }

  ghost predicate HonestSteps(p: Primitives, era: Era, seed: nat, chunks: seq<Digest>, tiles: seq<Bytes>,
      merkle: seq<seq<Digest>>)
    requires HasTiles(era, WeightTiles(chunks))
  {
    && |tiles| == |merkle| <= WALK_STEPS
    && forall i | 0 <= i < |tiles| :: HonestStep(p, era, seed, chunks, i, tiles[i], merkle[i])
  }

  ghost predicate HonestProof(p: Primitives, era: Era, seed: nat, chunks: seq<Digest>, proof: WalkProof) {
    HasTiles(era, WeightTiles(chunks)) && Shaped(proof) && HonestSteps(p, era, seed, chunks, proof.tiles, proof.merkle)
  }

  /** The proof opens the tiles of the trace, with their cut paths, and nothing at pad positions. */
  ghost predicate Along(blake: Blake, chunks: seq<Digest>, t: Trace, proof: WalkProof) {
    && |t.tiles| == |t.offs| == |proof.tiles| == |proof.merkle| == 256
    && forall i: nat | i < 256 :: OpenedAlong(blake, chunks, t.offs[i], t.tiles[i], proof.tiles[i], proof.merkle[i])
  }

  ghost predicate OpenedAlong(blake: Blake, chunks: seq<Digest>, off: nat, tile: Tile, opened': Bytes,
      path: seq<Digest>)
  {
    if off < |chunks| / 32 then
      && opened' == tile
      && 5 <= |Path(blake, Leaves(blake, chunks), 32 * off)|
      && path == Path(blake, Leaves(blake, chunks), 32 * off)[5..]
    else opened' == [] && path == []
  }

  ghost predicate BuildsTo(p: Primitives, era: Era, seed: nat, chunks: seq<Digest>, proof: WalkProof, value: nat) {
    exists t :: IndexTrace(p, era, seed, chunks, t) && Along(p.blake, chunks, t, proof)
      && value == FoldedRoot(p.blake, t.states[256])
  }

  /** A proof built from the index follows the one trace over it. */
  lemma {:induction false} HonestAlong(p: Primitives, era: Era, seed: nat, chunks: seq<Digest>, proof: WalkProof,
      value: nat)
    requires HonestProof(p, era, seed, chunks, proof) && Walked(p, era, seed, chunks) == Some(value)
    ensures BuildsTo(p, era, seed, chunks, proof, value)
  {
    WalkedIsTraced(p, era, seed, chunks, value);
    var t :| IndexTrace(p, era, seed, chunks, t) && value == FoldedRoot(p.blake, t.states[256]);
    OneTrace(p, era, seed, chunks, t);
    forall i: nat | i < 256
      ensures OpenedAlong(p.blake, chunks, t.offs[i], t.tiles[i], proof.tiles[i], proof.merkle[i])
    {
      assert HonestStep(p, era, seed, chunks, i, proof.tiles[i], proof.merkle[i]);
      HonestTileAt(p, era, seed, chunks, i);
      assert IndexTile(p, era, chunks, t.offs[i], t.tiles[i]);
      if t.offs[i] < WeightTiles(chunks) {
        IndexTileIs(p, era, chunks, t.offs[i], t.tiles[i]);
      }
    }
  }

  lemma {:induction false} HonestStepsGrow(p: Primitives, era: Era, seed: nat, chunks: seq<Digest>, tiles: seq<Bytes>,
      merkle: seq<seq<Digest>>, tile: Bytes, path: seq<Digest>)
    requires HasTiles(era, WeightTiles(chunks)) && HonestSteps(p, era, seed, chunks, tiles, merkle)
      && |tiles| < WALK_STEPS
    requires HonestStep(p, era, seed, chunks, |tiles|, tile, path)
    ensures HonestSteps(p, era, seed, chunks, tiles + [tile], merkle + [path])
  {
    var tiles', merkle' := tiles + [tile], merkle + [path];
    forall i | 0 <= i < |tiles'| ensures HonestStep(p, era, seed, chunks, i, tiles'[i], merkle'[i]) {
      if i < |tiles| {
        assert HonestStep(p, era, seed, chunks, i, tiles[i], merkle[i]);
        assert tiles'[i] == tiles[i] && merkle'[i] == merkle[i];
      } else {
        assert tiles'[i] == tile && merkle'[i] == path;
      }
    }
  }

  /** 32 chunk reads, concatenated. */
  method ReadTile(idx: WeightIndex, ghost chunks: seq<Digest>, off: nat) returns (tile: Tile)
    requires Locates(idx.file, idx.table, chunks) && off < WeightTiles(chunks)
    ensures tile == WeightTile(chunks, off)
  {
    var bytes: Bytes := [];
    for c := 0 to TILE_CHUNKS
      invariant bytes == Flat(chunks[32 * off..32 * off + c])
    {
      var chunk := ReadChunkBytes(idx.file, idx.table, chunks, off * TILE_CHUNKS + c);
      ghost var next := chunks[32 * off..32 * off + c + 1];
      assert next[..c] == chunks[32 * off..32 * off + c] && next[c] == chunk;
      bytes := bytes + chunk;
    }
    tile := bytes;
  }

  /** The index path of a tile's first chunk, without the levels inside the tile. */
  method RangePath(blake: Blake, k: nat, idx: WeightIndex, ghost chunks: seq<Digest>, off: nat)
    returns (path: seq<Digest>)
    requires IndexOf(blake, k, idx, chunks) && off < WeightTiles(chunks)
    ensures TILE_SUBTREE_DEPTH <= |Path(blake, Leaves(blake, chunks), 32 * off)|
    ensures path == Path(blake, Leaves(blake, chunks), 32 * off)[TILE_SUBTREE_DEPTH..]
  {
    TilePathLength(blake, chunks, off);
    var full := MerklePath(blake, k, idx, chunks, off * TILE_CHUNKS);
    path := full[TILE_SUBTREE_DEPTH..];
  }

  lemma {:induction false} TilePathLength(blake: Blake, chunks: seq<Digest>, off: nat)
    requires off < WeightTiles(chunks)
    ensures TILE_SUBTREE_DEPTH <= |Path(blake, Leaves(blake, chunks), 32 * off)|
  {
    PathLength(blake, Leaves(blake, chunks), 32 * off);
    DepthOfTiles(|chunks|);
  }

  lemma {:induction false} DepthOfTiles(n: nat)
    requires n / 32 > 0
    ensures Depth(n) >= 5
  {
    DepthAtLeast(n, 4);
    assert Pow2(4) == 16;
  }

  // ---------------------------------------------------------------- era v4

  method WalkFinalV4(p: Primitives, k: nat, seed: nat, idx: WeightIndex, ghost chunks: seq<Digest>)
    returns (r: Result<nat>)
    requires IndexOf(p.blake, k, idx, chunks)
    ensures Agrees(r, Walked(p, V4, seed, chunks))
    ensures r.Ok? <==> |chunks| >= 32
    ensures r.Ok? ==> WalksTo(p, V4, seed, chunks, r.value)
  {
    var nTiles := idx.nChunks / TILE_CHUNKS;
    if nTiles == 0 {
      return Err("blob too small for the v4 walk");
    }
    var state: Tile, off: nat := p.initialState(seed), p.firstHash(seed) % nTiles;
    for step := 1 to WALK_STEPS + 1
      invariant Walker(state, off) == Replay(p, V4, seed, nTiles, HonestTiles(p, V4, seed, chunks, step - 1))
    {
      OffsetClass(p, V4, seed, nTiles, HonestTiles(p, V4, seed, chunks, step - 1));
      var tile := ReadTile(idx, chunks, off);
      HonestGrows(p, V4, seed, chunks, step);
      state, off := AdvanceV4(p, seed, nTiles, state, off, tile, step);
    }
    r := Ok(Finish(p, state));
    WalkedIsTraced(p, V4, seed, chunks, r.value);
  }

  /** One more honest tile is one more step of the walk. */
  lemma {:induction false} HonestGrows(p: Primitives, era: Era, seed: nat, chunks: seq<Digest>, n: nat)
    requires HasTiles(era, WeightTiles(chunks)) && 1 <= n <= WALK_STEPS
    ensures var w, before := WeightTiles(chunks), HonestTiles(p, era, seed, chunks, n - 1);
      && (era.V4? ==> Replay(p, era, seed, w, before).off < w)
      && Replay(p, era, seed, w, HonestTiles(p, era, seed, chunks, n))
         == Step(p, era, seed, w, Replay(p, era, seed, w, before),
           TileAt(p, era, chunks, Replay(p, era, seed, w, before).off), n)
  {
    var before, now := HonestTiles(p, era, seed, chunks, n - 1), HonestTiles(p, era, seed, chunks, n);
    OffsetClass(p, era, seed, WeightTiles(chunks), before);
    assert now[..n - 1] == before;
  }

  method BuildProofV4(p: Primitives, k: nat, tier: nat, seed: nat, idx: WeightIndex, ghost chunks: seq<Digest>)
    returns (r: Result<(WalkProof, nat)>)
    requires IndexOf(p.blake, k, idx, chunks)
    ensures r.Ok? <==> Walked(p, V4, seed, chunks).Some?
    ensures r.Ok? ==> Walked(p, V4, seed, chunks) == Some(r.value.1)
    ensures r.Ok? ==> BuildsTo(p, V4, seed, chunks, r.value.0, r.value.1)
    ensures r.Ok? ==> r.value.0.tier == tier && HonestProof(p, V4, seed, chunks, r.value.0)
  {
    var nTiles := idx.nChunks / TILE_CHUNKS;
    if nTiles == 0 {
      return Err("blob too small for the v4 walk");
    }
    var state: Tile, off: nat := p.initialState(seed), p.firstHash(seed) % nTiles;
    var tiles: seq<Bytes>, merkle: seq<seq<Digest>> := [], [];
    for step := 1 to WALK_STEPS + 1
      invariant Walker(state, off) == Replay(p, V4, seed, nTiles, HonestTiles(p, V4, seed, chunks, step - 1))
      invariant |tiles| == step - 1 && HonestSteps(p, V4, seed, chunks, tiles, merkle)
    {
      OffsetClass(p, V4, seed, nTiles, HonestTiles(p, V4, seed, chunks, step - 1));
      var tile := ReadTile(idx, chunks, off);
      var path := RangePath(p.blake, k, idx, chunks, off);
      HonestGrows(p, V4, seed, chunks, step);
      HonestStepsGrow(p, V4, seed, chunks, tiles, merkle, tile, path);
      tiles, merkle := tiles + [tile], merkle + [path];
      state, off := AdvanceV4(p, seed, nTiles, state, off, tile, step);
    }
    r := Ok((WalkProof(tier, tiles, merkle), Finish(p, state)));
    HonestAlong(p, V4, seed, chunks, r.value.0, r.value.1);
  }

  /** A verifier that has accepted `used` and stands at `at`. */
  ghost predicate Verifying(p: Primitives, era: Era, seed: nat, w: nat, rT: Digest, proof: WalkProof, used: seq<Tile>,
      at: Walker)
  {
    && HasTiles(era, w) && Shaped(proof) && |used| <= WALK_STEPS
    && Opened(p, era, seed, w, rT, proof, |used|) == Some(used)
    && at == Replay(p, era, seed, w, used)
  }

  /** One more step: refused for good, or accepted with the tile it opens. */
  lemma {:induction false} VerifyingStep(p: Primitives, era: Era, seed: nat, w: nat, rT: Digest, proof: WalkProof,
      used: seq<Tile>, at: Walker)
    requires Verifying(p, era, seed, w, rT, proof, used, at) && |used| < WALK_STEPS
    ensures var n := |used|;
      if StepAccepted(p, w, rT, at.off, proof.tiles[n], proof.merkle[n]) then
        && (at.off < w || era.V5?)
        && var tile := OpenedTile(p, era, w, at.off, proof.tiles[n]);
          Verifying(p, era, seed, w, rT, proof, used + [tile], Step(p, era, seed, w, at, tile, n + 1))
      else Opened(p, era, seed, w, rT, proof, WALK_STEPS) == None
  {
    var n := |used|;
    OpenedStep(p, era, seed, w, rT, proof, used);
    if StepAccepted(p, w, rT, at.off, proof.tiles[n], proof.merkle[n]) {
      VerifyingGrows(p, era, seed, w, rT, proof, used, at, OpenedTile(p, era, w, at.off, proof.tiles[n]));
    } else {
      RefusedStays(p, era, seed, w, rT, proof, n + 1, WALK_STEPS);
    }
  }

  lemma {:induction false} VerifyingGrows(p: Primitives, era: Era, seed: nat, w: nat, rT: Digest, proof: WalkProof,
      used: seq<Tile>, at: Walker, tile: Tile)
    requires Verifying(p, era, seed, w, rT, proof, used, at) && |used| < WALK_STEPS
    requires Opened(p, era, seed, w, rT, proof, |used| + 1) == Some(used + [tile])
    ensures Verifying(p, era, seed, w, rT, proof, used + [tile], Step(p, era, seed, w, at, tile, |used| + 1))
  {
    ReplayGrows(p, era, seed, w, used, tile);
    assert |used + [tile]| == |used| + 1;
  }

  method VerifyProofV4(p: Primitives, seed: nat, proof: WalkProof, rT: Digest, nChunks: nat) returns (r: Result<nat>)
    ensures Agrees(r, Verified(p, V4, seed, rT, nChunks, proof))
    ensures r.Ok? ==> ChecksTo(p, V4, seed, rT, nChunks, proof, r.value)
    ensures r.Err? ==> forall v: nat :: !ChecksTo(p, V4, seed, rT, nChunks, proof, v)
  {
    VerifiedIsTraced(p, V4, seed, rT, nChunks, proof);
    if |proof.tiles| != WALK_STEPS || |proof.merkle| != WALK_STEPS {
      return Err("v4 proof wrong shape");
    }
    var nTiles := nChunks / TILE_CHUNKS;
    if nTiles == 0 {
      return Err("blob too small");
    }
    var state: Tile, off: nat := p.initialState(seed), p.firstHash(seed) % nTiles;
    ghost var used: seq<Tile> := [];
    for step := 1 to WALK_STEPS + 1
      invariant |used| == step - 1 && Verifying(p, V4, seed, nTiles, rT, proof, used, Walker(state, off))
    {
      var ok;
      ok, state, off, used := VerifyTurnV4(p, seed, proof, rT, nTiles, state, off, step, used);
      if !ok {
        return Err("v4 tile refused");
      }
    }
    r := Ok(Finish(p, state));
  }

  /** One turn of the verifier's loop. */
  method VerifyTurnV4(p: Primitives, seed: nat, proof: WalkProof, rT: Digest, nTiles: nat, state: Tile, off: nat,
      step: nat, ghost used: seq<Tile>)
    returns (ok: bool, state': Tile, off': nat, ghost used': seq<Tile>)
    requires 1 <= step <= WALK_STEPS && |used| == step - 1
    requires Verifying(p, V4, seed, nTiles, rT, proof, used, Walker(state, off))
    ensures ok ==> |used'| == step && Verifying(p, V4, seed, nTiles, rT, proof, used', Walker(state', off'))
    ensures !ok ==> Opened(p, V4, seed, nTiles, rT, proof, WALK_STEPS) == None
  {
    OffsetClass(p, V4, seed, nTiles, used);
    var tile := proof.tiles[step - 1];
    ok := CheckStepV4(p, nTiles, rT, off, tile, proof.merkle[step - 1]);
    VerifyingStep(p, V4, seed, nTiles, rT, proof, used, Walker(state, off));
    state', off', used' := state, off, used;
    if ok {
      used' := used + [tile];
      state', off' := AdvanceV4(p, seed, nTiles, state, off, tile, step);
    }
  }

  /** The rest of a turn, once its tile is there. */
  method AdvanceV4(p: Primitives, seed: nat, nTiles: nat, state: Tile, off: nat, tile: Tile, step: nat)
    returns (state': Tile, off': nat)
    requires nTiles > 0
    ensures Walker(state', off') == Step(p, V4, seed, nTiles, Walker(state, off), tile, step)
  {
    state', off' := p.transition(state, tile, step), off;
    if step < WALK_STEPS {
      off' := V4NextOffset(p, seed, step, tile[..32], nTiles);
    }
  }

  /** Shape and range proof of one opened tile. */
  method CheckStepV4(p: Primitives, nTiles: nat, rT: Digest, off: nat, tile: Bytes, path: seq<Digest>)
    returns (ok: bool)
    requires off < nTiles
    ensures ok <==> StepAccepted(p, nTiles, rT, off, tile, path)
  {
    if |tile| != TILE_BYTES {
      return false;
    }
    var root := MerkleRoot(p.blake, Leaves(p.blake, Chunks(tile)));
    ok := VerifyMerkle(p.blake, root, off, path, rT);
  }

  // ---------------------------------------------------------------- era v5

  /** The rest of a turn of `walk`, once its tile has been fetched. */
  method AdvanceV5(p: Primitives, seed: nat, weightTiles: nat, ghost padSeed: Bytes, padTiles: nat, padSteps: nat,
      state: Tile, off: nat, tile: Tile, step: nat) returns (state': Tile, off': nat)
    requires weightTiles > 0 && padTiles > 0 && padSteps == PadSteps(weightTiles, padTiles)
    ensures Walker(state', off') == Step(p, V5(padSeed, padTiles), seed, weightTiles, Walker(state, off), tile, step)
  {
    off' := off;
    if step < WALK_STEPS {
      off' := V5NextOffset(p, seed, step, tile[..32], p.stateFold(state), weightTiles, padTiles, padSteps);
    }
    state' := p.transition(state, tile, step);
  }

  /** The pre-check's tile source. */
  method FetchV5(p: Primitives, idx: WeightIndex, ghost chunks: seq<Digest>, off: nat, padSeed: Bytes, padTiles: nat)
    returns (tile: Tile)
    requires Locates(idx.file, idx.table, chunks) && idx.nChunks == |chunks|
    ensures tile == TileAt(p, V5(padSeed, padTiles), chunks, off)
  {
    var weightTiles := idx.nChunks / TILE_CHUNKS;
    if off >= weightTiles {
      tile := p.padTile(padSeed, off - weightTiles);
    } else {
      tile := ReadTile(idx, chunks, off);
    }
  }

  /** The proof builder's tile source: what it walks on and what it writes into the proof. */
  method FetchAndOpenV5(p: Primitives, k: nat, idx: WeightIndex, ghost chunks: seq<Digest>, off: nat, padSeed: Bytes,
      padTiles: nat)
    returns (tile: Tile, opened': Bytes, path: seq<Digest>)
    requires IndexOf(p.blake, k, idx, chunks)
    ensures tile == TileAt(p, V5(padSeed, padTiles), chunks, off)
    ensures if off < WeightTiles(chunks) then
        && opened' == tile
        && TILE_SUBTREE_DEPTH <= |Path(p.blake, Leaves(p.blake, chunks), 32 * off)|
        && path == Path(p.blake, Leaves(p.blake, chunks), 32 * off)[TILE_SUBTREE_DEPTH..]
      else opened' == [] && path == []
  {
    var weightTiles := idx.nChunks / TILE_CHUNKS;
    if off < weightTiles {
      tile := ReadTile(idx, chunks, off);
      path := RangePath(p.blake, k, idx, chunks, off);
      opened' := tile;
    } else {
      opened', path := [], [];
      tile := p.padTile(padSeed, off - weightTiles);
    }
  }

  method WalkFinalV5(p: Primitives, k: nat, seed: nat, idx: WeightIndex, ghost chunks: seq<Digest>, padSeed: Bytes,
      padTiles: nat) returns (r: Result<nat>)
    requires IndexOf(p.blake, k, idx, chunks)
    ensures Agrees(r, Walked(p, V5(padSeed, padTiles), seed, chunks))
    ensures r.Ok? <==> |chunks| >= 32 && padTiles > 0
    ensures r.Ok? ==> WalksTo(p, V5(padSeed, padTiles), seed, chunks, r.value)
  {
    var weightTiles := idx.nChunks / TILE_CHUNKS;
    if weightTiles == 0 || padTiles == 0 {
      return Err("no tile space for the v5 walk");
    }
    var padSteps := PadSteps(weightTiles, padTiles);
    ghost var era := V5(padSeed, padTiles);
    var state: Tile, off: nat := p.initialState(seed), p.firstHash(seed) % weightTiles;
    for step := 1 to WALK_STEPS + 1
      invariant Walker(state, off) == Replay(p, era, seed, weightTiles, HonestTiles(p, era, seed, chunks, step - 1))
    {
      var tile := FetchV5(p, idx, chunks, off, padSeed, padTiles);
      HonestGrows(p, era, seed, chunks, step);
      state, off := AdvanceV5(p, seed, weightTiles, padSeed, padTiles, padSteps, state, off, tile, step);
    }
    r := Ok(Finish(p, state));
    WalkedIsTraced(p, V5(padSeed, padTiles), seed, chunks, r.value);
  }

  method BuildProofV5(p: Primitives, k: nat, tier: nat, seed: nat, idx: WeightIndex, ghost chunks: seq<Digest>,
      padSeed: Bytes, padTiles: nat)
    returns (r: Result<(WalkProof, nat)>)
    requires IndexOf(p.blake, k, idx, chunks)
    ensures r.Ok? <==> Walked(p, V5(padSeed, padTiles), seed, chunks).Some?
    ensures r.Ok? ==> Walked(p, V5(padSeed, padTiles), seed, chunks) == Some(r.value.1)
    ensures r.Ok? ==> BuildsTo(p, V5(padSeed, padTiles), seed, chunks, r.value.0, r.value.1)
    ensures r.Ok? ==> r.value.0.tier == tier && HonestProof(p, V5(padSeed, padTiles), seed, chunks, r.value.0)
  {
    var weightTiles := idx.nChunks / TILE_CHUNKS;
    if weightTiles == 0 || padTiles == 0 {
      return Err("no tile space for the v5 walk");
    }
    var padSteps := PadSteps(weightTiles, padTiles);
    ghost var era := V5(padSeed, padTiles);
    var state: Tile, off: nat := p.initialState(seed), p.firstHash(seed) % weightTiles;
    var tiles: seq<Bytes>, merkle: seq<seq<Digest>> := [], [];
    for step := 1 to WALK_STEPS + 1
      invariant Walker(state, off) == Replay(p, era, seed, weightTiles, HonestTiles(p, era, seed, chunks, step - 1))
      invariant |tiles| == step - 1 && HonestSteps(p, era, seed, chunks, tiles, merkle)
    {
      var tile, opened', path := FetchAndOpenV5(p, k, idx, chunks, off, padSeed, padTiles);
      HonestStepsGrow(p, era, seed, chunks, tiles, merkle, opened', path);
      tiles, merkle := tiles + [opened'], merkle + [path];
      HonestGrows(p, era, seed, chunks, step);
      state, off := AdvanceV5(p, seed, weightTiles, padSeed, padTiles, padSteps, state, off, tile, step);
    }
    r := Ok((WalkProof(tier, tiles, merkle), Finish(p, state)));
    HonestAlong(p, V5(padSeed, padTiles), seed, chunks, r.value.0, r.value.1);
  }

  method VerifyProofV5(p: Primitives, seed: nat, proof: WalkProof, rT: Digest, nChunks: nat, padSeed: Bytes,
      padTiles: nat) returns (r: Result<nat>)
    ensures Agrees(r, Verified(p, V5(padSeed, padTiles), seed, rT, nChunks, proof))
    ensures r.Ok? ==> ChecksTo(p, V5(padSeed, padTiles), seed, rT, nChunks, proof, r.value)
    ensures r.Err? ==> forall v: nat :: !ChecksTo(p, V5(padSeed, padTiles), seed, rT, nChunks, proof, v)
  {
    VerifiedIsTraced(p, V5(padSeed, padTiles), seed, rT, nChunks, proof);
    if |proof.tiles| != WALK_STEPS || |proof.merkle| != WALK_STEPS {
      return Err("v5 proof wrong shape");
    }
    var weightTiles := nChunks / TILE_CHUNKS;
    if weightTiles == 0 || padTiles == 0 {
      return Err("no tile space for the v5 walk");
    }
    var padSteps := PadSteps(weightTiles, padTiles);
    ghost var era := V5(padSeed, padTiles);
    var state: Tile, off: nat := p.initialState(seed), p.firstHash(seed) % weightTiles;
    ghost var used: seq<Tile> := [];
    for step := 1 to WALK_STEPS + 1
      invariant |used| == step - 1 && Verifying(p, era, seed, weightTiles, rT, proof, used, Walker(state, off))
    {
      var ok;
      ok, state, off, used := VerifyTurnV5(p, seed, proof, rT, weightTiles, padSeed, padTiles, padSteps, state, off,
        step, used);
      if !ok {
        return Err("v5 step refused");
      }
    }
    r := Ok(Finish(p, state));
  }

  /** One turn of the verifier's `walk`. */
  method VerifyTurnV5(p: Primitives, seed: nat, proof: WalkProof, rT: Digest, weightTiles: nat, padSeed: Bytes,
      padTiles: nat, padSteps: nat, state: Tile, off: nat, step: nat, ghost used: seq<Tile>)
    returns (ok: bool, state': Tile, off': nat, ghost used': seq<Tile>)
    requires weightTiles > 0 && padTiles > 0 && padSteps == PadSteps(weightTiles, padTiles)
    requires 1 <= step <= WALK_STEPS && |used| == step - 1
    requires Verifying(p, V5(padSeed, padTiles), seed, weightTiles, rT, proof, used, Walker(state, off))
    ensures ok ==>
      |used'| == step && Verifying(p, V5(padSeed, padTiles), seed, weightTiles, rT, proof, used', Walker(state', off'))
    ensures !ok ==> Opened(p, V5(padSeed, padTiles), seed, weightTiles, rT, proof, WALK_STEPS) == None
  {
    ghost var era := V5(padSeed, padTiles);
    var tile;
    ok, tile := CheckStepV5(p, weightTiles, rT, off, proof.tiles[step - 1], proof.merkle[step - 1], padSeed, padTiles);
    VerifyingStep(p, era, seed, weightTiles, rT, proof, used, Walker(state, off));
    state', off', used' := state, off, used + [tile];
    if ok {
      state', off' := AdvanceV5(p, seed, weightTiles, padSeed, padTiles, padSteps, state, off, tile, step);
    }
  }

  /** The verifier's tile source: a weight tile with its range proof, or nothing at a pad position. */
  method CheckStepV5(p: Primitives, weightTiles: nat, rT: Digest, off: nat, opened': Bytes, path: seq<Digest>,
      padSeed: Bytes, padTiles: nat)
    returns (ok: bool, tile: Tile)
    ensures ok <==> StepAccepted(p, weightTiles, rT, off, opened', path)
    ensures ok ==> tile == OpenedTile(p, V5(padSeed, padTiles), weightTiles, off, opened')
  {
    tile := p.initialState(0);
    if off < weightTiles {
      if |opened'| != TILE_BYTES {
        return false, tile;
      }
      var root := MerkleRoot(p.blake, Leaves(p.blake, Chunks(opened')));
      ok := VerifyMerkle(p.blake, root, off, path, rT);
      tile := opened';
    } else {
      ok := opened' == [] && path == [];
      tile := p.padTile(padSeed, off - weightTiles);
    }
  }
}
