/** What a walk computes, without the functions that compute it: the one sequence of states, offsets and
tiles in which each follows from the one before (src/pom_v4.rs:87-163, src/pom_v5.rs:142-228). */
module WalkTraces {
  import opened Hashing
  import opened Merkle
  import opened MerkleBinding
  import opened Gguf
  import opened PadSchedule
  import opened PossessionWalk
  import opened Outcomes

  /** States before the first tile and after each, and the offset each tile was read at. */
  datatype Trace = Trace(states: seq<Tile>, offs: seq<nat>, tiles: seq<Tile>)

  /** Step `i + 1` mixes tile `i` into the state. */
  ghost predicate Mixed(p: Primitives, t: Trace, i: nat)
    requires i < |t.tiles| && |t.states| == |t.tiles| + 1
  {
    t.states[i + 1] == p.transition(t.states[i], t.tiles[i], i + 1)
  }

  /** Tile `i + 1` is read where the seed, the number of its step, the first 32 bytes of tile `i` and, in
  v5, the state before that tile send it: into the pad at pad steps, else into the weights. */
  ghost predicate Directed(p: Primitives, era: Era, seed: nat, w: nat, t: Trace, i: nat)
    requires HasTiles(era, w) && i + 1 < |t.tiles| && |t.states| == |t.tiles| + 1 && |t.offs| == |t.tiles|
  {
    var raw := p.stepHash(seed, i + 2, t.tiles[i][..32], if era.V5? then p.stateFold(t.states[i]) else 0);
    if era.V5? && IsPadStep(i + 2, PadSteps(w, era.padTiles)) then t.offs[i + 1] == w + raw % era.padTiles
    else t.offs[i + 1] == raw % w
  }

  ghost predicate IsTrace(p: Primitives, era: Era, seed: nat, w: nat, t: Trace) {
    && HasTiles(era, w)
    && |t.states| == |t.tiles| + 1 && |t.offs| == |t.tiles| <= 256
    && t.states[0] == p.initialState(seed)
    && (t.offs != [] ==> t.offs[0] == p.firstHash(seed) % w)
    && (forall i: nat | i < |t.tiles| :: Mixed(p, t, i))
    && (forall i: nat | i + 1 < |t.tiles| :: Directed(p, era, seed, w, t, i))
  }

  /** The first 8 bytes, little endian, of the Merkle root over the hashes of the state's 32 rows. */
  ghost function FoldedRoot(blake: Blake, state: Tile): nat {
    var rows: seq<Digest> := seq(32, r requires 0 <= r < 32 => blake(state[32 * r..32 * r + 32]));
    LeNat(Root(blake, rows)[..8])
  }

  // ---------------------------------------------------------------- traces and the reference walk

  ghost function TraceOf(p: Primitives, era: Era, seed: nat, w: nat, tiles: seq<Tile>): Trace
    requires HasTiles(era, w)
  {
    Trace(
      seq(|tiles| + 1, i requires 0 <= i <= |tiles| => Replay(p, era, seed, w, tiles[..i]).state),
      seq(|tiles|, i requires 0 <= i < |tiles| => Replay(p, era, seed, w, tiles[..i]).off),
      tiles)
  }

  lemma {:induction false} ReplayAt(p: Primitives, era: Era, seed: nat, w: nat, tiles: seq<Tile>, i: nat)
    requires HasTiles(era, w) && i < |tiles|
    ensures Replay(p, era, seed, w, tiles[..i + 1])
      == Step(p, era, seed, w, Replay(p, era, seed, w, tiles[..i]), tiles[i], i + 1)
  {
    assert tiles[..i + 1] == tiles[..i] + [tiles[i]];
    ReplayGrows(p, era, seed, w, tiles[..i], tiles[i]);
  }

  lemma {:induction false} ReplayIsTrace(p: Primitives, era: Era, seed: nat, w: nat, tiles: seq<Tile>)
    requires HasTiles(era, w) && |tiles| <= 256
    ensures IsTrace(p, era, seed, w, TraceOf(p, era, seed, w, tiles))
  {
    var t := TraceOf(p, era, seed, w, tiles);
    assert tiles[..0] == [];
    forall i: nat | i < |tiles| ensures Mixed(p, t, i) && (i + 1 < |tiles| ==> Directed(p, era, seed, w, t, i)) {
      ReplayAt(p, era, seed, w, tiles, i);
    }
  }

  lemma {:induction false} TraceIsReplay(p: Primitives, era: Era, seed: nat, w: nat, t: Trace, i: nat)
    requires IsTrace(p, era, seed, w, t) && i <= |t.tiles|
    ensures t.states[i] == Replay(p, era, seed, w, t.tiles[..i]).state
    ensures i < |t.tiles| ==> t.offs[i] == Replay(p, era, seed, w, t.tiles[..i]).off
  {
    if i == 0 {
      assert t.tiles[..0] == [];
    } else {
      TraceIsReplay(p, era, seed, w, t, i - 1);
      ReplayAt(p, era, seed, w, t.tiles, i - 1);
      assert Mixed(p, t, i - 1);
      assert i < |t.tiles| ==> Directed(p, era, seed, w, t, i - 1);
    }
  }

  lemma {:induction false} FinishIsFoldedRoot(p: Primitives, state: Tile)
    ensures Finish(p, state) == FoldedRoot(p.blake, state)
  {
    var rows: seq<Digest> := seq(32, r requires 0 <= r < 32 => p.blake(state[32 * r..32 * r + 32]));
    assert Leaves(p.blake, Chunks(state)) == rows;
  }

  // ---------------------------------------------------------------- walks over the index

  /** The tile at an offset: 32 consecutive chunks of the model, or a pad tile behind them. */
  ghost predicate IndexTile(p: Primitives, era: Era, chunks: seq<Digest>, off: nat, tile: Tile) {
    if off < |chunks| / 32 then Chunks(tile) == chunks[32 * off..32 * off + 32]
    else era.V5? && tile == p.padTile(era.padSeed, off - |chunks| / 32)
  }

  /** 256 steps over the tiles of the index. */
  ghost predicate IndexTrace(p: Primitives, era: Era, seed: nat, chunks: seq<Digest>, t: Trace) {
    && IsTrace(p, era, seed, |chunks| / 32, t) && |t.tiles| == 256
    && forall i: nat | i < 256 :: IndexTile(p, era, chunks, t.offs[i], t.tiles[i])
  }

  ghost predicate WalksTo(p: Primitives, era: Era, seed: nat, chunks: seq<Digest>, value: nat) {
    exists t :: IndexTrace(p, era, seed, chunks, t) && value == FoldedRoot(p.blake, t.states[256])
  }

  lemma {:induction false} IndexTileIs(p: Primitives, era: Era, chunks: seq<Digest>, off: nat, tile: Tile)
    requires off < WeightTiles(chunks) || era.V5?
    ensures IndexTile(p, era, chunks, off, tile) <==> tile == TileAt(p, era, chunks, off)
  {
    if off < WeightTiles(chunks) {
      ChunksOfFlat(chunks[32 * off..32 * off + 32]);
      FlatOfChunks(tile);
    }
  }

  /** Lists that grow by one element at a time are prefixes of each other. */
  lemma {:induction false} GrowingPrefix<T>(lists: seq<seq<T>>, i: nat, n: nat)
    requires forall k: nat | k < |lists| :: |lists[k]| == k
    requires forall k: nat | k + 1 < |lists| :: lists[k + 1][..k] == lists[k]
    requires i <= n < |lists|
    ensures lists[n][..i] == lists[i]
    decreases n
  {
    if i < n {
      GrowingPrefix(lists, i, n - 1);
      assert lists[n][..i] == lists[n][..n - 1][..i];
    }
  }

  lemma {:induction false} HonestPrefix(p: Primitives, era: Era, seed: nat, chunks: seq<Digest>, i: nat, n: nat)
    requires HasTiles(era, WeightTiles(chunks)) && i <= n <= WALK_STEPS
    ensures HonestTiles(p, era, seed, chunks, n)[..i] == HonestTiles(p, era, seed, chunks, i)
  {
    var lists := seq(n + 1, k requires 0 <= k <= n => HonestTiles(p, era, seed, chunks, k));
    forall k: nat | k + 1 < |lists| ensures lists[k + 1][..k] == lists[k] {
      NextHonestTile(p, era, seed, chunks, k);
    }
    GrowingPrefix(lists, i, n);
  }

  lemma {:induction false} HonestTileAt(p: Primitives, era: Era, seed: nat, chunks: seq<Digest>, i: nat)
    requires HasTiles(era, WeightTiles(chunks)) && i < WALK_STEPS
    ensures var tiles, off := HonestTiles(p, era, seed, chunks, WALK_STEPS),
        Replay(p, era, seed, WeightTiles(chunks), HonestTiles(p, era, seed, chunks, i)).off;
      && tiles[..i] == HonestTiles(p, era, seed, chunks, i)
      && IndexTile(p, era, chunks, off, tiles[i])
  {
    HonestPrefix(p, era, seed, chunks, i, WALK_STEPS);
    HonestPrefix(p, era, seed, chunks, i + 1, WALK_STEPS);
    NextHonestTile(p, era, seed, chunks, i);
    var off := Replay(p, era, seed, WeightTiles(chunks), HonestTiles(p, era, seed, chunks, i)).off;
    assert HonestTiles(p, era, seed, chunks, i + 1)[i] == TileAt(p, era, chunks, off);
    IndexTileIs(p, era, chunks, off, TileAt(p, era, chunks, off));
  }

  /** The trace of the reference walk. */
  ghost function HonestTrace(p: Primitives, era: Era, seed: nat, chunks: seq<Digest>): Trace
    requires HasTiles(era, WeightTiles(chunks))
  {
    TraceOf(p, era, seed, WeightTiles(chunks), HonestTiles(p, era, seed, chunks, WALK_STEPS))
  }

  lemma {:induction false} HonestIsTrace(p: Primitives, era: Era, seed: nat, chunks: seq<Digest>)
    requires HasTiles(era, WeightTiles(chunks))
    ensures IndexTrace(p, era, seed, chunks, HonestTrace(p, era, seed, chunks))
  {
    var t := HonestTrace(p, era, seed, chunks);
    ReplayIsTrace(p, era, seed, WeightTiles(chunks), t.tiles);
    forall i: nat | i < 256 ensures IndexTile(p, era, chunks, t.offs[i], t.tiles[i]) {
      HonestTileAt(p, era, seed, chunks, i);
    }
  }

  /** Tile `i` of the list is the index's own at the offset the tiles before it lead to. */
  ghost predicate FollowsIndex(p: Primitives, era: Era, seed: nat, chunks: seq<Digest>, tiles: seq<Tile>, i: nat)
    requires HasTiles(era, WeightTiles(chunks)) && i < |tiles|
  {
    var off := Replay(p, era, seed, WeightTiles(chunks), tiles[..i]).off;
    (off < WeightTiles(chunks) || era.V5?) && tiles[i] == TileAt(p, era, chunks, off)
  }

  lemma {:induction false} TraceTileIs(p: Primitives, era: Era, seed: nat, chunks: seq<Digest>, t: Trace, i: nat)
    requires IndexTrace(p, era, seed, chunks, t) && i < WALK_STEPS
    ensures FollowsIndex(p, era, seed, chunks, t.tiles, i)
  {
    TraceIsReplay(p, era, seed, WeightTiles(chunks), t, i);
    assert IndexTile(p, era, chunks, t.offs[i], t.tiles[i]);
    IndexTileIs(p, era, chunks, t.offs[i], t.tiles[i]);
  }

  lemma {:induction false} TraceTiles(p: Primitives, era: Era, seed: nat, chunks: seq<Digest>, tiles: seq<Tile>, n: nat)
    requires HasTiles(era, WeightTiles(chunks)) && n <= |tiles| == WALK_STEPS
    requires forall i: nat | i < |tiles| :: FollowsIndex(p, era, seed, chunks, tiles, i)
    ensures tiles[..n] == HonestTiles(p, era, seed, chunks, n)
  {
    if n > 0 {
      TraceTiles(p, era, seed, chunks, tiles, n - 1);
      OneMoreTile(p, era, seed, chunks, tiles, n - 1);
    }
  }

  lemma {:induction false} OneMoreTile(p: Primitives, era: Era, seed: nat, chunks: seq<Digest>, tiles: seq<Tile>,
      n: nat)
    requires HasTiles(era, WeightTiles(chunks)) && n < |tiles| == WALK_STEPS
    requires tiles[..n] == HonestTiles(p, era, seed, chunks, n)
    requires FollowsIndex(p, era, seed, chunks, tiles, n)
    ensures tiles[..n + 1] == HonestTiles(p, era, seed, chunks, n + 1)
  {
    var before := tiles[..n];
    assert tiles[..n + 1] == before + [tiles[n]];
    assert HonestTiles(p, era, seed, chunks, n + 1) == before + [tiles[n]] by {
      NextHonestTile(p, era, seed, chunks, n);
    }
  }

  /** There is one trace of a walk over the index, if there are tiles to walk over, and no other. */
  lemma {:induction false} OneTrace(p: Primitives, era: Era, seed: nat, chunks: seq<Digest>, t: Trace)
    ensures IndexTrace(p, era, seed, chunks, t)
      <==> HasTiles(era, |chunks| / 32) && t == HonestTrace(p, era, seed, chunks)
  {
    if IndexTrace(p, era, seed, chunks, t) {
      var h := HonestTrace(p, era, seed, chunks);
      forall i: nat | i < 256 ensures FollowsIndex(p, era, seed, chunks, t.tiles, i) {
        TraceTileIs(p, era, seed, chunks, t, i);
      }
      TraceTiles(p, era, seed, chunks, t.tiles, WALK_STEPS);
      assert t.tiles[..256] == t.tiles;
      forall i: nat | i <= 256 ensures t.states[i] == h.states[i] && (i < 256 ==> t.offs[i] == h.offs[i]) {
        TraceIsReplay(p, era, seed, WeightTiles(chunks), t, i);
      }
      assert t.states == h.states && t.offs == h.offs;
    } else if HasTiles(era, |chunks| / 32) {
      HonestIsTrace(p, era, seed, chunks);
    }
  }

  /** The value of the walk is the folded root of the last state of that trace. */
  lemma {:induction false} WalkedIsTraced(p: Primitives, era: Era, seed: nat, chunks: seq<Digest>, value: nat)
    ensures Walked(p, era, seed, chunks) == Some(value) <==> WalksTo(p, era, seed, chunks, value)
    ensures Walked(p, era, seed, chunks).Some? <==> |chunks| >= 32 && (era.V5? ==> era.padTiles > 0)
  {
    if HasTiles(era, WeightTiles(chunks)) {
      var h := HonestTrace(p, era, seed, chunks);
      HonestIsTrace(p, era, seed, chunks);
      assert h.tiles[..256] == h.tiles;
      FinishIsFoldedRoot(p, h.states[256]);
    }
    forall t | IndexTrace(p, era, seed, chunks, t) ensures t == HonestTrace(p, era, seed, chunks) {
      OneTrace(p, era, seed, chunks, t);
    }
  }

  // ---------------------------------------------------------------- walks over a proof

  /** Step `i` of the proof holds what the walk reads there: a weight tile that climbs to `rT`, or nothing
  where the pad tile is recomputed. */
  ghost predicate ProofTile(p: Primitives, era: Era, w: nat, rT: Digest, off: nat, tile: Tile, opened': Bytes,
      path: seq<Digest>)
  {
    if off < w then
      && opened' == tile
      && Climb(p.blake, Root(p.blake, Leaves(p.blake, Chunks(tile))), off, path) == rT
    else
      && opened' == [] && path == []
      && era.V5? && tile == p.padTile(era.padSeed, off - w)
  }

  /** 256 steps over the tiles of a proof. */
  ghost predicate ProofTrace(p: Primitives, era: Era, seed: nat, rT: Digest, nChunks: nat, proof: WalkProof,
      t: Trace)
  {
    && |proof.tiles| == 256 && |proof.merkle| == 256
    && IsTrace(p, era, seed, nChunks / 32, t) && |t.tiles| == 256
    && forall i: nat | i < 256 ::
      ProofTile(p, era, nChunks / 32, rT, t.offs[i], t.tiles[i], proof.tiles[i], proof.merkle[i])
  }

  ghost predicate ChecksTo(p: Primitives, era: Era, seed: nat, rT: Digest, nChunks: nat, proof: WalkProof,
      value: nat)
  {
    exists t :: ProofTrace(p, era, seed, rT, nChunks, proof, t) && value == FoldedRoot(p.blake, t.states[256])
  }

  lemma {:induction false} OpenedBefore(p: Primitives, era: Era, seed: nat, w: nat, rT: Digest, proof: WalkProof,
      n: nat)
    requires HasTiles(era, w) && Shaped(proof) && n < WALK_STEPS
    requires Opened(p, era, seed, w, rT, proof, n + 1).Some?
    ensures Opened(p, era, seed, w, rT, proof, n) == Some(Opened(p, era, seed, w, rT, proof, n + 1).value[..n])
  {
    OpenedStep(p, era, seed, w, rT, proof, Opened(p, era, seed, w, rT, proof, n).value);
  }

  lemma {:induction false} OpenedPrefixes(p: Primitives, era: Era, seed: nat, w: nat, rT: Digest, proof: WalkProof,
      i: nat, n: nat)
    requires HasTiles(era, w) && Shaped(proof) && i <= n <= WALK_STEPS
    requires Opened(p, era, seed, w, rT, proof, n).Some?
    ensures Opened(p, era, seed, w, rT, proof, i) == Some(Opened(p, era, seed, w, rT, proof, n).value[..i])
    decreases n
  {
    var all := Opened(p, era, seed, w, rT, proof, n).value;
    if i < n {
      OpenedBefore(p, era, seed, w, rT, proof, n - 1);
      OpenedPrefixes(p, era, seed, w, rT, proof, i, n - 1);
      assert all[..i] == all[..n - 1][..i];
    } else {
      assert all[..i] == all;
    }
  }

  lemma {:induction false} OpenedTraced(p: Primitives, era: Era, seed: nat, w: nat, rT: Digest, proof: WalkProof,
      tiles: seq<Tile>, i: nat)
    requires HasTiles(era, w) && Shaped(proof) && i < WALK_STEPS == |tiles|
    requires Opened(p, era, seed, w, rT, proof, WALK_STEPS) == Some(tiles)
    ensures ProofTile(p, era, w, rT, Replay(p, era, seed, w, tiles[..i]).off, tiles[i], proof.tiles[i],
      proof.merkle[i])
  {
    OpenedPrefixes(p, era, seed, w, rT, proof, i, WALK_STEPS);
    OpenedPrefixes(p, era, seed, w, rT, proof, i + 1, WALK_STEPS);
    OpenedStep(p, era, seed, w, rT, proof, tiles[..i]);
    assert tiles[..i + 1][i] == tiles[i];
  }

  /** Step `i` of the proof is accepted with that tile. */
  ghost predicate FollowsProof(p: Primitives, era: Era, seed: nat, w: nat, rT: Digest, proof: WalkProof,
      tiles: seq<Tile>, i: nat)
    requires HasTiles(era, w) && Shaped(proof) && i < |tiles| == WALK_STEPS
  {
    var off := Replay(p, era, seed, w, tiles[..i]).off;
    && StepAccepted(p, w, rT, off, proof.tiles[i], proof.merkle[i])
    && (off < w || era.V5?) && OpenedTile(p, era, w, off, proof.tiles[i]) == tiles[i]
  }

  lemma {:induction false} TraceStepAccepted(p: Primitives, era: Era, seed: nat, rT: Digest, nChunks: nat,
      proof: WalkProof, t: Trace, i: nat)
    requires ProofTrace(p, era, seed, rT, nChunks, proof, t) && i < WALK_STEPS
    ensures FollowsProof(p, era, seed, nChunks / 32, rT, proof, t.tiles, i)
  {
    TraceIsReplay(p, era, seed, nChunks / 32, t, i);
    assert ProofTile(p, era, nChunks / 32, rT, t.offs[i], t.tiles[i], proof.tiles[i], proof.merkle[i]);
  }

  lemma {:induction false} TraceOpens(p: Primitives, era: Era, seed: nat, w: nat, rT: Digest, proof: WalkProof,
      tiles: seq<Tile>, n: nat)
    requires HasTiles(era, w) && Shaped(proof) && n <= |tiles| == WALK_STEPS
    requires forall i: nat | i < |tiles| :: FollowsProof(p, era, seed, w, rT, proof, tiles, i)
    ensures Opened(p, era, seed, w, rT, proof, n) == Some(tiles[..n])
  {
    if n > 0 {
      TraceOpens(p, era, seed, w, rT, proof, tiles, n - 1);
      OneMoreOpened(p, era, seed, w, rT, proof, tiles, n - 1);
    }
  }

  lemma {:induction false} OneMoreOpened(p: Primitives, era: Era, seed: nat, w: nat, rT: Digest, proof: WalkProof,
      tiles: seq<Tile>, n: nat)
    requires HasTiles(era, w) && Shaped(proof) && n < |tiles| == WALK_STEPS
    requires Opened(p, era, seed, w, rT, proof, n) == Some(tiles[..n])
    requires FollowsProof(p, era, seed, w, rT, proof, tiles, n)
    ensures Opened(p, era, seed, w, rT, proof, n + 1) == Some(tiles[..n + 1])
  {
    var before := tiles[..n];
    assert |before| == n && tiles[..n + 1] == before + [tiles[n]];
    assert Opened(p, era, seed, w, rT, proof, n + 1) == Some(before + [tiles[n]]) by {
      OpenedStep(p, era, seed, w, rT, proof, before);
    }
  }

  /** A proof is accepted exactly when there is a trace over its tiles, and then to the value of that
  trace. */
  lemma {:induction false} VerifiedIsTraced(p: Primitives, era: Era, seed: nat, rT: Digest, nChunks: nat,
      proof: WalkProof)
    ensures forall value: nat ::
      Verified(p, era, seed, rT, nChunks, proof) == Some(value) <==> ChecksTo(p, era, seed, rT, nChunks, proof, value)
  {
    if Verified(p, era, seed, rT, nChunks, proof).Some? {
      AcceptedHasTrace(p, era, seed, rT, nChunks, proof);
    }
    forall t | ProofTrace(p, era, seed, rT, nChunks, proof, t)
      ensures Verified(p, era, seed, rT, nChunks, proof) == Some(FoldedRoot(p.blake, t.states[256])) {
      TraceIsAccepted(p, era, seed, rT, nChunks, proof, t);
    }
  }

  lemma {:induction false} AcceptedHasTrace(p: Primitives, era: Era, seed: nat, rT: Digest, nChunks: nat,
      proof: WalkProof)
    requires Verified(p, era, seed, rT, nChunks, proof).Some?
    ensures ChecksTo(p, era, seed, rT, nChunks, proof, Verified(p, era, seed, rT, nChunks, proof).value)
  {
    var w := nChunks / 32;
    var tiles := Opened(p, era, seed, w, rT, proof, WALK_STEPS).value;
    var t := TraceOf(p, era, seed, w, tiles);
    forall i: nat | i < 256
      ensures ProofTile(p, era, w, rT, t.offs[i], t.tiles[i], proof.tiles[i], proof.merkle[i])
    {
      OpenedTraced(p, era, seed, w, rT, proof, tiles, i);
    }
    ReplayIsTrace(p, era, seed, w, tiles);
    assert tiles[..256] == tiles;
    FinishIsFoldedRoot(p, t.states[256]);
  }

  lemma {:induction false} TraceIsAccepted(p: Primitives, era: Era, seed: nat, rT: Digest, nChunks: nat,
      proof: WalkProof, t: Trace)
    requires ProofTrace(p, era, seed, rT, nChunks, proof, t)
    ensures Verified(p, era, seed, rT, nChunks, proof) == Some(FoldedRoot(p.blake, t.states[256]))
  {
    forall i: nat | i < 256 ensures FollowsProof(p, era, seed, nChunks / 32, rT, proof, t.tiles, i) {
      TraceStepAccepted(p, era, seed, rT, nChunks, proof, t, i);
    }
    TraceOpens(p, era, seed, nChunks / 32, rT, proof, t.tiles, WALK_STEPS);
    assert t.tiles[..256] == t.tiles;
    TraceIsReplay(p, era, seed, nChunks / 32, t, 256);
    FinishIsFoldedRoot(p, t.states[256]);
  }

  // ---------------------------------------------------------------- every tile matters

  /** A transition that loses neither its state nor its tile. */
  ghost predicate Mixes(p: Primitives) {
    && (forall s: Tile, s': Tile, tile: Tile, step: nat ::
          p.transition(s, tile, step) == p.transition(s', tile, step) ==> s == s')
    && (forall s: Tile, tile: Tile, tile': Tile, step: nat ::
          p.transition(s, tile, step) == p.transition(s, tile', step) ==> tile == tile')
  }

  /** Under such a transition two walks from one seed that read different tiles at one step, and the same at
  all others, are in different states ever after, whatever their offsets. */
  lemma {:induction false} OneTileMatters(p: Primitives, era: Era, era': Era, seed: nat, w: nat, w': nat, t: Trace,
      t': Trace, i: nat, n: nat)
    requires Mixes(p) && IsTrace(p, era, seed, w, t) && IsTrace(p, era', seed, w', t')
    requires i < n <= |t.tiles| == |t'.tiles| && t.tiles[i] != t'.tiles[i]
    requires forall j: nat | j < |t.tiles| && j != i :: t.tiles[j] == t'.tiles[j]
    ensures t.states[n] != t'.states[n]
    decreases n
  {
    assert Mixed(p, t, n - 1) && Mixed(p, t', n - 1);
    if i + 1 == n {
      SameTilesSameState(p, era, era', seed, w, w', t, t', i);
    } else {
      OneTileMatters(p, era, era', seed, w, w', t, t', i, n - 1);
    }
  }

  lemma {:induction false} SameTilesSameState(p: Primitives, era: Era, era': Era, seed: nat, w: nat, w': nat, t: Trace,
      t': Trace, n: nat)
    requires IsTrace(p, era, seed, w, t) && IsTrace(p, era', seed, w', t')
    requires n <= |t.tiles| == |t'.tiles| && forall j: nat | j < n :: t.tiles[j] == t'.tiles[j]
    ensures t.states[n] == t'.states[n]
  {
    if n > 0 {
      SameTilesSameState(p, era, era', seed, w, w', t, t', n - 1);
      assert Mixed(p, t, n - 1) && Mixed(p, t', n - 1);
    }
  }

  function AddByte(a: Byte, b: Byte): Byte { (a + b) % 256 }

  /** Adding byte by byte. */
  function AddTile(state: Tile, tile: Tile, step: nat): Tile {
    seq(1024, i requires 0 <= i < 1024 => AddByte(state[i], tile[i]))
  }

  lemma {:induction false} AddTileInjective(a: Tile, b: Tile, c: Tile, step: nat, step': nat)
    requires AddTile(a, c, step) == AddTile(b, c, step')
    ensures a == b
  {
    forall i | 0 <= i < 1024 ensures a[i] == b[i] {
      assert AddTile(a, c, step)[i] == AddTile(b, c, step')[i];
    }
  }

  lemma {:induction false} AddTileCommutes(a: Tile, b: Tile, step: nat)
    ensures AddTile(a, b, step) == AddTile(b, a, step)
  {
  }

  /** There are such transitions. */
  lemma {:induction false} AddingMixes(p: Primitives)
    ensures Mixes(p.(transition := AddTile))
  {
    forall a: Tile, b: Tile, c: Tile, step: nat | AddTile(a, c, step) == AddTile(b, c, step) ensures a == b {
      AddTileInjective(a, b, c, step, step);
    }
    forall a: Tile, b: Tile, c: Tile, step: nat | AddTile(c, a, step) == AddTile(c, b, step) ensures a == b {
      AddTileCommutes(a, c, step);
      AddTileCommutes(b, c, step);
      AddTileInjective(a, b, c, step, step);
    }
  }
}
