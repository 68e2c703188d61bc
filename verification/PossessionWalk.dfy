/** The possession walk of eras v4 and v5 (src/pom_v4.rs, src/pom_v5.rs).

256 times, a 1 KB tile is read at an offset that depends on everything read before. The miner runs
the same walk three times: to pre-check a nonce, to build its proof, and to check that proof as the
node will. The methods are those runs; they are all specified by one reference: `Replay` (the walk
over a given list of tiles) and `HonestTiles` (the tiles the index holds at the walked offsets). */
module PossessionWalk {
  import opened Hashing
  import opened Merkle
  import opened MerkleBinding
  import opened Gguf
  import opened PadSchedule
  import opened Outcomes

  const TILE_CHUNKS: nat := 32
  const TILE_BYTES: nat := 1024
  const TILE_SUBTREE_DEPTH: nat := 5

  type Tile = b: Bytes | |b| == 1024 witness seq(1024, _ => 0)

  /** The mixing functions, none of whose properties matter here. `stepHash` is the mixed fold of seed,
  step, snippet and state fold; era v4 folds no state, which is a fold of 0. */
  datatype Primitives = Primitives(
    blake: Blake,
    initialState: nat -> Tile,
    transition: (Tile, Tile, nat) -> Tile,
    firstHash: nat -> nat,
    stepHash: (nat, nat, Bytes, nat) -> nat,
    stateFold: Tile -> nat,
    padTile: (Bytes, nat) -> Tile)

  datatype Era = V4 | V5(padSeed: Bytes, padTiles: nat)

  /** There is something to read: weight tiles, and in v5 pad tiles too. */
  predicate HasTiles(era: Era, w: nat) {
    w > 0 && (era.V5? ==> era.padTiles > 0)
  }

  datatype Walker = Walker(state: Tile, off: nat)

  function Start(p: Primitives, seed: nat, w: nat): Walker
    requires w > 0
  {
    Walker(p.initialState(seed), p.firstHash(seed) % w)
  }

  function V4NextOffset(p: Primitives, seed: nat, step: nat, snippet: Bytes, nTiles: nat): nat
    requires nTiles > 0
  {
    p.stepHash(seed, step + 1, snippet, 0) % nTiles
  }

  function V5NextOffset(p: Primitives, seed: nat, step: nat, snippet: Bytes, stateFold: nat, weightTiles: nat,
      padTiles: nat, padSteps: nat): nat
    requires weightTiles > 0 && padTiles > 0
  {
    var raw := p.stepHash(seed, step + 1, snippet, stateFold);
    if IsPadStep(step + 1, padSteps) then weightTiles + raw % padTiles else raw % weightTiles
  }

  /** Offset of step `step + 1`, from the tile and the state before step `step`. */
  function NextOffset(p: Primitives, era: Era, seed: nat, w: nat, state: Tile, tile: Tile, step: nat): nat
    requires HasTiles(era, w)
  {
    match era
    case V4 => V4NextOffset(p, seed, step, tile[..32], w)
    case V5(_, padTiles) => V5NextOffset(p, seed, step, tile[..32], p.stateFold(state), w, padTiles,
      PadSteps(w, padTiles))
  }

  function Step(p: Primitives, era: Era, seed: nat, w: nat, at: Walker, tile: Tile, step: nat): Walker
    requires HasTiles(era, w)
  {
    Walker(
      p.transition(at.state, tile, step),
      if step < WALK_STEPS then NextOffset(p, era, seed, w, at.state, tile, step) else at.off)
  }

  /** The walk over a given list of tiles. */
  function Replay(p: Primitives, era: Era, seed: nat, w: nat, tiles: seq<Tile>): Walker
    requires HasTiles(era, w)
  {
    if tiles == [] then Start(p, seed, w)
    else
      var n := |tiles| - 1;
      Step(p, era, seed, w, Replay(p, era, seed, w, tiles[..n]), tiles[n], n + 1)
  }

  lemma {:induction false} ReplayGrows(p: Primitives, era: Era, seed: nat, w: nat, tiles: seq<Tile>, tile: Tile)
    requires HasTiles(era, w)
    ensures Replay(p, era, seed, w, tiles + [tile])
         == Step(p, era, seed, w, Replay(p, era, seed, w, tiles), tile, |tiles| + 1)
  {
    assert (tiles + [tile])[..|tiles|] == tiles;
  }

  /** The 64-bit value the walk ends in: the first 8 bytes of the root of the state's 32 rows. */
  function Finish(p: Primitives, state: Tile): nat {
    LeNat(TileRoot(p.blake, Chunks(state))[..8])
  }

  // ---------------------------------------------------------------- what the index holds

  /** Whole tiles the index holds. */
  function WeightTiles(chunks: seq<Digest>): nat {
    |chunks| / 32
  }

  function WeightTile(chunks: seq<Digest>, off: nat): Tile
    requires off < WeightTiles(chunks)
  {
    Flat(chunks[32 * off..32 * off + 32])
  }

  function TileAt(p: Primitives, era: Era, chunks: seq<Digest>, off: nat): Tile
    requires off < WeightTiles(chunks) || era.V5?
  {
    if off < WeightTiles(chunks) then WeightTile(chunks, off) else p.padTile(era.padSeed, off - WeightTiles(chunks))
  }

  /** In v4 every offset is a weight tile. In v5 the offset points into the pad exactly at the pad
  steps, and never past the tile space. */
  lemma {:induction false} OffsetClass(p: Primitives, era: Era, seed: nat, w: nat, tiles: seq<Tile>)
    requires HasTiles(era, w) && |tiles| < WALK_STEPS
    ensures var off := Replay(p, era, seed, w, tiles).off;
      match era
      case V4 => off < w
      case V5(_, padTiles) => off < w + padTiles && (off >= w <==> IsPadStep(|tiles| + 1, PadSteps(w, padTiles)))
  {
    if tiles == [] && era.V5? {
      WholeWalk(PadSteps(w, era.padTiles));
    }
  }

  /** The tiles the walk reads from the index, step by step. */
  ghost function HonestTiles(p: Primitives, era: Era, seed: nat, chunks: seq<Digest>, n: nat): (tiles: seq<Tile>)
    requires HasTiles(era, WeightTiles(chunks)) && n <= WALK_STEPS
    ensures |tiles| == n
    decreases n, chunks
  {
    if n == 0 then []
    else
      var before := HonestTiles(p, era, seed, chunks, n - 1);
      OffsetClass(p, era, seed, WeightTiles(chunks), before);
      before + [TileAt(p, era, chunks, Replay(p, era, seed, WeightTiles(chunks), before).off)]
  }

  lemma {:induction false} NextHonestTile(p: Primitives, era: Era, seed: nat, chunks: seq<Digest>, n: nat)
    requires HasTiles(era, WeightTiles(chunks)) && n < WALK_STEPS
    ensures var before := HonestTiles(p, era, seed, chunks, n);
      var off := Replay(p, era, seed, WeightTiles(chunks), before).off;
      && (off < WeightTiles(chunks) || era.V5?)
      && HonestTiles(p, era, seed, chunks, n + 1) == before + [TileAt(p, era, chunks, off)]
  {
    OffsetClass(p, era, seed, WeightTiles(chunks), HonestTiles(p, era, seed, chunks, n));
  }

  /** The walk's result over an index of `chunks`, if it can be walked at all. */
  ghost function Walked(p: Primitives, era: Era, seed: nat, chunks: seq<Digest>): Option<nat> {
    var w := WeightTiles(chunks);
    if !HasTiles(era, w) then None
    else Some(Finish(p, Replay(p, era, seed, w, HonestTiles(p, era, seed, chunks, WALK_STEPS)).state))
  }

  // ---------------------------------------------------------------- proofs and their verification

  datatype WalkProof = WalkProof(tier: nat, tiles: seq<Bytes>, merkle: seq<seq<Digest>>)

  predicate Shaped(proof: WalkProof) {
    |proof.tiles| == WALK_STEPS && |proof.merkle| == WALK_STEPS
  }

  /** The check at one step: a weight offset must open a whole tile that climbs to the root, a pad
  offset must open nothing. */
  predicate StepAccepted(p: Primitives, w: nat, rT: Digest, off: nat, tile: Bytes, path: seq<Digest>) {
    if off < w then |tile| == TILE_BYTES && Climb(p.blake, TileRoot(p.blake, Chunks(tile)), off, path) == rT
    else tile == [] && path == []
  }

  /** The tile the verifier goes on with. */
  function OpenedTile(p: Primitives, era: Era, w: nat, off: nat, tile: Bytes): Tile
    requires off < w ==> |tile| == TILE_BYTES
    requires off < w || era.V5?
  {
    if off < w then tile else p.padTile(era.padSeed, off - w)
  }

  /** Tiles accepted in the first `n` steps, or None once a step is refused. */
  ghost function Opened(p: Primitives, era: Era, seed: nat, w: nat, rT: Digest, proof: WalkProof,
      n: nat): (tiles: Option<seq<Tile>>)
    requires HasTiles(era, w) && Shaped(proof) && n <= WALK_STEPS
    ensures tiles.Some? ==> |tiles.value| == n
    decreases n, proof
  {
    if n == 0 then Some([])
    else
      match Opened(p, era, seed, w, rT, proof, n - 1)
      case None => None
      case Some(before) =>
        var off := Replay(p, era, seed, w, before).off;
        OffsetClass(p, era, seed, w, before);
        if StepAccepted(p, w, rT, off, proof.tiles[n - 1], proof.merkle[n - 1]) then
          Some(before + [OpenedTile(p, era, w, off, proof.tiles[n - 1])])
        else None
  }

  ghost function Verified(p: Primitives, era: Era, seed: nat, rT: Digest, nChunks: nat, proof: WalkProof): Option<nat> {
    var w := nChunks / 32;
    if !Shaped(proof) || !HasTiles(era, w) then None
    else
      match Opened(p, era, seed, w, rT, proof, WALK_STEPS)
      case None => None
      case Some(tiles) => Some(Finish(p, Replay(p, era, seed, w, tiles).state))
  }

  /** One more step after `before`. */
  lemma {:induction false} OpenedStep(p: Primitives, era: Era, seed: nat, w: nat, rT: Digest, proof: WalkProof,
      before: seq<Tile>)
    requires HasTiles(era, w) && Shaped(proof) && |before| < WALK_STEPS
    requires Opened(p, era, seed, w, rT, proof, |before|) == Some(before)
    ensures var n, off := |before|, Replay(p, era, seed, w, before).off;
      if StepAccepted(p, w, rT, off, proof.tiles[n], proof.merkle[n]) then
        && (off < w || era.V5?)
        && Opened(p, era, seed, w, rT, proof, n + 1) == Some(before + [OpenedTile(p, era, w, off, proof.tiles[n])])
      else Opened(p, era, seed, w, rT, proof, n + 1) == None
  {
    OffsetClass(p, era, seed, w, before);
  }

  /** Once a step is refused, the rest of the proof does not matter. */
  lemma {:induction false} RefusedStays(p: Primitives, era: Era, seed: nat, w: nat, rT: Digest, proof: WalkProof,
      n: nat, m: nat)
    requires HasTiles(era, w) && Shaped(proof) && n <= m <= WALK_STEPS
    requires Opened(p, era, seed, w, rT, proof, n).None?
    ensures Opened(p, era, seed, w, rT, proof, m).None?
    decreases m - n
  {
    if n < m {
      RefusedStays(p, era, seed, w, rT, proof, n, m - 1);
    }
  }
}
