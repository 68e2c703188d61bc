/** The gate a winning nonce passes on the host before it is emitted (`generate_block_if_pom` in
src/pow.rs, eras v4 and v5): pre-check walk, proof build, self-check, block task, encode. */
module PowGate {
  import opened Hashing
  import opened Halving
  import opened Merkle
  import opened MerkleBinding
  import opened Gguf
  import opened WeightIndexes
  import opened PadSchedule
  import opened PossessionWalk
  import opened WalkTraces
  import opened WalkRuns
  import opened WalkTheorems
  import opened Borsh
  import opened PomWire
  import opened Target
  import opened Outcomes

  /** Scores at which the header commits the final state and the tier, and the walk reads the pad. */
  datatype Gates = Gates(finalState: nat, tier: nat, pad: nat)

  /** `rest` stands for the fields no step here looks at. */
  datatype Header = Header(daaScore: nat, nonce: nat, pomFinalState: nat, pomTier: nat, bits: Compact, rest: Bytes)

  /** A solo block, or a share with the header of the pool's template if the pool sent it. */
  datatype BlockSeed =
    | FullBlock(header: Header, rest: Bytes, pomProof: Bytes)
    | PartialBlock(nonce: nat, rest: Bytes, pomProof: Bytes, template: Option<Header>)

  /** A job: its target and template, and the two folds of its pre-PoW hash. */
  datatype Job = Job(daaScore: nat, target: Uint256, block: BlockSeed, seedOf: nat -> nat, powValue: nat -> Digest)

  /** What era v5 mixes in: the mined model if one is installed, and the tier's pad. */
  datatype PadSource = PadSource(modelId: Option<Bytes>, padTiles: nat, padSeedOf: (nat, Bytes, Digest) -> Bytes)

  /** The era a job is walked in, if the miner can walk it at all. */
  function EraOf(gates: Gates, job: Job, source: PadSource, tier: nat, rT: Digest): Option<Era> {
    if job.daaScore >= gates.pad then
      if source.modelId.None? || source.padTiles == 0 then None
      else Some(V5(source.padSeedOf(tier, source.modelId.value, rT), source.padTiles))
    else Some(V4)
  }

  function FillPomHeader(gates: Gates, header: Header, nonce: nat, finalState: nat, tier: nat): Header {
    var h := header.(nonce := nonce);
    var h' := if header.daaScore >= gates.finalState then h.(pomFinalState := finalState) else h;
    if header.daaScore >= gates.tier then h'.(pomTier := tier) else h'
  }

  function AssembleBlock(gates: Gates, block: BlockSeed, nonce: nat, finalState: nat, tier: nat,
      proof: Bytes): BlockSeed {
    match block
    case FullBlock(header, rest, _) => FullBlock(FillPomHeader(gates, header, nonce, finalState, tier), rest, proof)
    case PartialBlock(_, rest, _, template) => PartialBlock(nonce, rest, proof, template)
  }

  /** Bytes that fit a length prefix. */
  type Payload = b: Bytes | |b| < U32_LIMIT

  /** A block task: how the hash of a header is taken, and what is opened for that hash, if it can be. */
  datatype Task = Task(hashOf: Header -> Digest, open: Digest -> Option<Payload>)

  /** The header whose hash a block task is opened for, if it is: a full block's as emitted, a share's only
  when it has one and also meets the network target. */
  ghost function TaskHeader(gates: Gates, block: BlockSeed, nonce: nat, finalState: nat, tier: nat,
      powValue: Digest): Option<Header> {
    match block
    case FullBlock(h, _, _) => Some(FillPomHeader(gates, h, nonce, finalState, tier))
    case PartialBlock(_, _, _, None) => None
    case PartialBlock(_, _, _, Some(h)) =>
      if LeNat(powValue) <= Threshold(h.bits) then Some(FillPomHeader(gates, h, nonce, finalState, tier)) else None
  }

  /** The opening that rides in the proof; None if there should be one and the block task cannot be opened. */
  ghost function TaskOpening(task: Option<Task>, header: Option<Header>): Option<Option<Bytes>> {
    if task.None? || header.None? then Some(None)
    else
      match task.value.open(task.value.hashOf(header.value))
      case None => None
      case Some(bytes) => Some(Some(bytes))
  }

  // ---------------------------------------------------------------- what a winner is

  /** `h` is the template with the nonce, and with the final state and the tier from their gates on. */
  ghost predicate Filled(gates: Gates, template: Header, nonce: nat, value: nat, tier: nat, h: Header) {
    && h.nonce == nonce
    && h.pomFinalState == (if template.daaScore < gates.finalState then template.pomFinalState else value)
    && h.pomTier == (if template.daaScore < gates.tier then template.pomTier else tier)
    && h.daaScore == template.daaScore && h.bits == template.bits && h.rest == template.rest
  }

  /** What is sent names the nonce: a block in its header, a share beside its untouched template. */
  ghost predicate Names(gates: Gates, block: BlockSeed, nonce: nat, value: nat, tier: nat, won: BlockSeed) {
    match block
    case FullBlock(template, rest, _) =>
      won.FullBlock? && Filled(gates, template, nonce, value, tier, won.header) && won.rest == rest
    case PartialBlock(_, rest, _, template) =>
      won.PartialBlock? && won.nonce == nonce && won.template == template && won.rest == rest
  }

  /** The template a task has to be opened for: a block's always, a share's if it has one whose network
  target the value meets. */
  ghost predicate Due(task: Option<Task>, block: BlockSeed, powValue: Digest) {
    && task.Some?
    && (block.FullBlock? || (block.template.Some? && LeNat(powValue) <= Threshold(block.template.value.bits)))
  }

  /** `opening` is that of the block task for the hash of the filled header, if one is due. */
  ghost predicate OpenedFor(task: Option<Task>, gates: Gates, block: BlockSeed, nonce: nat, value: nat, tier: nat,
      powValue: Digest, opening: Option<Bytes>)
  {
    if Due(task, block, powValue) then
      && opening.Some?
      && var template := if block.FullBlock? then block.header else block.template.value;
        exists h :: Filled(gates, template, nonce, value, tier, h) && task.value.open(task.value.hashOf(h)) == opening
    else opening == None
  }

  lemma {:induction false} FillsIt(gates: Gates, template: Header, nonce: nat, value: nat, tier: nat)
    ensures forall h ::
      Filled(gates, template, nonce, value, tier, h) <==> h == FillPomHeader(gates, template, nonce, value, tier)
  {
  }

  /** The opening the gate asks for is the one that is due. */
  lemma {:induction false} OpeningIsDue(task: Option<Task>, gates: Gates, block: BlockSeed, nonce: nat, value: nat,
      tier: nat, powValue: Digest)
    ensures forall opening ::
      (TaskOpening(task, TaskHeader(gates, block, nonce, value, tier, powValue)) == Some(opening))
      <==> OpenedFor(task, gates, block, nonce, value, tier, powValue, opening)
  {
    if block.FullBlock? {
      FillsIt(gates, block.header, nonce, value, tier);
    } else if block.template.Some? {
      FillsIt(gates, block.template.value, nonce, value, tier);
    }
  }

  method OpenTask(task: Option<Task>, gates: Gates, block: BlockSeed, nonce: nat, finalState: nat, tier: nat,
      powValue: Digest)
    returns (r: Option<Option<Bytes>>)
    ensures r.Some? ==> OpenedFor(task, gates, block, nonce, finalState, tier, powValue, r.value)
    ensures r.None? ==> forall o :: !OpenedFor(task, gates, block, nonce, finalState, tier, powValue, o)
    ensures r.Some? && r.value.Some? ==> |r.value.value| < U32_LIMIT
  {
    OpeningIsDue(task, gates, block, nonce, finalState, tier, powValue);
    if task.None? {
      return Some(None);
    }
    var header: Header;
    match block {
      case FullBlock(h, _, _) => header := h;
      case PartialBlock(_, _, _, template) =>
        if template.None? {
          return Some(None);
        }
        header := template.value;
        var network := FromCompactTarget(header.bits);
        ToLeBytesValue(network);
        var isBlock := LeLeq(powValue, ToLeBytes(network));
        if !isBlock {
          return Some(None);
        }
    }
    var bytes := task.value.open(task.value.hashOf(FillPomHeader(gates, header, nonce, finalState, tier)));
    return if bytes.None? then None else Some(Some(bytes.value));
  }

  /** Era v4 before the pad's gate; from there on v5, for a miner with a model and a pad. */
  ghost predicate InEra(gates: Gates, job: Job, source: PadSource, tier: nat, rT: Digest, era: Era) {
    if job.daaScore < gates.pad then era == V4
    else
      && source.modelId.Some? && source.padTiles > 0
      && era == V5(source.padSeedOf(tier, source.modelId.value, rT), source.padTiles)
  }

  /** The nonce's walk leads to `value`, which meets the target. */
  ghost predicate Winning(p: Primitives, gates: Gates, job: Job, source: PadSource, tier: nat, idx: WeightIndex,
      chunks: seq<Digest>, nonce: nat, era: Era, value: nat)
  {
    && InEra(gates, job, source, tier, idx.rT, era)
    && WalksTo(p, era, job.seedOf(nonce), chunks, value)
    && LeNat(job.powValue(value)) <= Target.Value(job.target)
  }

  /** `won` names the nonce and carries the bytes of a proof along the nonce's walk, with the opening that is
  due, that checks to the same value. */
  ghost predicate Carries(p: Primitives, gates: Gates, job: Job, tier: nat, idx: WeightIndex, chunks: seq<Digest>,
      nonce: nat, task: Option<Task>, era: Era, value: nat, walk: WalkProof, opening: Option<Bytes>, won: BlockSeed)
  {
    && Names(gates, job.block, nonce, value, tier, won)
    && walk.tier == tier
    && BuildsTo(p, era, job.seedOf(nonce), chunks, walk, value)
    && ChecksTo(p, era, job.seedOf(nonce), idx.rT, idx.nChunks, walk, value)
    && OpenedFor(task, gates, job.block, nonce, value, tier, job.powValue(value), opening)
    && Spells(tier, job.powValue(value), value, walk, opening, won.pomProof)
  }

  /** The bytes are those of a proof with the walk and the opening, and nothing of older eras. */
  ghost predicate Spells(tier: nat, powValue: Digest, value: nat, walk: WalkProof, opening: Option<Bytes>,
      bytes: Bytes)
  {
    var proof := PomProof(tier, seq(32, _ => 0), powValue, value, [], [], [], None, None, Some(walk), opening);
    Encodable(proof) && bytes == ToWireBytes(proof) && FromWireBytes(bytes) == Some(proof)
  }

  lemma {:induction false} NamesIt(gates: Gates, block: BlockSeed, nonce: nat, value: nat, tier: nat, bytes: Bytes)
    ensures var won := AssembleBlock(gates, block, nonce, value, tier, bytes);
      Names(gates, block, nonce, value, tier, won) && won.pomProof == bytes
  {
  }

  lemma {:induction false} SpellsIt(tier: nat, powValue: Digest, value: nat, walk: WalkProof, opening: Option<Bytes>)
    requires Encodable(ProofOf(tier, powValue, value, walk, opening))
    ensures Spells(tier, powValue, value, walk, opening, ToWireBytes(ProofOf(tier, powValue, value, walk, opening)))
  {
    WireRoundTrip(ProofOf(tier, powValue, value, walk, opening));
  }

  /** The proof fields around a walk witness; everything older is empty. */
  function ProofOf(tier: nat, powValue: Digest, finalState: nat, walk: WalkProof, task: Option<Bytes>): PomProof {
    PomProof(tier, seq(32, _ => 0), powValue, finalState, [], [], [], None, None, Some(walk), task)
  }

  method PreCheck(p: Primitives, k: nat, era: Era, seed: nat, idx: WeightIndex, ghost chunks: seq<Digest>)
    returns (r: Result<nat>)
    requires IndexOf(p.blake, k, idx, chunks)
    ensures Agrees(r, Walked(p, era, seed, chunks))
  {
    match era
    case V4 => r := WalkFinalV4(p, k, seed, idx, chunks);
    case V5(padSeed, padTiles) => r := WalkFinalV5(p, k, seed, idx, chunks, padSeed, padTiles);
  }

  method BuildProof(p: Primitives, k: nat, era: Era, tier: nat, seed: nat, idx: WeightIndex, ghost chunks: seq<Digest>)
    returns (r: Result<(WalkProof, nat)>)
    requires IndexOf(p.blake, k, idx, chunks)
    ensures r.Ok? <==> Walked(p, era, seed, chunks).Some?
    ensures r.Ok? ==> Walked(p, era, seed, chunks) == Some(r.value.1)
    ensures r.Ok? ==> r.value.0.tier == tier && HonestProof(p, era, seed, chunks, r.value.0)
  {
    match era
    case V4 => r := BuildProofV4(p, k, tier, seed, idx, chunks);
    case V5(padSeed, padTiles) => r := BuildProofV5(p, k, tier, seed, idx, chunks, padSeed, padTiles);
  }

  method SelfCheck(p: Primitives, era: Era, seed: nat, proof: WalkProof, rT: Digest, nChunks: nat)
    returns (r: Result<nat>)
    ensures Agrees(r, Verified(p, era, seed, rT, nChunks, proof))
  {
    match era
    case V4 => r := VerifyProofV4(p, seed, proof, rT, nChunks);
    case V5(padSeed, padTiles) => r := VerifyProofV5(p, seed, proof, rT, nChunks, padSeed, padTiles);
  }

  /** What the gate has computed when a nonce passes its target. */
  lemma {:induction false} WinningIs(p: Primitives, gates: Gates, job: Job, source: PadSource, tier: nat,
      idx: WeightIndex, chunks: seq<Digest>, nonce: nat)
    ensures forall era, value: nat ::
      Winning(p, gates, job, source, tier, idx, chunks, nonce, era, value)
      <==> (EraOf(gates, job, source, tier, idx.rT) == Some(era)
            && Walked(p, era, job.seedOf(nonce), chunks) == Some(value)
            && LeNat(job.powValue(value)) <= Target.Value(job.target))
  {
    forall era, value: nat
      ensures WalksTo(p, era, job.seedOf(nonce), chunks, value)
        <==> Walked(p, era, job.seedOf(nonce), chunks) == Some(value)
    {
      WalkedIsTraced(p, era, job.seedOf(nonce), chunks, value);
    }
  }

  /** The gate drops a nonce only where it must. A nonce whose walk meets the target is emitted exactly
  when the index carries the dense root, hence always with more than `2^(k-1)` chunks, and its block task,
  if it has to open one, can be opened; what is emitted names the nonce and carries bytes that decode to a
  proof with that opening, which the node's check accepts. */
  method GenerateBlockIfPom(p: Primitives, k: nat, gates: Gates, job: Job, nonce: nat, idx: WeightIndex,
      ghost chunks: seq<Digest>, tier: nat, source: PadSource, task: Option<Task>)
    returns (won: Option<BlockSeed>)
    requires IndexOf(p.blake, k, idx, chunks) && idx.nChunks < U64_LIMIT && tier < 256
    ensures |chunks| > Pow2(k - 1) ==> idx.rT == Root(p.blake, Leaves(p.blake, chunks))
    ensures won.Some? <==> exists era, value, opening ::
      && Winning(p, gates, job, source, tier, idx, chunks, nonce, era, value)
      && idx.rT == Root(p.blake, Leaves(p.blake, chunks))
      && OpenedFor(task, gates, job.block, nonce, value, tier, job.powValue(value), opening)
    ensures won.Some? ==> exists era, value, walk, opening ::
      && Winning(p, gates, job, source, tier, idx, chunks, nonce, era, value)
      && Carries(p, gates, job, tier, idx, chunks, nonce, task, era, value, walk, opening, won.value)
  {
    ghost var era, opening;
    var checked;
    checked, era := CheckedWalk(p, k, gates, job, nonce, idx, chunks, tier, source);
    if checked.None? {
      return None;
    }
    var (walk, finalState) := checked.value;
    won, opening := Emit(p, gates, job, era, nonce, idx, chunks, tier, walk, finalState, task);
    WinningIs(p, gates, job, source, tier, idx, chunks, nonce);
  }

  /** Pre-check, proof and self-check: the walk of a nonce that meets the target, with the proof that
  survives, or nothing. */
  method CheckedWalk(p: Primitives, k: nat, gates: Gates, job: Job, nonce: nat, idx: WeightIndex,
      ghost chunks: seq<Digest>, tier: nat, source: PadSource)
    returns (r: Option<(WalkProof, nat)>, ghost era: Era)
    requires IndexOf(p.blake, k, idx, chunks)
    ensures |chunks| > Pow2(k - 1) ==> idx.rT == Root(p.blake, Leaves(p.blake, chunks))
    ensures r.Some? ==>
      && Winning(p, gates, job, source, tier, idx, chunks, nonce, era, r.value.1)
      && idx.rT == Root(p.blake, Leaves(p.blake, chunks))
      && HonestProof(p, era, job.seedOf(nonce), chunks, r.value.0) && r.value.0.tier == tier
      && Walked(p, era, job.seedOf(nonce), chunks) == Some(r.value.1)
      && Verified(p, era, job.seedOf(nonce), idx.rT, idx.nChunks, r.value.0) == Some(r.value.1)
    ensures r.None? ==> idx.rT == Root(p.blake, Leaves(p.blake, chunks)) ==>
      forall e, value :: !Winning(p, gates, job, source, tier, idx, chunks, nonce, e, value)
  {
    IndexRoot(p.blake, k, idx, chunks);
    ToLeBytesValue(job.target);
    WinningIs(p, gates, job, source, tier, idx, chunks, nonce);
    var era' := EraOf(gates, job, source, tier, idx.rT);
    era := V4;
    if era'.None? {
      return None, era;
    }
    era := era'.value;
    var seed := job.seedOf(nonce);
    var walked := PreCheck(p, k, era'.value, seed, idx, chunks);
    if walked.Err? {
      return None, era;
    }
    var meets := LeLeq(job.powValue(walked.value), ToLeBytes(job.target));
    if !meets {
      return None, era;
    }
    var built := BuildProof(p, k, era'.value, tier, seed, idx, chunks);
    if built.Err? {
      return None, era;
    }
    var (walk, finalState) := built.value;
    var powValue := job.powValue(finalState);
    meets := LeLeq(powValue, ToLeBytes(job.target));
    if finalState != walked.value || !meets {
      return None, era;
    }
    BuiltProofVerifies(p, k, era, seed, idx, chunks, walk);
    var checked := SelfCheck(p, era'.value, seed, walk, idx.rT, idx.nChunks);
    if checked.Err? || checked.value != finalState {
      return None, era;
    }
    r := Some((walk, finalState));
  }

  /** Open the block task, wrap the checked walk into a proof and put it into the block. */
  method Emit(p: Primitives, gates: Gates, job: Job, ghost era: Era, nonce: nat, ghost idx: WeightIndex,
      ghost chunks: seq<Digest>, tier: nat, walk: WalkProof, finalState: nat, task: Option<Task>)
    returns (won: Option<BlockSeed>, ghost opening: Option<Bytes>)
    requires HonestProof(p, era, job.seedOf(nonce), chunks, walk) && |chunks| < U64_LIMIT && walk.tier == tier < 256
    requires Walked(p, era, job.seedOf(nonce), chunks) == Some(finalState)
    requires Verified(p, era, job.seedOf(nonce), idx.rT, idx.nChunks, walk) == Some(finalState)
    ensures won.Some? ==>
      Carries(p, gates, job, tier, idx, chunks, nonce, task, era, finalState, walk, opening, won.value)
    ensures won.None? ==>
      forall o :: !OpenedFor(task, gates, job.block, nonce, finalState, tier, job.powValue(finalState), o)
  {
    var powValue := job.powValue(finalState);
    var opened' := OpenTask(task, gates, job.block, nonce, finalState, tier, powValue);
    opening := None;
    if opened'.None? {
      return None, opening;
    }
    opening := opened'.value;
    WitnessEncodable(p, era, job.seedOf(nonce), chunks, walk, tier, powValue, finalState, opening);
    var bytes := ToWireBytes(ProofOf(tier, powValue, finalState, walk, opened'.value));
    won := Some(AssembleBlock(gates, job.block, nonce, finalState, tier, bytes));
    Sent(p, gates, job, tier, idx, chunks, nonce, task, era, finalState, walk, opening);
  }

  lemma {:induction false} Sent(p: Primitives, gates: Gates, job: Job, tier: nat, idx: WeightIndex,
      chunks: seq<Digest>, nonce: nat, task: Option<Task>, era: Era, value: nat, walk: WalkProof,
      opening: Option<Bytes>)
    requires HonestProof(p, era, job.seedOf(nonce), chunks, walk) && walk.tier == tier
    requires Walked(p, era, job.seedOf(nonce), chunks) == Some(value)
    requires Verified(p, era, job.seedOf(nonce), idx.rT, idx.nChunks, walk) == Some(value)
    requires OpenedFor(task, gates, job.block, nonce, value, tier, job.powValue(value), opening)
    requires Encodable(ProofOf(tier, job.powValue(value), value, walk, opening))
    ensures var bytes := ToWireBytes(ProofOf(tier, job.powValue(value), value, walk, opening));
      Carries(p, gates, job, tier, idx, chunks, nonce, task, era, value, walk, opening,
        AssembleBlock(gates, job.block, nonce, value, tier, bytes))
  {
    SpellsIt(tier, job.powValue(value), value, walk, opening);
    var bytes := ToWireBytes(ProofOf(tier, job.powValue(value), value, walk, opening));
    NamesIt(gates, job.block, nonce, value, tier, bytes);
    HonestAlong(p, era, job.seedOf(nonce), chunks, walk, value);
    VerifiedIsTraced(p, era, job.seedOf(nonce), idx.rT, idx.nChunks, walk);
  }

  // ---------------------------------------------------------------- the emitted proof fits the wire

  lemma {:induction false} FinishFits(p: Primitives, state: Tile)
    ensures Finish(p, state) < U64_LIMIT
  {
    Bounds();
    LeBytesOfLeNat(TileRoot(p.blake, Chunks(state))[..8]);
  }

  lemma {:induction false} DepthBound(n: nat, k: nat)
    requires n <= Pow2(k)
    ensures Depth(n) <= k
  {
    DepthAtLeast(n, k);
  }

  lemma {:induction false} DigestsHaveType(ds: seq<Digest>)
    requires |ds| < U32_LIMIT
    ensures HasType(DIGESTS, DigestsValue(ds))
  {
    forall x | x in DigestsValue(ds).items ensures HasType(Fixed32, x) {
      var i :| 0 <= i < |ds| && x == DigestValue(ds[i]);
      assert DigestValue(ds[i]) == Raw(ds[i]);
    }
  }

  lemma {:induction false} BytesHaveType(bs: Bytes)
    requires |bs| < U32_LIMIT
    ensures HasType(BYTES, BytesValue(bs))
  {
    forall x | x in BytesValue(bs).items ensures HasType(U8, x) {
      var i :| 0 <= i < |bs| && x == ByteValue(bs[i]);
      assert ByteValue(bs[i]) == Num(bs[i]);
    }
  }

  lemma {:induction false} WitnessHasType(w: WalkProof)
    requires w.tier < 256 && Shaped(w)
    requires forall i | 0 <= i < WALK_STEPS :: |w.tiles[i]| <= 1024 && |w.merkle[i]| <= 64
    ensures HasType(PROOF_V4, V4Value(w))
  {
    var tiles, merkle := Items(BytesValue, w.tiles), Items(DigestsValue, w.merkle);
    forall x | x in tiles.items ensures HasType(BYTES, x) {
      var i :| 0 <= i < |w.tiles| && x == BytesValue(w.tiles[i]);
      BytesHaveType(w.tiles[i]);
    }
    forall x | x in merkle.items ensures HasType(DIGESTS, x) {
      var i :| 0 <= i < |w.merkle| && x == DigestsValue(w.merkle[i]);
      DigestsHaveType(w.merkle[i]);
    }
    assert HasType(Vec(BYTES), tiles) && HasType(Vec(DIGESTS), merkle);
  }

  lemma {:induction false} HonestSizes(p: Primitives, era: Era, seed: nat, chunks: seq<Digest>, w: WalkProof, i: nat)
    requires HonestProof(p, era, seed, chunks, w) && |chunks| < U64_LIMIT && i < WALK_STEPS
    ensures |w.tiles[i]| <= 1024 && |w.merkle[i]| <= 64
  {
    assert HonestStep(p, era, seed, chunks, i, w.tiles[i], w.merkle[i]);
    var off := Replay(p, era, seed, WeightTiles(chunks), HonestTiles(p, era, seed, chunks, i)).off;
    if off < WeightTiles(chunks) {
      PathLength(p.blake, Leaves(p.blake, chunks), 32 * off);
      Pow2Of64();
      DepthBound(|chunks|, 64);
    }
  }

  lemma {:induction false} WitnessEncodable(p: Primitives, era: Era, seed: nat, chunks: seq<Digest>, w: WalkProof,
      tier: nat, powValue: Digest, finalState: nat, task: Option<Bytes>)
    requires HonestProof(p, era, seed, chunks, w) && |chunks| < U64_LIMIT && w.tier == tier < 256
    requires Walked(p, era, seed, chunks) == Some(finalState) && (task.Some? ==> |task.value| < U32_LIMIT)
    ensures Encodable(ProofOf(tier, powValue, finalState, w, task))
  {
    forall i | 0 <= i < WALK_STEPS ensures |w.tiles[i]| <= 1024 && |w.merkle[i]| <= 64 {
      HonestSizes(p, era, seed, chunks, w, i);
    }
    WitnessHasType(w);
    FinishFits(p, Replay(p, era, seed, WeightTiles(chunks), HonestTiles(p, era, seed, chunks, WALK_STEPS)).state);
    FieldsInRange(w, tier, powValue, finalState, task);
  }

  lemma {:induction false} FieldsInRange(w: WalkProof, tier: nat, powValue: Digest, finalState: nat,
      task: Option<Bytes>)
    requires HasType(PROOF_V4, V4Value(w)) && tier < 256 && finalState < U64_LIMIT
    requires task.Some? ==> |task.value| < U32_LIMIT
    ensures Encodable(ProofOf(tier, powValue, finalState, w, task))
  {
    DigestsHaveType([]);
    ExtensionsInRange(w, task);
    FieldsTyped(tier, seq(32, _ => 0), powValue, finalState, DigestsValue([]), Items(OpeningValue, []),
      Maybe(V4Value, Some(w)), Maybe(BytesValue, task));
  }

  lemma {:induction false} ExtensionsInRange(w: WalkProof, task: Option<Bytes>)
    requires HasType(PROOF_V4, V4Value(w)) && (task.Some? ==> |task.value| < U32_LIMIT)
    ensures HasType(Opt(PROOF_V4), Maybe(V4Value, Some(w))) && HasType(Opt(BYTES), Maybe(BytesValue, task))
  {
    if task.Some? {
      BytesHaveType(task.value);
    }
  }

  /** The layout, field by field. */
  lemma {:induction false} FieldsTyped(tier: nat, traceRoot: Digest, powValue: Digest, finalState: nat, path: Value,
      openings: Value, v4: Value, task: Value)
    requires tier < 256 && finalState < U64_LIMIT && HasType(DIGESTS, path) && HasType(Vec(OPENING), openings)
    requires HasType(Opt(PROOF_V4), v4) && HasType(Opt(BYTES), task)
    ensures FieldsHaveType(LAYOUT, [Num(tier), Raw(traceRoot), Raw(powValue), Num(finalState), path, path, openings,
      Absent, Absent, v4, task])
  {
    assert HasType(LAYOUT[7], Absent) && HasType(LAYOUT[8], Absent);
  }
}
