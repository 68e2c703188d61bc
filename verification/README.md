# Verified model of the Keryx miner core

This project models, in Dafny, the parts of the Keryx miner whose correctness is hard to see from the
code: the sparse Merkle index over a model's weight chunks, the possession walk with its prover and
verifier, the gate that turns a winning nonce into a block, the escrow claim machine with its journal,
and the watch channel between the client and the workers. Smaller modules cover the proof wire format,
256-bit targets, era staging and the confinement of nonces to a pool's sub-range.

`dafny verify dfyconfig.toml` checks everything.

## How the model is laid out

| files | what they hold |
|---|---|
| `Hashing.dfy`, `Merkle.dfy`, `TreeShape.dfy`, `MerkleBinding.dfy` | digests, the dense duplicate-last tree, the tree written out in bytes, completeness and binding of its proofs |
| `Gguf.dfy`, `SparseIndex.dfy`, `WeightIndex.dfy` | chunk table and chunk reader, checkpoint layout, build, reopen, recomputation of unstored nodes |
| `PadSchedule.dfy`, `PossessionWalk.dfy`, `WalkTrace.dfy`, `WalkRuns.dfy`, `WalkTheorems.dfy` | v5 pad schedule, the reference walk, its trace of states, offsets and tiles, the three loops of v4 and of v5, completeness and soundness |
| `Borsh.dfy`, `PomWire.dfy`, `PomBytes.dfy`, `Target.dfy`, `PowGate.dfy` | proof encoding, its bytes field by field, target arithmetic, the gate that emits a winner |
| `Watch.dfy`, `WatchCalls.dfy` | the watch channel as interleaved atomic steps; what it publishes and what its calls return |
| `EscrowEntries.dfy`, `EscrowChoice.dfy`, `EscrowModel.dfy` | escrow entries, batch selection and what it amounts to, pure transitions of the watcher |
| `EscrowIndexes.dfy`, `EscrowClaims.dfy`, `EscrowSteps.dfy` | index coherence, in-flight books, the invariant over runs of events |
| `EscrowBlocks.dfy`, `EscrowVerdicts.dfy`, `EscrowFiles.dfy` | what each event does to every field of the state and to the files |
| `EscrowJournal.dfy`, `EscrowReplay.dfy`, `EscrowRuns.dfy`, `EscrowLives.dfy`, `EscrowTwins.dfy` | snapshot, journal and crashes; what a restart loads; run properties of responses; when a dead entry comes back; two entries for one output |
| `EscrowWatcher.dfy` | the class that works in place |
| `Eras.dfy`, `Nonces.dfy`, `Outcomes.dfy` | staged models, nonce runs, option and result types |

Conventions. The hash, the seed functions, the pad tile and the matrix transition are parameters of the
theorems, so every statement holds for all of them. Binding is stated as "equal, or a collision between
an input the verifier hashed and an input the index hashed": both sets are finite and named, because the
mere existence of some collision says nothing. `CHECKPOINT_INTERVAL` is a parameter `k >= 1`; the source
uses 6. Nonces are words of `n` bits; the source uses 64. Escrow methods are proved equal to pure
transitions, and the properties of whole runs are proved about those transitions for arbitrary event
sequences. What a transition, an encoder or a walk computes is stated a second time without it, as a
relation between fields, bytes or states (`EscrowVerdicts.StepLawful`, `EscrowFiles.StepFiles`,
`PomBytes.WireIsLaidOut`, `WalkTraces.WalkedIsTraced`, `WatchCalls.HistoryIsSent`), and the methods promise
that relation. Every lemma switches automatic induction off, so each induction is written out.

## Where the code does not do what is hoped for

* **Small indexes.** The build always folds six levels, while the layout puts the root of a tree of at
  most 32 chunks lower. The recorded root is then the dense root hashed with itself a few more times.
  `IndexRoot` gives the exact value for every chunk count, `SmallRootsDiffer` a hash under which the
  recorded root is wrong for every count up to 32 and right for every larger one, and `IndexPathAccepted`
  the exact condition under which the index's own paths are accepted. The comment at src/pom.rs:1345-1348
  promises the dense root for every count; the model follows the code.
* **A winner can be dropped** for two reasons only: `GenerateBlockIfPom` emits a nonce that meets the
  target if and only if the recorded root is the dense root and the block task it has to open, if any, can
  be opened. A walk needs 32 chunks, so exactly 32 chunks is the one size at which the root can be wrong
  (`OnlyThirtyTwo`), and there it is: `WinnerDropped` has every proof refused, in both eras.
* **A cached tree** is reused on its size alone. `BuildOrReuse` gives the right index if and only if no
  cached tree has the expected size or the one that has is the right one.
* **Wire bytes are not unique.** A proof is also read from its bytes followed by zero bytes, one for each
  extension past its last; `WirePreimage` is the exact set of byte strings read as a proof.
* **A dead entry can come back.** No step revives an entry it carries on (`StepEvolves`, `RunEvolves`), but
  a reorganisation releases the outpoint of an entry it slashes and compaction forgets dead entries with
  their outpoints, and the output can then be tracked afresh. `ComesBackIff` is exact for one step: an
  output without a live entry, dead or absent, is live afterwards if and only if the step is a block that
  pays it or an inference that names it, at a moment when its outpoint is untracked or the block is about to
  forget it. `DeadUntilTracked` is exact over runs: it is live at some point if and only if some step
  tracks it so. `ClaimedComesBack` is such a run after compaction, `TwinReached` one after a reorganisation.
* **A re-added block.** After a reorg and a re-add two entries share an outpoint, the live one behind the
  dead one (`TwinReached` is such a run). Every answer, accepted or rejected, then goes to the dead one
  (`AnswerAllAt`, `LiveAnsweredIff`), and every line written for the dead one, by an answer or by the
  expiry of its cap, hides the live one from a restart (`PutRecoversLive`, `AnswerRecoversLive`,
  `HealRecoversLive`, all exact) until a snapshot is taken (`FlushRecoversLive`, `ResponseRecoversLive`).
  Index coherence, in-flight exclusion and the effect of a response hold on all runs; counting, caps,
  slashing and the journal are stated for runs whose entry list has distinct outpoints.
* **Era staging** is exact if and only if the v3 gate is scheduled and the chain is below the last score
  (`ModelsAllEras`); otherwise the last gate's model is staged although nothing will mine it.
* **Nonce confinement** holds if and only if the batch fits the sub-range (`ConfinedIffFits`).

## Model

| member | source | states |
|---|---|---|
| `Merkle.MerkleRoot` | src/pom.rs:597-611 | the level-by-level loop returns the root of the duplicate-last tree, defined by recursion on whole levels |
| `Merkle.MerkleProof` | src/pom.rs:613-632 | the loop returns the sibling of every ancestor of the leaf, bottom up |
| `Merkle.VerifyMerkle` | src/pom.rs:634-642 | accepts exactly when climbing the siblings from the leaf reaches the root |
| `Merkle.FoldLevels` | src/pom.rs:1350-1364 | a batch of at most 2^rounds nodes is carried exactly `rounds` levels up, also past the point where one node is left |
| `Merkle.RootIsTopLevel` | src/pom.rs:597-611 | the root is the only node of the level at the rounded-up base-two logarithm of the leaf count |
| `Merkle.LevelOfSlice` | src/pom.rs:1369-1422 | folding an aligned slice of a level gives the matching slice of the level k higher, on ragged right edges too |
| `Merkle.NodeIsFoldOfBatch` | src/pom.rs:1350-1364 | a node k levels up is the fold of the possibly short batch of nodes below it |
| `Merkle.PathClimbsToRoot` | src/pom.rs:613-642 | every proof the dense tree hands out climbs from its leaf to the root |
| `Merkle.PathSuffix` | src/pom.rs:613-632 | after k entries the proof of a leaf goes on as the proof of its ancestor on level k |
| `Merkle.PathEntry` | src/pom.rs:613-632 | entry k of a proof is the sibling, or the node itself at a ragged edge, of the leaf's ancestor on level k |
| `TreeShape.RootOfTree` | src/pom.rs:597-611 | the root is the top of any tree whose rows are written out: node i is the hash of 64 bytes, left child then right, a lone last child twice |
| `TreeShape.TreeExists` | src/pom.rs:597-611 | every non-empty leaf list has such a tree |
| `TreeShape.ClimbIsClimb` | src/pom.rs:634-642 | a climb ends in the last of the hashes written out, the sibling left of an odd node and right of an even one |
| `MerkleBinding.ClimbBinds` | src/pom.rs:634-642 | an accepted climb of any length opens the tree's own chunk and has the one right length, or the verifier and the tree hashed two different inputs to one digest |
| `MerkleBinding.TileBinds` | src/pom_v4.rs:80-83 | an accepted tile is the tree's tile at that offset and its path has the right length although no length is checked, or a collision between named inputs |
| `Gguf.TableLocates` | src/pom.rs:1110-1138 | the table pushed tensor by tensor counts and locates exactly the whole 32-byte chunks of all tensors in order |
| `Gguf.CanonicalAt` | src/pom.rs:1110-1138 | chunk i of tensor j follows all chunks of the tensors before it and is the 32 bytes of the file at that tensor's offset plus 32 i |
| `Gguf.CanonicalCount` | src/pom.rs:1110-1138 | each tensor adds its length in whole 32-byte chunks and nothing else |
| `Gguf.ReadChunkBytes` | src/pom.rs:1173-1188 | any chunk below the count is read from the right row at the right file offset |
| `Gguf.ReadChunkRange` | src/pom.rs:1196-1228 | the caller's buffer ends up holding exactly the requested run of chunks, across tensor boundaries |
| `Gguf.ReadExactAt` | src/pom.rs:20-39 | a positioned read fills the given part of the buffer and leaves the rest alone |
| `SparseIndex.ComputeCheckpointOffsets` | src/pom.rs:962-985 | the loop computes the layout and one more than the depth as the number of levels |
| `SparseIndex.LayoutFromOk` | src/pom.rs:962-985 | the stored levels are exactly the positive multiples of k below the root and the root; they ascend, have the true node counts and lie end to end in the file |
| `SparseIndex.StoredAt` | src/pom.rs:962-985 | node m of every stored level is found at that level's offset plus m |
| `SparseIndex.AppendBatch` | src/pom.rs:1119-1138 | appending one batch at a batch boundary appends its fold to the level k higher |
| `SparseIndex.AppendUpperLevel` | src/pom.rs:1385-1412 | one turn appends exactly the level `rounds` above the previously stored one |
| `SparseIndex.FinalizeCheckpointUpper` | src/pom.rs:1369-1422 | from level k the file becomes every stored level of the dense tree in layout order, and the value returned is its last digest |
| `SparseIndex.LastDigest` | src/pom.rs:1417-1421 | the file ends right after the digest at the last checkpoint's offset, which is the single node of the top level |
| `WeightIndexes.BuildFromGguf` | src/pom.rs:1090-1165 | building fails exactly when there is no whole chunk, and otherwise gives the index of exactly the canonical chunks |
| `WeightIndexes.HashTensor` | src/pom.rs:1117-1131 | hashing one tensor's chunks keeps "whole batches folded, the rest open" for all leaves seen so far |
| `WeightIndexes.FlushBatch` | src/pom.rs:1132-1137 | folding the open batch completes level k of all leaves |
| `WeightIndexes.IndexRoot` | src/pom.rs:1369-1422 | the recorded root is the dense root above 2^(k-1) chunks and the dense root carried to level k below that |
| `WeightIndexes.SmallRootsDiffer` | src/pom.rs:1132-1143 | a hash under which the recorded root is the dense root if and only if there are more than 2^(k-1) chunks |
| `WeightIndexes.OpenExistingTree` | src/pom.rs:989-1055 | a cached tree is opened if and only if there are chunks and the file has exactly the size of the layout; the index then has the tensors' count and table, the layout and the file's last digest as root |
| `WeightIndexes.ReopenedIsBuilt` | src/pom.rs:989-1055 | reopening the file of a built index gives that very index back, for every chunk count |
| `WeightIndexes.BuildOrReuse` | src/pom.rs:1063-1165 | the combined build gives the index of the model's chunks if and only if there is no cached tree of the expected size or the cached tree is the right one |
| `WeightIndexes.CheckpointReads` | src/pom.rs:1231-1233 | every multiple of k below the root is found among the checkpoints and reads back its whole level |
| `WeightIndexes.CountAtLevel` | src/pom.rs:1236-1242 | repeated rounded-up halving gives the node count of the level |
| `WeightIndexes.ComputeSubtreeHash` | src/pom.rs:1253-1276 | the recomputed node is the dense tree's node, also where the subtree runs over the right edge |
| `WeightIndexes.StoredSibling` | src/pom.rs:1281-1315 | a sibling on a stored level is read straight from its checkpoint, duplicated at the edge |
| `WeightIndexes.RecomputedSibling` | src/pom.rs:1281-1315 | a sibling on an unstored level is recomputed from the nearest level below, duplicated at the edge |
| `WeightIndexes.MerklePath` | src/pom.rs:1281-1315 | the path from stored and recomputed siblings is node for node the dense tree's proof, for every chunk count |
| `WeightIndexes.IndexPathAccepted` | src/pom.rs:613-642 | the path is accepted against the recorded root if and only if there are more than 2^(k-1) chunks or carrying the dense root up gives it back |
| `PadSchedule.PadCountIsFloorDistance` | src/pom_v5.rs:103-106 | the pad steps in any window are the distance the floor of step*p/256 moves across it |
| `PadSchedule.WholeWalk` | src/pom_v5.rs:96-106 | exactly p of the 256 steps are pad steps, the first never and the last always |
| `PadSchedule.WindowIsEven` | src/pom_v5.rs:103-106 | every window of w steps holds within one of w*p/256 pad steps |
| `PadSchedule.ShareIsNearest` | src/pom_v5.rs:96-100 | the number of pad steps is the pad's share of the tiles rounded to the nearest step, except where clamped to 1 or 255 |
| `PossessionWalk.OffsetClass` | src/pom_v5.rs:124-164 | along any walk a v4 offset is a weight tile; a v5 offset is in the pad exactly at pad steps and always inside the tile space |
| `PossessionWalk.RefusedStays` | src/pom_v4.rs:149-160 | once a step is refused no later step brings the proof back |
| `WalkRuns.ReadTile` | src/pom_v4.rs:92-99 | 32 chunk reads give the index's tile |
| `WalkRuns.RangePath` | src/pom_v4.rs:119-126 | the index path of the tile's first chunk with the five levels inside the tile cut off |
| `WalkRuns.WalkFinalV4` | src/pom_v4.rs:87-107 | the pre-check fails exactly below 32 chunks and otherwise returns the value of the one trace of 256 steps in which every state, offset and tile follows from the one before |
| `WalkRuns.BuildProofV4` | src/pom_v4.rs:110-135 | the builder returns the value of that trace and a proof that opens the trace's tiles with their cut index paths |
| `WalkRuns.VerifyProofV4` | src/pom_v4.rs:138-163 | the verifier accepts exactly when there is a trace over the proof's tiles, each climbing to the root at its offset, and returns the value of that trace |
| `WalkRuns.WalkFinalV5` | src/pom_v5.rs:142-180 | as for v4, with pad tiles at pad steps and the state before a tile in the offset of the next; fails exactly when weights or pad have no tile |
| `WalkRuns.BuildProofV5` | src/pom_v5.rs:183-203 | the value of that trace and a proof along it, with nothing opened at pad positions |
| `WalkRuns.VerifyProofV5` | src/pom_v5.rs:206-228 | accepts exactly when there is a trace over the proof's weight tiles and the recomputed pad tiles, pad positions empty |
| `WalkTraces.WalkedIsTraced` | src/pom_v4.rs:87-107 | the walk over an index has exactly the values a trace leads to: states mixed tile by tile, offsets from seed, step, snippet and in v5 the state, the result the first 8 bytes of the root over the last state's rows |
| `WalkTraces.OneTrace` | src/pom_v5.rs:142-180 | there is exactly one such trace if there are tiles to walk over, and none otherwise |
| `WalkTraces.VerifiedIsTraced` | src/pom_v5.rs:206-228 | for every proof, root and chunk count: it is accepted to a value if and only if a trace over it leads there |
| `WalkTraces.OneTileMatters` | src/pom_v4.rs:61-71 | under a transition that loses neither its state nor its tile, two walks that read one different tile are in different states ever after; `AddingMixes` gives such a transition |
| `WalkTheorems.TileRootIsNode` | src/pom_v4.rs:80-83 | an aligned tile's own root is its node five levels up the chunk tree |
| `WalkTheorems.CutPathClimbs` | src/pom_v4.rs:119-126 | the cut path carries the tile's root to the dense root |
| `WalkTheorems.WeightStepAccepted` | src/pom_v4.rs:149-156 | a tile of the index with its cut path passes if and only if it is checked against the dense root |
| `WalkTheorems.HonestOpens` | src/pom_v5.rs:206-228 | against the dense root an honest proof opens exactly the tiles of the honest walk |
| `WalkTheorems.BuiltProofVerifies` | src/pow.rs:271-299 | completeness in both eras: a built proof verifies to the pre-check's value exactly when the recorded root is the dense root, and is refused otherwise |
| `WalkTheorems.OnlyThirtyTwo` | src/pow.rs:271-299 | with the shipped interval a built proof can fail to verify to the walked value only at exactly 32 chunks |
| `WalkTheorems.WinnerDropped` | src/pow.rs:271-299 | at 32 chunks, under a given hash, every walk has a value and every proof built for it is refused, in both eras |
| `WalkTheorems.OpenedIsHonest` | src/pom_v4.rs:138-163 | step by step, an accepted proof has opened the index's tiles, or a collision between named inputs |
| `WalkTheorems.VerifiedProofIsHonest` | src/pom_v5.rs:206-228 | soundness in both eras: whoever built it, a proof that verifies against an index's root yields the honest walk's value and opens the index's tile at every walked offset, or a collision between named inputs |
| `Borsh.DecodeEncode` | src/pom.rs:56-96 | decoding undoes encoding for every shape of value, whatever bytes follow |
| `Borsh.EncodeDecode` | src/pom.rs:289-295 | decoded bytes are the encoding of the decoded value followed by the rest: the format is canonical value by value |
| `Borsh.ShorterLayoutFails` | src/pom.rs:288-295 | the bytes of a record never decode as the same record with optional fields appended |
| `PomWire.WrittenLayoutIsRead` | src/pom.rs:232-295 | reading tries the longest layout first and finds exactly the one the bytes were written in |
| `PomWire.FieldsRoundTrip` | src/pom.rs:228-296 | the round trip across all five layouts |
| `PomWire.WireRoundTrip` | src/pom.rs:228-296 | every encodable proof, with whichever extensions, is read back unchanged |
| `PomWire.FieldsPreimage` | src/pom.rs:289-295 | a record is read from exactly its wire form followed by at most one zero byte for each layout longer than its own |
| `PomWire.WirePreimage` | src/pom.rs:228-296 | a proof is read from exactly its own bytes followed by at most as many zero bytes as it has absent extensions at its end |
| `PomWire.AcceptedIsEncodable` | src/pom.rs:289-295 | whatever is accepted is an encodable proof, at most that many bytes longer than its own encoding |
| `PomBytes.WireIsLaidOut` | src/pom.rs:56-96 | the wire form of every proof byte for byte: all fields in struct order, inner records included, vectors behind u32 counts, extensions behind tags up to the last one present |
| `PomBytes.WireHeader` | src/pom.rs:75-88 | byte 0 is the tier, then 32 bytes of trace root, 32 of pow value and 8 little-endian bytes of final state |
| `Target.Shl` | src/target.rs:97-117 | shifting is multiplication by 2^s modulo 2^256, and no word overflows on the way |
| `Target.ShiftedValue` | src/target.rs:97-117 | the shifted words, with the carries between them, are the digits of the shifted number |
| `Target.OrderIsNumeric` | src/target.rs:87-95 | comparing words from the top is comparing the numbers |
| `Target.ToLeBytesValue` | src/target.rs:56-61 | the 32 bytes have the number as their little-endian value |
| `Target.LeLeq` | src/pom.rs:388-398 | comparing bytes from the last down decides the order of the little-endian values |
| `Target.ByteOrderIsWordOrder` | src/pom.rs:388-398 | the byte-wise test on byte forms is the word-wise order |
| `Target.FromCompactTarget` | src/target.rs:4-24 | the compact form decodes to its mantissa times 256^(exponent-3), a set sign bit to zero |
| `Target.ThresholdIs` | src/target.rs:4-24 | the same exponent by exponent: nothing, the mantissa without two or one low bytes, or shifted up within 256 bits, a set sign bit zero |
| `PowGate.GenerateBlockIfPom` | src/pow.rs:259-338 | at or past the v4 gate a nonce is emitted if and only if its walk, in the era of the score, leads to a value that meets the target, the recorded root is the dense root and the opening of its block task, where one is due, exists; a block then has the nonce in its header, and the value and the tier from their gates on, a share the nonce beside its template, nothing else changes, and the bytes decode to the proof of that walk with that opening |
| `PowGate.OpenTask` | src/pow.rs:314-332 | the opening of a task is the one for the hash of the header with nonce, value and tier filled in; for a share only with a template whose network target the value meets |
| `PowGate.Emit` | src/pow.rs:299-337 | a checked walk is emitted unless its due opening does not exist; the block or share names the nonce and its bytes spell exactly the proof with that walk, that opening and nothing of older eras |
| `PowGate.WitnessEncodable` | src/pow.rs:299-337 | every proof the gate builds, with any opening that fits a length prefix, fits the wire format's length and integer ranges |
| `Watch.StepKeeps` | src/watch.rs:20-166 | every step of sender and receivers keeps locks, versions and sleepers in order |
| `Watch.RunKeeps` | src/watch.rs:20-166 | the same over every interleaving, with any number of receivers coming and going |
| `Watch.NoLostWakeup` | src/watch.rs:61-66 | a receiver asleep has neither an unseen value nor a dead sender, unless the sender's notify is still to come |
| `Watch.NotifyWakesEverybody` | src/watch.rs:61-66 | when that notify runs nobody is between its check and its sleep, and nobody stays asleep |
| `WatchCalls.NoStaleRead` | src/watch.rs:116-131 | the value handed out as version n is the n-1st value sent, or the initial one, and the newest published; it is at least as new as the recorded id and as anything handed out before |
| `WatchCalls.HistoryIsSent` | src/watch.rs:41-98 | over every run the published versions are the initial value and then the values sent while a receiver was left, in order, the last perhaps still on its way |
| `WatchCalls.CallsAnswer` | src/watch.rs:116-151 | whatever is interleaved: an error means the sender is gone, a dead sender is always reported, only a poll returns nothing new and then nothing was, and a value is a published version newer than all the receiver had observed and no older than the call |
| `WatchCalls.PollAlone` | src/watch.rs:116-131 | an undisturbed poll reports a dead sender, or nothing new, or else the newest version and observes it |
| `WatchCalls.CloneObserved` | src/watch.rs:154-159 | a clone of an up-to-date receiver is handed nothing it has |
| `Watch.VersionsNeverGoBack` | src/watch.rs:116-151 | over any run what a receiver recorded and what it was handed only grow |
| `Watch.NoDeadlock` | src/watch.rs:41-151 | while anybody is in the middle of a call somebody in the middle of one can step |
| `Watch.StuckIffSettled` | src/watch.rs:41-151 | no step inside a call can be taken if and only if nobody is in the middle of one and every sleeper has seen the newest version and has a live sender |
| `Watch.CallsEnd` | src/watch.rs:41-151 | under every schedule the steps inside calls are bounded by a measure of the state they start in, and they run out exactly in such a settled state |
| `Watch.CanSettle` | src/watch.rs:41-151 | from every reachable state some schedule of steps inside calls settles |
| `EscrowEntries.FillBatch` | src/escrow.rs:144-191 | one pass takes a safe batch; an entry of its window it passed over has a cap the batch already fills, and it stops early only when the batch fills the smallest cap in it |
| `EscrowEntries.FilledIsMaximal` | src/escrow.rs:144-191 | no entry a pass leaves out could join its batch without exceeding the batch size, its own cap or a member's |
| `EscrowEntries.NominalOutcome` | src/escrow.rs:144-199 | a nominal pass has 87 members with inference first, or its window has fewer than 87 eligible entries |
| `EscrowEntries.SelectClaimBatch` | src/escrow.rs:135-203 | distinct eligible entries of one pass and one window within every cap, to which no further entry could be added; full nominal batches first in window order, or nothing when there is nothing to ship |
| `EscrowEntries.EmptyIffNothingToShip` | src/escrow.rs:135-203 | the result is empty if and only if fewer than 87 entries are eligible and all of them are uncapped, live and of the current window |
| `EscrowChoice.SelectionIsFair` | src/escrow.rs:100-203 | in fields of the entries: a full batch of whole entries of the first window that has one, inference first, else halved ones, else whole ones of a past window, else dead ones; all spendable, of one kind and window, within every cap, with no room for another; or nothing worth sending |
| `EscrowIndexes.PurgeBlockCoherent` | src/escrow.rs:570-587 | giving up a block slashes exactly its purgeable entries and keeps the indexes coherent |
| `EscrowIndexes.TrackOutputsCoherent` | src/escrow.rs:606-665 | tracking a coinbase keeps the indexes coherent, re-added blocks included |
| `EscrowIndexes.TrackOutputsExact` | src/escrow.rs:606-665 | exactly the escrow outputs not tracked yet join the list, each once, in output order, as fresh entries, and are tracked from then on |
| `EscrowIndexes.RebuildCoherent` | src/escrow.rs:413-422 | indexes rebuilt from a list whose live entries are the last of their outpoint are coherent |
| `EscrowIndexes.LivingKeeps` | src/escrow.rs:426-433 | compaction keeps every live entry and nothing else |
| `EscrowIndexes.CompactCoherent` | src/escrow.rs:426-433 | compaction renumbers both indexes coherently |
| `EscrowIndexes.AnswerAllCoherent` | src/escrow.rs:963-1035 | a response keeps the indexes coherent and revives nothing, with or without repeated outpoints |
| `EscrowClaims.ExpireOk` | src/escrow.rs:686-705 | releasing timed-out claims frees exactly their outpoints |
| `EscrowClaims.FreshTxid` | src/escrow.rs:880-897 | outputs nobody waits for make a claim txid nobody waits for |
| `EscrowClaims.AddClaimOk` | src/escrow.rs:828-897 | registering a batch keeps at most four claims with disjoint inputs whose union is the in-flight set |
| `EscrowClaims.BatchInputs` | src/escrow.rs:868-897 | a selected batch of a coherent watcher spends distinct, live, free outputs of one window within every cap |
| `EscrowSteps.StepKeeps` | src/escrow.rs:529-603 | every event keeps coherence and the in-flight books |
| `EscrowSteps.RunKeeps` | src/escrow.rs:529-921 | over every run of events: coherence, no output in two unanswered claims, the in-flight set exactly their union, at most four, and a loadable snapshot |
| `EscrowBlocks.BlockLawful` | src/escrow.rs:529-603 | what a block does in every reachable state: claims older than 600 scores go, every 2000th block keeps exactly the live entries in order, a live entry is slashed if and only if it is a coinbase entry of a red block, exactly the new escrow outputs join as fresh entries, caps and verdicts expire exactly on time, and a fair claim of spendable outputs is sent exactly when one is looked for |
| `EscrowVerdicts.StepLawful` | src/escrow.rs:529-1211 | what every event does to the list, the claims, what is tracked and what awaits validation, field by field, with every other field unchanged |
| `EscrowVerdicts.RemovedLawful` | src/escrow.rs:755-774 | a reorganisation slashes an entry if and only if it is live and came with a removed block, and releases exactly those outpoints |
| `EscrowVerdicts.ValidatedLawful` | src/escrow.rs:734-751 | an answer slashes an entry if and only if it is live, came with that block, the block was pending and is not on the chain |
| `EscrowVerdicts.ResponseLawful` | src/escrow.rs:906-1077 | a response settles exactly the claim it is about, and changes each field of exactly the first entry of each claimed outpoint as the error says: claimed, slashed, retry count, verdict, cap, pauses |
| `EscrowFiles.StepFiles` | src/escrow.rs:438-485 | which events may write, when it is time for a snapshot or for the journal, what is in the files then, and that otherwise no line is lost |
| `EscrowJournal.ReplayIdempotent` | src/escrow.rs:1464-1501 | replaying the same journal again changes nothing |
| `EscrowJournal.TornLineLosesTail` | src/escrow.rs:457-473 | a crash that tears a line while lines are appended loses that line and those after it and nothing else; a torn last line costs only itself |
| `EscrowJournal.ReplayJournal` | src/escrow.rs:1464-1501 | the loop with its hash index recovers the table that applying the newer lines one by one defines |
| `EscrowReplay.RecoverIs` | src/escrow.rs:1450-1501 | a restart loads for each output exactly the last readable line newer than the snapshot and all lines before it, or else its last entry in the snapshot, and goes on from the newest number |
| `EscrowJournal.SnapshotJournaled` | src/escrow.rs:476-485 | a snapshot, whether or not the journal is emptied behind it, recovers the memory it was taken of |
| `EscrowJournal.FlushJournaled` | src/escrow.rs:438-454 | a flush keeps files plus unwritten lines equal to memory, and if it touches the files it leaves them equal to memory on their own |
| `EscrowJournal.StepJournaled` | src/escrow.rs:224-230 | every event keeps files plus unwritten lines equal to memory, up to dead entries; one that changes the files leaves them equal to memory |
| `EscrowJournal.RunJournaled` | src/escrow.rs:426-485 | the same over every run, with any mix of journal writes, snapshots, failed writes and interrupted snapshots |
| `EscrowJournal.LoadedJournaled` | src/escrow.rs:1450-1501 | any reload from any files with distinct outpoints starts coherent and journaled |
| `EscrowJournal.RestartRecovers` | src/escrow.rs:1450-1501 | after a crash at any moment, with any number of unwritten lines and perhaps a torn one, every entry of memory not in a lost line is loaded back, nothing else comes up live, and the watcher starts coherent and journaled |
| `EscrowJournal.CrashMirrorsLastWrite` | src/escrow.rs:438-485 | over every run, the files alone mirror the entries in memory at the last write that succeeded |
| `EscrowJournal.ShutdownMirrors` | src/escrow.rs:1217-1230 | a last flush that does not fail, or that finds no line unwritten, leaves files a restart loads exactly memory from; a failed one loses nothing |
| `EscrowRuns.AnswerAllAt` | src/escrow.rs:963-1077 | a verdict of either kind on a claim of any size changes exactly the first entry of each claimed outpoint, once, however often outpoints repeat |
| `EscrowRuns.ResponseAt` | src/escrow.rs:906-1061 | what a response does to every entry of every reachable state |
| `EscrowRuns.StepOrigin` | src/escrow.rs:529-603 | where an output's entry comes from in one step: fresh, carried on quietly, or answered |
| `EscrowRuns.LoadedStarts` | src/escrow.rs:355-410 | a freshly loaded watcher satisfies the invariant and the caps, so the run theorems apply from every start |
| `EscrowRuns.RunCaps` | src/escrow.rs:845-850 | over every run no claim in flight is larger than any member's current cap |
| `EscrowRuns.RetriesCountSoloOrphans` | src/escrow.rs:963-1000 | over every run the retry count is the number of solo orphan rejections; forgiveness never lowers it |
| `EscrowRuns.NoSlashByAssociation` | src/escrow.rs:942-1035 | over every run a response slashes an output exactly for its tenth solo orphan rejection, its place on the burned list, or a solo burn without a list |
| `EscrowRuns.CapHalves` | src/escrow.rs:963-1033 | over every run an output's cap is at most 87 halved once per bisecting rejection since it was last uncapped |
| `EscrowRuns.SixRejectionsIsolate` | src/escrow.rs:178-190 | over every run, with six such rejections every claim in flight that contains the output contains nothing else |
| `EscrowLives.StepEvolves` | src/escrow.rs:942-1077 | in every reachable state, every entry a step carries on keeps its output and block, and claimed and slashed never revert, with or without repeated outpoints |
| `EscrowLives.RunEvolves` | src/escrow.rs:942-1077 | over every run that does not compact the output's entry away, claimed and slashed never revert |
| `EscrowLives.ComesBackIff` | src/escrow.rs:426-433 | in every reachable state, an output without a live entry, dead or absent and with or without repeated outpoints, is live after a step if and only if the step is a block that pays it or an inference that names it while its outpoint is untracked or dropped by that block's compaction |
| `EscrowLives.DeadUntilTracked` | src/escrow.rs:529-603 | over every run, an output without a live entry is live at some point if and only if some step tracks it in that way |
| `EscrowLives.ClaimedComesBack` | src/escrow.rs:606-665 | a run from a loaded watcher in which 2000 idle blocks compact a claimed entry away and a later block, which compacts nothing, or a later inference tracks its output as live |
| `EscrowTwins.LiveAnsweredIff` | src/escrow.rs:971-1077 | in every reachable state a claimed output's live entry gets its answer if and only if no other entry has its outpoint |
| `EscrowTwins.PutRecoversLive` | src/escrow.rs:1464-1501 | a change to one entry keeps live entries recoverable if and only if every other live entry has another outpoint or is equal to what is written |
| `EscrowTwins.AnswerRecoversLive` | src/escrow.rs:963-1077 | a verdict on a claim of any size keeps live entries recoverable if and only if every live entry of a claimed outpoint is the first of it |
| `EscrowTwins.FlushRecoversLive` | src/escrow.rs:438-485 | after a flush the live entries are recoverable if and only if they were before or the flush takes a snapshot, even one that does not get to empty the journal |
| `EscrowTwins.ResponseRecoversLive` | src/escrow.rs:906-1061 | in every reachable state whose live entries are recoverable, a response leaves them so if and only if its flush takes a snapshot or every live entry of the claim is the first of its outpoint |
| `EscrowTwins.HealRecoversLive` | src/escrow.rs:845-867 | expiry of caps and orphan verdicts keeps live entries recoverable if and only if wherever a dead twin heals the live one heals too |
| `EscrowTwins.TwinReached` | src/escrow.rs:755-768 | under every gate and txid function a run tracks, reorganises, re-tracks and claims an output, and whatever the answer it goes to the dead entry, the live one stays unchanged and free, and a restart loses it |
| `EscrowWatchers.ClaimingAdds` | src/escrow.rs:1065-1077 | claiming an entry adds its amount once to the total claimed |
| `EscrowWatchers.EscrowWatcher.constructor` | src/escrow.rs:355-422 | loading gives exactly what the files hold in the snapshot's order, indexes of every outpoint and block, empty books and nothing due |
| `EscrowWatchers.EscrowWatcher.RebuildIndexes` | src/escrow.rs:413-422 | rebuilds both indexes from the list, as the transition does |
| `EscrowWatchers.EscrowWatcher.Compact` | src/escrow.rs:426-433 | drops the dead, rebuilds, asks for a snapshot, and does nothing when none is dead |
| `EscrowWatchers.EscrowWatcher.MaybeFlush` | src/escrow.rs:438-454 | keeps files plus unwritten lines equal to memory whatever fails; if the files change, a restart loads exactly the live entries in memory |
| `EscrowWatchers.EscrowWatcher.WriteJournal` | src/escrow.rs:457-473 | a successful write makes the files alone recover what files and unwritten lines stood for; a failed one loses nothing |
| `EscrowWatchers.EscrowWatcher.WriteSnapshot` | src/escrow.rs:476-485 | once the snapshot is in place, with or without the journal emptied, a restart recovers exactly memory and its sequence number; a failure loses nothing |
| `EscrowWatchers.EscrowWatcher.HandleBlock` | src/escrow.rs:529-603 | one block meets the block law and the files law and keeps the invariant; a claim is handed out exactly when one is looked for, selected and can be built, and it is the batch and exactly what joins the claims that have not timed out |
| `EscrowWatchers.EscrowWatcher.TrackBlockEscrows` | src/escrow.rs:606-665 | tracks exactly the escrow outputs not tracked yet, each once, as fresh entries in output order |
| `EscrowWatchers.EscrowWatcher.ExpireInFlight` | src/escrow.rs:686-705 | releases exactly the timed-out claims |
| `EscrowWatchers.EscrowWatcher.StartStateValidation` | src/escrow.rs:712-729 | asks about exactly the blocks of live entries |
| `EscrowWatchers.EscrowWatcher.OnBlockValidated` | src/escrow.rs:734-751 | meets the law of a validated block and the files law, invariant kept |
| `EscrowWatchers.EscrowWatcher.OnChainBlocksRemoved` | src/escrow.rs:755-774 | meets the law of a reorganisation and the files law, invariant kept |
| `EscrowWatchers.EscrowWatcher.OnBlockValidationError` | src/escrow.rs:797-807 | ticks the block off and leaves every entry as it was |
| `EscrowWatchers.EscrowWatcher.FindClaim` | src/escrow.rs:828-897 | claims only below four in flight and with nothing to validate; heals, selects, registers exactly the batch it returns |
| `EscrowWatchers.EscrowWatcher.OnSubmitResponse` | src/escrow.rs:906-1061 | meets the response law and the files law; foreign responses are recognised exactly; an accepted claim reports its outputs and raises the total claimed by exactly the amount it reports |
| `EscrowWatchers.EscrowWatcher.TrackInferenceEscrow` | src/escrow.rs:1175-1211 | an inference escrow with an amount is tracked once, as a fresh entry of output 1 with the old window; files law met, invariant kept |
| `EscrowWatchers.EscrowWatcher.FlushState` | src/escrow.rs:1217-1230 | one step of the machine, invariant kept; if it reports success a restart loads exactly the live entries in memory |
| `Eras.ReachableGates` | src/models.rs:396-407 | keeps exactly the gates whose era is not over, and always the last |
| `Eras.ModelsAllEras` | src/models.rs:306-407 | the staged models are precisely those the tier table mines at some score still ahead, if and only if the v3 gate is scheduled and the chain is below the last score; none twice, in the order of the gates |
| `Eras.MinedIsStaged` | src/models.rs:358-407 | whatever is minable from now on is the model of a kept gate |
| `Eras.StagedIsMined` | src/models.rs:358-407 | the model of a kept gate is mined at some score still ahead |
| `Eras.MinesIsMined` | src/models.rs:334-370 | the model of a tier at a score is the one of the network's table, none before the v3 gate, the private one from its gate on, and the stepped-down tier's from the v5 gate on |
| `Nonces.BatchStartValue` | src/pom_gpu.rs:224-233 | the bit operations give the sub-range's base plus the cursor's free bits, or the base alone when the batch would not fit |
| `Nonces.ConfinedIffFits` | src/pom_gpu.rs:217-233 | with the k low bits free, every nonce of a batch carries the pool's bits if and only if the batch is at most 2^k |
| `Nonces.RunConfined` | src/miner.rs:463-468 | over a whole run every nonce of every batch is confined, and each batch starts right after the previous one exactly if it still fits in the sub-range, else at its beginning |
| `Nonces.SoloRun` | src/miner.rs:463-468 | with every bit free each batch starts right after the previous one, modulo the word |

## Left out

- GPU and FFI code, trace capture, how a block task is drawn and opened, the legacy v1 to v3 proofs beyond their wire layouts: the kernels and verifier modules they rest on are not visible or not mined any more.
- Networking, CLI, stratum and gRPC clients, Telegram, IPFS, plugins: I/O and process control.
- Hash functions, seed mixing, pad entries, the matrix transition, scripts, signatures and txids are parameters; claim txids are taken to be injective in their inputs.
- GGUF parsing: tensors arrive as a list of offset and length in canonical name order, inside the file.
- The closure that `walk` takes in the v5 module is written out at its three uses.
- Merkle.MerkleProof: an index at or beyond the leaf count is not modelled; the source panics or reads a neighbour there and no caller passes one.
- Files are sequences of digests or lines; a write either happens or not, a snapshot may replace the file without the journal being emptied, and a crash may tear the last line. A second crash after a torn tail is not claimed, since appends continue on the unterminated line.
- Wall-clock flush timing: each flush decision is part of the event, so the theorems hold for every timing.
- Rejection texts are given as the facts the code extracts from them: orphan, sequence lock, burned, burned list in lower case, mentioned txids.
- Outpoint keys are pairs of txid and index instead of strings.
- DAA scores, amounts and retry counters are unbounded; u64 and u8 overflow is assumed away.
- Status lines, counters for logs and the pending-escrow report.
- EscrowJournal.RunJournaled: stated for runs whose entry list never repeats an outpoint; `ResponseRecoversLive`, `FlushRecoversLive` and `HealRecoversLive` say exactly what happens otherwise.
- EscrowRuns.NoSlashByAssociation: stated for such runs, because the response path answers the first entry of an outpoint.
- EscrowRuns.SixRejectionsIsolate: counts rejections since the cap last expired, as the property itself does.
- PowGate.GenerateBlockIfPom: jobs before the v4 gate are not modelled; the header hash and the opening for it are parameters.
- Watch.RunKeeps: atomics are sequentially consistent and there is one sender; cloning a receiver is one step.
- Eras.ModelsAllEras: the model table is the one of the source; gate values are parameters.
