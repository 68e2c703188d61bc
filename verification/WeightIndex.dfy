/** The weight index: built once from the model file, reopened from disk, and queried for inclusion
paths (`WeightIndex` in src/pom.rs). */
module WeightIndexes {
  import opened Hashing
  import opened Halving
  import opened Merkle
  import opened MerkleBinding
  import opened Gguf
  import opened SparseIndex
  import opened Outcomes

  datatype WeightIndex = WeightIndex(
    nChunks: nat,
    rT: Digest,
    file: Bytes,
    table: Table,
    tree: seq<Digest>,
    checkpoints: seq<StoredLevel>,
    totalLevels: nat)

  /** `idx` is the index of exactly these chunks. */
  ghost predicate IndexOf(blake: Blake, k: nat, idx: WeightIndex, chunks: seq<Digest>) {
    && k > 0 && chunks != []
    && idx.nChunks == |chunks|
    && Locates(idx.file, idx.table, chunks)
    && idx.checkpoints == Layout(k, |chunks|)
    && idx.totalLevels == Depth(|chunks|) + 1
    && idx.tree == TreeFile(blake, k, Leaves(blake, chunks))
    && Level(blake, Leaves(blake, chunks), Top(k, |chunks|)) == [idx.rT]
  }

  // ---------------------------------------------------------------- the root

  /** `node` hashed with itself `times` times. */
  ghost function Carry(blake: Blake, node: Digest, times: nat): Digest
    decreases times
  {
    if times == 0 then node else Carry(blake, HashPair(blake, node, node), times - 1)
  }

  lemma {:induction false} LevelOfOne(blake: Blake, node: Digest, times: nat)
    ensures Level(blake, [node], times) == [Carry(blake, node, times)]
    decreases times
  {
    if times > 0 {
      var parent := HashPair(blake, node, node);
      assert NextLevel(blake, [node]) == [parent];
      LevelOfOne(blake, parent, times - 1);
    }
  }

  /** The root of the index is the dense root when there are more than `2^(k-1)` chunks. Below that
  the build still folds `k` levels, so the root is the dense root carried up past the top. */
  lemma {:induction false} IndexRoot(blake: Blake, k: nat, idx: WeightIndex, chunks: seq<Digest>)
    requires IndexOf(blake, k, idx, chunks)
    ensures |chunks| > Pow2(k - 1) ==> idx.rT == Root(blake, Leaves(blake, chunks))
    ensures |chunks| <= Pow2(k - 1) ==>
      Depth(|chunks|) < k && idx.rT == Carry(blake, Root(blake, Leaves(blake, chunks)), k - Depth(|chunks|))
  {
    var leaves, n := Leaves(blake, chunks), |chunks|;
    DepthAtLeast(n, k - 1);
    RootIsTopLevel(blake, leaves);
    if k > Depth(n) {
      LevelAdd(blake, leaves, Depth(n), k - Depth(n));
      LevelOfOne(blake, Root(blake, leaves), k - Depth(n));
    }
  }

  /** A hash whose first byte is the successor of its input's first byte. */
  function SuccessorHash(bytes: Bytes): Digest {
    var first := if bytes == [] then 0 else Later(bytes[0], 1);
    seq(32, i requires 0 <= i < 32 => if i == 0 then first else 0)
  }

  /** The byte `times` after `x`, wrapping around. */
  function Later(x: int, times: nat): Byte {
    (x + times) % 256
  }

  lemma {:induction false} CarriedSuccessor(node: Digest, times: nat)
    ensures Carry(SuccessorHash, node, times)[0] == Later(node[0], times)
    decreases times
  {
    if times > 0 {
      var parent := HashPair(SuccessorHash, node, node);
      assert PairInput(node, node)[0] == node[0];
      assert parent[0] == Later(node[0], 1);
      CarriedSuccessor(parent, times - 1);
      LaterStill(node[0], times);
    }
  }

  lemma {:induction false} LaterStill(x: Byte, times: nat)
    requires times > 0
    ensures Later(Later(x, 1), times - 1) == Later(x, times)
  {
  }

  /** Under that hash the recorded root is the dense root for no chunk count up to `2^(k-1)`, and for every
  larger one. */
  lemma {:induction false} SmallRootsDiffer(k: nat, idx: WeightIndex, chunks: seq<Digest>)
    requires IndexOf(SuccessorHash, k, idx, chunks) && k < 256
    ensures idx.rT == Root(SuccessorHash, Leaves(SuccessorHash, chunks)) <==> |chunks| > Pow2(k - 1)
  {
    var root := Root(SuccessorHash, Leaves(SuccessorHash, chunks));
    IndexRoot(SuccessorHash, k, idx, chunks);
    if |chunks| <= Pow2(k - 1) {
      var times: nat := k - Depth(|chunks|);
      CarriedSuccessor(root, times);
      LaterDiffers(root[0], times);
    }
  }

  lemma {:induction false} LaterDiffers(x: Byte, times: nat)
    requires 0 < times < 256
    ensures Later(x, times) != x
  {
  }

  // ---------------------------------------------------------------- building and reopening

  /** Leaves seen so far: `m` whole batches (`done`) already folded into `lower`, then `batch`. */
  ghost predicate Folding(blake: Blake, k: nat, seen: seq<Digest>, lower: seq<Digest>, batch: seq<Digest>,
      done: seq<Digest>, m: nat) {
    seen == done + batch && |batch| < Pow2(k) && |done| == m * Pow2(k) && lower == Level(blake, done, k)
  }

  /** Push one leaf; a full batch is folded `k` levels and its node written. */
  method PushLeaf(blake: Blake, k: nat, leaf: Digest, lower: seq<Digest>, batch: seq<Digest>, ghost seen: seq<Digest>,
      ghost done: seq<Digest>, ghost m: nat)
    returns (lower': seq<Digest>, batch': seq<Digest>, ghost done': seq<Digest>, ghost m': nat)
    requires Folding(blake, k, seen, lower, batch, done, m)
    ensures Folding(blake, k, seen + [leaf], lower', batch', done', m')
  {
    lower', batch', done', m' := lower, batch + [leaf], done, m;
    assert seen + [leaf] == done + batch';
    if |batch'| == Pow2(k) {
      var node := FoldLevels(blake, batch', k);
      AppendBatch(blake, done, batch', m, k);
      lower', batch', done', m' := lower' + [node], [], done + batch', m + 1;
      MulSucc(m, Pow2(k));
    }
  }

  /** Hash the whole chunks of one tensor, in order. */
  method HashTensor(blake: Blake, k: nat, file: Bytes, t: Tensor, lower: seq<Digest>, batch: seq<Digest>,
      ghost before: seq<Digest>, ghost done: seq<Digest>, ghost m: nat)
    returns (lower': seq<Digest>, batch': seq<Digest>, ghost done': seq<Digest>, ghost m': nat)
    requires t.offset + t.len <= |file|
    requires Folding(blake, k, Leaves(blake, before), lower, batch, done, m)
    ensures Folding(blake, k, Leaves(blake, before + TensorChunks(file, t)), lower', batch', done', m')
  {
    lower', batch', done', m' := lower, batch, done, m;
    ghost var own := TensorChunks(file, t);
    assert before + own[..0] == before;
    for c := 0 to t.len / 32
      invariant Folding(blake, k, Leaves(blake, before + own[..c]), lower', batch', done', m')
    {
      var chunk := ChunkAt(file, t.offset + c * 32);
      TensorChunkInFile(file, t, c);
      ghost var seen := Leaves(blake, before + own[..c]);
      lower', batch', done', m' := PushLeaf(blake, k, blake(chunk), lower', batch', seen, done', m');
      assert before + own[..c + 1] == before + own[..c] + [chunk];
      assert Leaves(blake, before + own[..c + 1]) == seen + [blake(chunk)];
    }
    assert own[..t.len / 32] == own;
  }

  /** The open batch at the end is folded the full `k` levels as well. */
  method FlushBatch(blake: Blake, k: nat, lower: seq<Digest>, batch: seq<Digest>, ghost seen: seq<Digest>,
      ghost done: seq<Digest>, ghost m: nat) returns (lower': seq<Digest>)
    requires Folding(blake, k, seen, lower, batch, done, m)
    ensures lower' == Level(blake, seen, k)
  {
    lower' := lower;
    if batch != [] {
      var node := FoldLevels(blake, batch, k);
      AppendBatch(blake, done, batch, m, k);
      lower' := lower' + [node];
    } else {
      assert seen == done;
    }
  }

  method BuildFromGguf(blake: Blake, k: nat, file: Bytes, tensors: seq<Tensor>) returns (r: Result<WeightIndex>)
    requires k > 0 && InFile(file, tensors)
    ensures var chunks := Canonical(file, tensors);
      if chunks == [] then r.Err?
      else r.Ok? && IndexOf(blake, k, r.value, chunks) && r.value.file == file && r.value.table == TableOf(tensors)
  {
    var table: Table, nChunks: nat := [], 0;
    var lower: seq<Digest>, batch: seq<Digest> := [], [];
    ghost var done: seq<Digest>, m: nat := [], 0;
    LevelOfNone(blake, k);
    for t := 0 to |tensors|
      invariant table == TableOf(tensors[..t]) && nChunks == CountChunks(tensors[..t])
      invariant Folding(blake, k, Leaves(blake, Canonical(file, tensors[..t])), lower, batch, done, m)
    {
      assert tensors[..t + 1][..t] == tensors[..t];
      if tensors[t].len / 32 > 0 {
        table := table + [(nChunks, tensors[t].offset)];
      }
      lower, batch, done, m :=
        HashTensor(blake, k, file, tensors[t], lower, batch, Canonical(file, tensors[..t]), done, m);
      nChunks := nChunks + tensors[t].len / 32;
    }
    assert tensors[..|tensors|] == tensors;
    ghost var leaves := Leaves(blake, Canonical(file, tensors));
    TableLocates(file, tensors);
    lower := FlushBatch(blake, k, lower, batch, leaves, done, m);
    if nChunks == 0 {
      return Err("model produced 0 chunks");
    }
    var tree, checkpoints, totalLevels, rT := FinalizeCheckpointUpper(blake, k, lower, nChunks, leaves);
    r := Ok(WeightIndex(nChunks, rT, file, table, tree, checkpoints, totalLevels));
  }

  /** What a tree file left by an earlier run reopens as: only its size is checked. */
  function Reopened(k: nat, file: Bytes, tensors: seq<Tensor>, tree: seq<Digest>): Result<WeightIndex>
    requires k > 0
  {
    var n := CountChunks(tensors);
    if n == 0 then Err("model produced 0 chunks")
    else
      LayoutFromOk(k, n, 0, 0);
      var cps := Layout(k, n);
      var expected := cps[|cps| - 1].offset + 1;
      if |tree| > expected + expected then Err("legacy full tree")
      else if |tree| != expected then Err("cached tree size mismatch")
      else Ok(WeightIndex(n, tree[expected - 1], file, TableOf(tensors), tree, cps, Depth(n) + 1))
  }

  /** The index of a tree file whose last digest is the root. */
  ghost predicate Describes(idx: WeightIndex, k: nat, file: Bytes, tensors: seq<Tensor>, tree: seq<Digest>)
    requires k > 0 && |tree| > 0 && CountChunks(tensors) > 0
  {
    && idx.nChunks == CountChunks(tensors) && idx.rT == tree[|tree| - 1]
    && idx.file == file && idx.table == TableOf(tensors) && idx.tree == tree
    && idx.checkpoints == Layout(k, CountChunks(tensors)) && idx.totalLevels == Depth(CountChunks(tensors)) + 1
  }

  method OpenExistingTree(k: nat, file: Bytes, tensors: seq<Tensor>, tree: seq<Digest>) returns (r: Result<WeightIndex>)
    requires k > 0
    ensures r == Reopened(k, file, tensors, tree)
    ensures r.Ok? <==> CountChunks(tensors) > 0 && |tree| == TreeSize(k, CountChunks(tensors))
    ensures r.Ok? ==> |tree| > 0 && Describes(r.value, k, file, tensors, tree)
  {
    var table: Table, nChunks: nat := [], 0;
    for t := 0 to |tensors|
      invariant table == TableOf(tensors[..t]) && nChunks == CountChunks(tensors[..t])
    {
      assert tensors[..t + 1][..t] == tensors[..t];
      if tensors[t].len / 32 > 0 {
        table := table + [(nChunks, tensors[t].offset)];
      }
      nChunks := nChunks + tensors[t].len / 32;
    }
    assert tensors[..|tensors|] == tensors;
    if nChunks == 0 {
      return Err("model produced 0 chunks");
    }
    var checkpoints, totalLevels := ComputeCheckpointOffsets(k, nChunks);
    LayoutFromOk(k, nChunks, 0, 0);
    var expected := checkpoints[|checkpoints| - 1].offset + 1;
    if |tree| > expected + expected {
      return Err("legacy full tree");
    }
    if |tree| != expected {
      return Err("cached tree size mismatch");
    }
    r := Ok(WeightIndex(nChunks, tree[expected - 1], file, table, tree, checkpoints, totalLevels));
  }

  /** Reopening the file of a built index gives that index back, whatever the chunk count. */
  lemma {:induction false} ReopenedIsBuilt(blake: Blake, k: nat, tensors: seq<Tensor>, built: WeightIndex)
    requires InFile(built.file, tensors) && built.table == TableOf(tensors)
    requires IndexOf(blake, k, built, Canonical(built.file, tensors))
    ensures Reopened(k, built.file, tensors, built.tree) == Ok(built)
  {
    TableLocates(built.file, tensors);
    LastDigest(blake, k, Leaves(blake, Canonical(built.file, tensors)));
  }

  /** Size of the tree file of `n` chunks. */
  function TreeSize(k: nat, n: nat): nat
    requires k > 0 && n > 0
  {
    LayoutFromOk(k, n, 0, 0);
    var cps := Layout(k, n);
    cps[|cps| - 1].offset + 1
  }

  /** The whole of `build_from_gguf`: a cached tree of the right size is taken as it is, anything else is
  rebuilt. The result is the index of the model's chunks if and only if no cached tree has the right size
  or the one that has is the right one. */
  method BuildOrReuse(blake: Blake, k: nat, file: Bytes, tensors: seq<Tensor>, cached: Option<seq<Digest>>)
    returns (r: Result<WeightIndex>)
    requires k > 0 && InFile(file, tensors)
    ensures var chunks := Canonical(file, tensors);
      if chunks == [] then r.Err?
      else
        && r.Ok? && r.value.file == file && r.value.table == TableOf(tensors)
        && (IndexOf(blake, k, r.value, chunks) <==>
              cached.None? || |cached.value| != TreeSize(k, |chunks|)
                || cached.value == TreeFile(blake, k, Leaves(blake, chunks)))
  {
    TableLocates(file, tensors);
    if cached.Some? {
      r := OpenExistingTree(k, file, tensors, cached.value);
      if r.Ok? {
        LastDigest(blake, k, Leaves(blake, Canonical(file, tensors)));
        return;
      }
    }
    r := BuildFromGguf(blake, k, file, tensors);
  }

  // ---------------------------------------------------------------- paths

  /** First checkpoint of `level`. */
  method FindCheckpoint(cps: seq<StoredLevel>, level: nat) returns (j: nat)
    requires HasLevel(cps, level)
    ensures j < |cps| && cps[j].level == level
  {
    j := 0;
    while j < |cps| && cps[j].level != level
      invariant j <= |cps| && forall i | 0 <= i < j :: cps[i].level != level
    {
      j := j + 1;
    }
  }

  /** Checkpoint `j` of the layout reads back its whole level. */
  ghost predicate ReadsBack(tree: seq<Digest>, cp: StoredLevel, nodes: seq<Digest>) {
    cp.count == |nodes| && cp.offset + cp.count <= |tree| && tree[cp.offset..cp.offset + cp.count] == nodes
  }

  lemma {:induction false} CheckpointSlice(blake: Blake, k: nat, leaves: seq<Digest>, cps: seq<StoredLevel>, j: nat)
    requires k > 0 && leaves != [] && LayoutOk(k, |leaves|, cps, 0, 0) && j < |cps|
    ensures ReadsBack(Stored(blake, leaves, cps), cps[j], Level(blake, leaves, cps[j].level))
  {
    var cp, tree, nodes := cps[j], Stored(blake, leaves, cps), Level(blake, leaves, cps[j].level);
    assert EntryOk(k, |leaves|, cp);
    LevelCount(blake, leaves, cp.level);
    CountAtBounds(|leaves|, cp.level);
    StoredAt(blake, k, leaves, cps, j, cp.count - 1);
    forall m | 0 <= m < cp.count ensures tree[cp.offset..cp.offset + cp.count][m] == nodes[m] {
      StoredAt(blake, k, leaves, cps, j, m);
    }
  }

  /** A checkpoint below the top of the tree exists and reads back its level. */
  lemma {:induction false} CheckpointReads(blake: Blake, k: nat, idx: WeightIndex, chunks: seq<Digest>, level: nat)
    requires IndexOf(blake, k, idx, chunks) && 0 < level < Depth(|chunks|) && level % k == 0
    ensures HasLevel(idx.checkpoints, level)
    ensures forall j | 0 <= j < |idx.checkpoints| && idx.checkpoints[j].level == level ::
      ReadsBack(idx.tree, idx.checkpoints[j], Level(blake, Leaves(blake, chunks), level))
  {
    LayoutFromOk(k, |chunks|, 0, 0);
    SmallMultiple(level, k);
    assert HasLevel(idx.checkpoints, level);
    forall j | 0 <= j < |idx.checkpoints| && idx.checkpoints[j].level == level
      ensures ReadsBack(idx.tree, idx.checkpoints[j], Level(blake, Leaves(blake, chunks), level))
    {
      CheckpointSlice(blake, k, Leaves(blake, chunks), idx.checkpoints, j);
    }
  }

  /** Read source nodes `[start, end)` of a level: hashed chunks at level 0, stored digests above. */
  method ReadNodes(blake: Blake, k: nat, idx: WeightIndex, ghost chunks: seq<Digest>, srcLevel: nat, start: nat,
      end: nat) returns (nodes: seq<Digest>)
    requires IndexOf(blake, k, idx, chunks) && srcLevel % k == 0 && (srcLevel == 0 || srcLevel < Depth(|chunks|))
    requires start <= end <= |Level(blake, Leaves(blake, chunks), srcLevel)|
    ensures nodes == Level(blake, Leaves(blake, chunks), srcLevel)[start..end]
  {
    if srcLevel == 0 {
      nodes := ReadLeaves(blake, idx.file, idx.table, chunks, start, end);
    } else {
      CheckpointReads(blake, k, idx, chunks, srcLevel);
      var j := FindCheckpoint(idx.checkpoints, srcLevel);
      nodes := ReadStored(idx.tree, idx.checkpoints[j], Level(blake, Leaves(blake, chunks), srcLevel), start, end);
    }
  }

  method ReadLeaves(blake: Blake, file: Bytes, table: Table, ghost chunks: seq<Digest>, start: nat, end: nat)
    returns (nodes: seq<Digest>)
    requires Locates(file, table, chunks) && start <= end <= |chunks|
    ensures nodes == Leaves(blake, chunks)[start..end]
  {
    ghost var want := Leaves(blake, chunks);
    nodes := [];
    for i := start to end
      invariant nodes == want[start..i]
    {
      assert want[start..i + 1] == want[start..i] + [want[i]];
      nodes := nodes + [blake(ReadChunkBytes(file, table, chunks, i))];
    }
  }

  method ReadStored(tree: seq<Digest>, cp: StoredLevel, ghost want: seq<Digest>, start: nat, end: nat)
    returns (nodes: seq<Digest>)
    requires ReadsBack(tree, cp, want) && start <= end <= |want|
    ensures nodes == want[start..end]
  {
    nodes := [];
    for i := start to end
      invariant nodes == want[start..i]
    {
      assert tree[cp.offset + i] == tree[cp.offset..cp.offset + cp.count][i];
      assert want[start..i + 1] == want[start..i] + [want[i]];
      nodes := nodes + [tree[cp.offset + i]];
    }
  }

  /** Node count of a source level: the chunk count, or what its checkpoint says. */
  method SourceCount(blake: Blake, k: nat, idx: WeightIndex, ghost chunks: seq<Digest>, srcLevel: nat)
    returns (count: nat)
    requires IndexOf(blake, k, idx, chunks) && srcLevel % k == 0 && (srcLevel == 0 || srcLevel < Depth(|chunks|))
    ensures count == |Level(blake, Leaves(blake, chunks), srcLevel)|
  {
    if srcLevel == 0 {
      count := idx.nChunks;
    } else {
      CheckpointReads(blake, k, idx, chunks, srcLevel);
      var j := FindCheckpoint(idx.checkpoints, srcLevel);
      count := idx.checkpoints[j].count;
    }
  }

  /** `compute_subtree_hash`: node `j` that sits `rounds` levels above the stored level `srcLevel`,
  recomputed from the in-range source nodes below it. */
  method ComputeSubtreeHash(blake: Blake, k: nat, idx: WeightIndex, ghost chunks: seq<Digest>, j: nat, rounds: nat,
      srcLevel: nat) returns (node: Digest)
    requires IndexOf(blake, k, idx, chunks) && srcLevel % k == 0 && (srcLevel == 0 || srcLevel < Depth(|chunks|))
    requires j < |Level(blake, Leaves(blake, chunks), srcLevel + rounds)|
    ensures node == Level(blake, Leaves(blake, chunks), srcLevel + rounds)[j]
  {
    ghost var leaves := Leaves(blake, chunks);
    ghost var source := Level(blake, leaves, srcLevel);
    var span := Pow2(rounds);
    var start: nat := j * span;
    var sourceCount := SourceCount(blake, k, idx, chunks, srcLevel);
    assert Level(blake, leaves, srcLevel + rounds) == Level(blake, source, rounds) by {
      LevelAdd(blake, leaves, srcLevel, rounds);
    }
    NodeFromBatch(blake, source, j, rounds, start);
    assert start < sourceCount; // the original's zero-digest guard is never taken
    var end := if start + span <= sourceCount then start + span else sourceCount;
    node := FoldSource(blake, k, idx, chunks, srcLevel, start, end, rounds);
  }

  /** Read a batch of source nodes and fold it. */
  method FoldSource(blake: Blake, k: nat, idx: WeightIndex, ghost chunks: seq<Digest>, srcLevel: nat, start: nat,
      end: nat, rounds: nat) returns (node: Digest)
    requires IndexOf(blake, k, idx, chunks) && srcLevel % k == 0 && (srcLevel == 0 || srcLevel < Depth(|chunks|))
    requires start < end <= |Level(blake, Leaves(blake, chunks), srcLevel)| && end - start <= Pow2(rounds)
    ensures Level(blake, Level(blake, Leaves(blake, chunks), srcLevel)[start..end], rounds) == [node]
  {
    var nodes := ReadNodes(blake, k, idx, chunks, srcLevel, start, end);
    node := FoldLevels(blake, nodes, rounds);
  }

  /** A node `rounds` levels up is folded from the nodes from `start` on. */
  lemma {:induction false} NodeFromBatch(blake: Blake, source: seq<Digest>, j: nat, rounds: nat, start: nat)
    requires j < |Level(blake, source, rounds)| && start == j * Pow2(rounds)
    ensures start < |source|
    ensures Level(blake, source[start..Min(start + Pow2(rounds), |source|)], rounds)
      == [Level(blake, source, rounds)[j]]
  {
    SubtreeStart(blake, source, j, rounds);
    assert (j + 1) * Pow2(rounds) == start + Pow2(rounds) by { MulSucc(j, Pow2(rounds)); }
    NodeIsFoldOfBatch(blake, source, j, rounds);
  }

  lemma {:induction false} SubtreeStart(blake: Blake, source: seq<Digest>, j: nat, rounds: nat)
    requires j < |Level(blake, source, rounds)|
    ensures j * Pow2(rounds) < |source|
  {
    LevelCount(blake, source, rounds);
    if source == [] {
      LevelOfNone(blake, rounds);
    } else {
      CountAtBounds(|source|, rounds);
      MulMonotone(j, CountAt(|source|, rounds) - 1, Pow2(rounds));
    }
  }

  /** `count_at_level`. */
  method CountAtLevel(n: nat, level: nat) returns (count: nat)
    ensures count == CountAt(n, level)
  {
    count := n;
    for i := 0 to level
      invariant CountAt(count, level - i) == CountAt(n, level)
    {
      count := (count + 1) / 2;
    }
  }

  /** Nearest source level at or below `level`. */
  method SourceLevel(level: nat, k: nat) returns (src: nat)
    requires k > 0
    ensures src <= level && src % k == 0 && (level % k == 0 ==> src == level)
  {
    ghost var q, r := level / k, level % k;
    assert level == k * q + r;
    DivUnique(q * k, k, q, 0);
    src := (level / k) * k;
  }

  /** A sibling read directly from the checkpoint of its level. */
  method StoredSibling(blake: Blake, k: nat, idx: WeightIndex, ghost chunks: seq<Digest>, level: nat, i: nat)
    returns (node: Digest)
    requires IndexOf(blake, k, idx, chunks) && 0 < level < Depth(|chunks|) && level % k == 0
    requires i < |Level(blake, Leaves(blake, chunks), level)|
    ensures node == Sibling(Level(blake, Leaves(blake, chunks), level), i)
  {
    CheckpointReads(blake, k, idx, chunks, level);
    var j := FindCheckpoint(idx.checkpoints, level);
    node := ReadSibling(idx.tree, idx.checkpoints[j], Level(blake, Leaves(blake, chunks), level), i);
  }

  method ReadSibling(tree: seq<Digest>, cp: StoredLevel, ghost nodes: seq<Digest>, i: nat) returns (node: Digest)
    requires ReadsBack(tree, cp, nodes) && i < |nodes|
    ensures node == Sibling(nodes, i)
  {
    var sibIdx: nat := if i % 2 == 0 then i + 1 else i - 1;
    var realIdx := if sibIdx < cp.count then sibIdx else i;
    assert tree[cp.offset + realIdx] == tree[cp.offset..cp.offset + cp.count][realIdx];
    node := tree[cp.offset + realIdx];
  }

  /** A sibling recomputed from the source level below it. */
  method RecomputedSibling(blake: Blake, k: nat, idx: WeightIndex, ghost chunks: seq<Digest>, level: nat, i: nat)
    returns (node: Digest)
    requires IndexOf(blake, k, idx, chunks) && level < Depth(|chunks|)
    requires i < |Level(blake, Leaves(blake, chunks), level)|
    ensures node == Sibling(Level(blake, Leaves(blake, chunks), level), i)
  {
    var sibIdx: nat := if i % 2 == 0 then i + 1 else i - 1;
    var count := CountAtLevel(idx.nChunks, level);
    LevelCount(blake, Leaves(blake, chunks), level);
    var realIdx := if sibIdx < count then sibIdx else i;
    var srcLevel := SourceLevel(level, k);
    node := ComputeSubtreeHash(blake, k, idx, chunks, realIdx, level - srcLevel, srcLevel);
  }

  /** `merkle_path`: node for node the proof the dense tree would give, for every chunk count. */
  method MerklePath(blake: Blake, k: nat, idx: WeightIndex, ghost chunks: seq<Digest>, off: nat)
    returns (path: seq<Digest>)
    requires IndexOf(blake, k, idx, chunks) && off < idx.nChunks
    ensures path == Path(blake, Leaves(blake, chunks), off)
  {
    ghost var leaves := Leaves(blake, chunks);
    PathLength(blake, leaves, off);
    path := [];
    var i: nat := off;
    for level := 0 to idx.totalLevels
      invariant level < idx.totalLevels ==> i == Shr(off, level) && path == Path(blake, leaves, off)[..level]
      invariant level == idx.totalLevels ==> path == Path(blake, leaves, off)
    {
      if level == idx.totalLevels - 1 {
        break;
      }
      PathEntry(blake, leaves, off, level);
      var node: Digest;
      if level > 0 && level % k == 0 {
        node := StoredSibling(blake, k, idx, chunks, level, i);
      } else {
        node := RecomputedSibling(blake, k, idx, chunks, level, i);
      }
      path := path + [node];
      i := i / 2;
      ShrSucc(off, level);
    }
  }

  /** Every path the index hands out climbs to the dense root. It is accepted against the index's own
  root whenever there are more than `2^(k-1)` chunks; below that only if carrying the dense root up
  to level `k` happens to give it back. */
  lemma {:induction false} IndexPathAccepted(blake: Blake, k: nat, idx: WeightIndex, chunks: seq<Digest>, off: nat)
    requires IndexOf(blake, k, idx, chunks) && off < |chunks|
    ensures var root := Root(blake, Leaves(blake, chunks));
      Climb(blake, blake(chunks[off]), off, Path(blake, Leaves(blake, chunks), off)) == idx.rT
      <==> |chunks| > Pow2(k - 1) || (Depth(|chunks|) < k && Carry(blake, root, k - Depth(|chunks|)) == root)
  {
    IndexRoot(blake, k, idx, chunks);
    PathClimbsToRoot(blake, Leaves(blake, chunks), off);
  }
}
