/** The sparse checkpoint index over the weight chunks (src/pom.rs).

Only every `k`-th level of the tree and its root are kept in a file of digests (`k` is
CHECKPOINT_INTERVAL, 6 in the miner; every result holds for all `k >= 1`). Other nodes are
recomputed from the stored level below them. Offsets count digests, not bytes. */
module SparseIndex {
  import opened Hashing
  import opened Halving
  import opened Merkle

  const CHECKPOINT_INTERVAL: nat := 6

  datatype StoredLevel = StoredLevel(level: nat, offset: nat, count: nat)

  // ---------------------------------------------------------------- layout

  predicate IsCheckpoint(k: nat, level: nat, count: nat)
    requires k > 0
  {
    (level > 0 && level % k == 0) || count == 1
  }

  function LayoutFrom(k: nat, count: nat, off: nat, level: nat): seq<StoredLevel>
    requires k > 0 && count > 0
    decreases count
  {
    if count == 1 then [StoredLevel(level, off, count)]
    else if IsCheckpoint(k, level, count) then
      [StoredLevel(level, off, count)] + LayoutFrom(k, (count + 1) / 2, off + count, level + 1)
    else LayoutFrom(k, (count + 1) / 2, off, level + 1)
  }

  function Layout(k: nat, n: nat): seq<StoredLevel>
    requires k > 0 && n > 0
  {
    LayoutFrom(k, n, 0, 0)
  }

  method ComputeCheckpointOffsets(k: nat, nChunks: nat) returns (checkpoints: seq<StoredLevel>, totalLevels: nat)
    requires k > 0 && nChunks > 0
    ensures checkpoints == Layout(k, nChunks)
    ensures totalLevels == Depth(nChunks) + 1
  {
    checkpoints := [];
    var count: nat, off: nat, level: nat := nChunks, 0, 0;
    while true
      invariant count > 0
      invariant checkpoints + LayoutFrom(k, count, off, level) == Layout(k, nChunks)
      invariant level + Depth(count) == Depth(nChunks)
      decreases count
    {
      var isCheckpoint := (level > 0 && level % k == 0) || count == 1;
      if isCheckpoint {
        checkpoints := checkpoints + [StoredLevel(level, off, count)];
      }
      if count == 1 {
        break;
      }
      if isCheckpoint {
        off := off + count;
      }
      count := (count + 1) / 2;
      level := level + 1;
    }
    totalLevels := level + 1;
  }

  /** Entry `i` describes a real level of a tree over `n` leaves. */
  ghost predicate EntryOk(k: nat, n: nat, cp: StoredLevel)
    requires k > 0
  {
    cp.level <= Depth(n) && cp.count == CountAt(n, cp.level) && IsCheckpoint(k, cp.level, cp.count)
  }

  /** Levels ascend and each starts where the one before it ends. */
  ghost predicate Follows(a: StoredLevel, b: StoredLevel) {
    a.level < b.level && b.offset == a.offset + a.count
  }

  ghost predicate LayoutOk(k: nat, n: nat, cps: seq<StoredLevel>, off: nat, level: nat)
    requires k > 0
  {
    && cps != []
    && cps[0].offset == off
    && cps[|cps| - 1].level == Depth(n)
    && (forall i | 0 <= i < |cps| :: EntryOk(k, n, cps[i]) && level <= cps[i].level)
    && (forall i | 0 < i < |cps| :: Follows(cps[i - 1], cps[i]))
    && (forall m: nat | level <= m < Depth(n) && m > 0 && m % k == 0 :: HasLevel(cps, m))
  }

  ghost predicate HasLevel(cps: seq<StoredLevel>, m: nat) {
    exists i :: 0 <= i < |cps| && cps[i].level == m
  }

  lemma {:induction false} LayoutFromOk(k: nat, n: nat, off: nat, level: nat)
    requires k > 0 && n > 0 && level <= Depth(n)
    ensures CountAt(n, level) > 0
    ensures LayoutOk(k, n, LayoutFrom(k, CountAt(n, level), off, level), off, level)
    decreases Depth(n) - level
  {
    var count := CountAt(n, level);
    CountAtBounds(n, level);
    var cps := LayoutFrom(k, count, off, level);
    if level == Depth(n) {
      DepthReachesOne(n);
      assert cps == [StoredLevel(level, off, 1)];
    } else {
      AboveOneBeforeDepth(n, level);
      CountAtAdd(n, level, 1);
      assert CountAt(count, 1) == (count + 1) / 2 == CountAt(n, level + 1);
      if IsCheckpoint(k, level, count) {
        LayoutFromOk(k, n, off + count, level + 1);
        ConsLayoutOk(k, n, StoredLevel(level, off, count), LayoutFrom(k, (count + 1) / 2, off + count, level + 1));
      } else {
        LayoutFromOk(k, n, off, level + 1);
      }
    }
  }

  lemma {:induction false} ConsLayoutOk(k: nat, n: nat, cp: StoredLevel, rest: seq<StoredLevel>)
    requires k > 0 && EntryOk(k, n, cp) && cp.level < Depth(n)
    requires LayoutOk(k, n, rest, cp.offset + cp.count, cp.level + 1)
    ensures LayoutOk(k, n, [cp] + rest, cp.offset, cp.level)
  {
    var cps := [cp] + rest;
    forall i | 0 < i < |cps| ensures Follows(cps[i - 1], cps[i]) {
      if i > 1 {
        assert Follows(rest[i - 2], rest[i - 1]);
      }
    }
    forall m: nat | cp.level <= m < Depth(n) && m > 0 && m % k == 0 ensures HasLevel(cps, m) {
      if m == cp.level {
        assert cps[0].level == m;
      } else {
        assert HasLevel(rest, m);
        var i :| 0 <= i < |rest| && rest[i].level == m;
        assert cps[i + 1].level == m;
      }
    }
  }

  // ---------------------------------------------------------------- file contents

  /** The digests a file holds when it holds the levels of `cps`. */
  ghost function Stored(blake: Blake, leaves: seq<Digest>, cps: seq<StoredLevel>): seq<Digest> {
    if cps == [] then []
    else
      var n := |cps| - 1;
      Stored(blake, leaves, cps[..n]) + Level(blake, leaves, cps[n].level)
  }

  lemma {:induction false} StoredLength(blake: Blake, k: nat, leaves: seq<Digest>, cps: seq<StoredLevel>, j: nat)
    requires k > 0 && leaves != [] && LayoutOk(k, |leaves|, cps, 0, 0) && j < |cps|
    ensures |Stored(blake, leaves, cps[..j])| == cps[j].offset
    decreases j
  {
    if j > 0 {
      StoredLength(blake, k, leaves, cps, j - 1);
      assert cps[..j][..j - 1] == cps[..j - 1];
      assert Follows(cps[j - 1], cps[j]) && EntryOk(k, |leaves|, cps[j - 1]);
      LevelCount(blake, leaves, cps[j - 1].level);
    }
  }

  lemma {:induction false} StoredPrefix(blake: Blake, leaves: seq<Digest>, cps: seq<StoredLevel>, j: nat)
    requires j <= |cps|
    ensures |Stored(blake, leaves, cps[..j])| <= |Stored(blake, leaves, cps)|
    ensures Stored(blake, leaves, cps)[..|Stored(blake, leaves, cps[..j])|] == Stored(blake, leaves, cps[..j])
    decreases |cps| - j
  {
    if j < |cps| {
      StoredPrefix(blake, leaves, cps, j + 1);
      assert cps[..j + 1][..j] == cps[..j];
      var a, b, c := Stored(blake, leaves, cps[..j]), Stored(blake, leaves, cps[..j + 1]), Stored(blake, leaves, cps);
      assert b[..|a|] == a;
      assert c[..|a|] == c[..|b|][..|a|];
    } else {
      assert cps[..j] == cps;
    }
  }

  /** Every stored level can be read back at its offset. */
  lemma {:induction false} StoredAt(blake: Blake, k: nat, leaves: seq<Digest>, cps: seq<StoredLevel>, j: nat, m: nat)
    requires k > 0 && leaves != [] && LayoutOk(k, |leaves|, cps, 0, 0) && j < |cps| && m < cps[j].count
    ensures m < |Level(blake, leaves, cps[j].level)|
    ensures cps[j].offset + m < |Stored(blake, leaves, cps)|
    ensures Stored(blake, leaves, cps)[cps[j].offset + m] == Level(blake, leaves, cps[j].level)[m]
  {
    assert EntryOk(k, |leaves|, cps[j]);
    LevelCount(blake, leaves, cps[j].level);
    var below, level := Stored(blake, leaves, cps[..j]), Level(blake, leaves, cps[j].level);
    assert |below| == cps[j].offset by { StoredLength(blake, k, leaves, cps, j); }
    assert Stored(blake, leaves, cps[..j + 1]) == below + level by { assert cps[..j + 1][..j] == cps[..j]; }
    StoredPrefix(blake, leaves, cps, j + 1);
    MiddleRead(Stored(blake, leaves, cps), below, level, m);
  }

  lemma {:induction false} MiddleRead(whole: seq<Digest>, below: seq<Digest>, level: seq<Digest>, m: nat)
    requires m < |level| && |below| + |level| <= |whole| && whole[..|below| + |level|] == below + level
    ensures whole[|below| + m] == level[m]
  {
    assert whole[|below| + m] == whole[..|below| + |level|][|below| + m];
  }

  /** Level the file's last digest belongs to: the root, or level `k` of a tree that never gets there. */
  function Top(k: nat, n: nat): nat {
    if k <= Depth(n) then Depth(n) else k
  }

  ghost function TreeFile(blake: Blake, k: nat, leaves: seq<Digest>): seq<Digest>
    requires k > 0 && leaves != []
  {
    if k <= Depth(|leaves|) then Stored(blake, leaves, Layout(k, |leaves|)) else Level(blake, leaves, k)
  }

  // ---------------------------------------------------------------- building

  lemma {:induction false} NextLevelAppend(blake: Blake, a: seq<Digest>, b: seq<Digest>)
    requires |a| % 2 == 0
    ensures NextLevel(blake, a + b) == NextLevel(blake, a) + NextLevel(blake, b)
  {
    var l, r := NextLevel(blake, a + b), NextLevel(blake, a) + NextLevel(blake, b);
    var h := |a| / 2;
    forall i | 0 <= i < |l| ensures l[i] == r[i] {
      assert l[i] == Parent(blake, a + b, i);
      if i < h {
        ParentInLeft(blake, a, b, i);
        assert r[i] == Parent(blake, a, i);
      } else {
        ParentInRight(blake, a, b, h, i - h);
        assert r[i] == Parent(blake, b, i - h);
      }
    }
  }

  lemma {:induction false} ParentInLeft(blake: Blake, a: seq<Digest>, b: seq<Digest>, i: nat)
    requires 2 * i + 1 < |a|
    ensures Parent(blake, a + b, i) == Parent(blake, a, i)
  {
  }

  lemma {:induction false} ParentInRight(blake: Blake, a: seq<Digest>, b: seq<Digest>, h: nat, i: nat)
    requires |a| == 2 * h && 2 * i < |b|
    ensures Parent(blake, a + b, h + i) == Parent(blake, b, i)
  {
    assert (a + b)[2 * (h + i)] == b[2 * i];
  }

  /** Appending one batch at a batch boundary appends its fold `k` levels up. */
  lemma {:induction false} AppendBatch(blake: Blake, nodes: seq<Digest>, batch: seq<Digest>, m: nat, k: nat)
    requires |nodes| == m * Pow2(k) && 0 < |batch| <= Pow2(k)
    ensures Level(blake, nodes + batch, k) == Level(blake, nodes, k) + Level(blake, batch, k)
    ensures |Level(blake, nodes, k)| == m && |Level(blake, batch, k)| == 1
    decreases k
  {
    if k > 0 {
      MulTwo(m, Pow2(k - 1));
      NextLevelAppend(blake, nodes, batch);
      AppendBatch(blake, NextLevel(blake, nodes), NextLevel(blake, batch), m, k - 1);
    } else {
      assert m * Pow2(0) == m;
    }
  }

  lemma {:induction false} LevelOfNone(blake: Blake, k: nat)
    ensures Level(blake, [], k) == []
    decreases k
  {
    if k > 0 {
      LevelOfNone(blake, k - 1);
    }
  }

  /** Fold the level of `prev` up to `rounds` levels higher, batch by batch, appending to the file. */
  method AppendUpperLevel(blake: Blake, file: seq<Digest>, offset: nat, count: nat, rounds: nat,
      ghost prev: seq<Digest>) returns (out: seq<Digest>)
    requires offset + count <= |file| && prev == file[offset..offset + count] && count > 0
    ensures out == file + Level(blake, prev, rounds)
  {
    out := file;
    var batchSize := Pow2(rounds);
    var readIdx: nat := 0;
    ghost var m: nat := 0;
    ghost var written: seq<Digest> := [];
    assert prev[..0] == [];
    LevelOfNone(blake, rounds);
    while readIdx < count
      invariant readIdx <= count && written == Level(blake, prev[..readIdx], rounds)
      invariant readIdx < count ==> readIdx == m * batchSize
      invariant out == file + written
      decreases count - readIdx
    {
      var take := if batchSize <= count - readIdx then batchSize else count - readIdx;
      var batch := file[offset + readIdx..offset + readIdx + take];
      var node := FoldLevels(blake, batch, rounds);
      assert prev[..readIdx] + batch == prev[..readIdx + take];
      NextBoundary(m, batchSize, readIdx, take, count);
      AppendBatch(blake, prev[..readIdx], batch, m, rounds);
      out := out + [node];
      readIdx := readIdx + take;
      m := m + 1;
      written := written + [node];
    }
    assert prev[..readIdx] == prev;
  }

  lemma {:induction false} NextBoundary(m: nat, size: nat, at: nat, take: nat, count: nat)
    requires at == m * size && at < count && take == Min(size, count - at)
    ensures at + take < count ==> at + take == (m + 1) * size
  {
    MulSucc(m, size);
  }

  method FinalizeCheckpointUpper(blake: Blake, k: nat, lower: seq<Digest>, nChunks: nat, ghost leaves: seq<Digest>)
    returns (file: seq<Digest>, checkpoints: seq<StoredLevel>, totalLevels: nat, rT: Digest)
    requires k > 0 && leaves != [] && nChunks == |leaves| && lower == Level(blake, leaves, k)
    ensures checkpoints == Layout(k, nChunks) && totalLevels == Depth(nChunks) + 1
    ensures file == TreeFile(blake, k, leaves)
    ensures Level(blake, leaves, Top(k, nChunks)) == [rT]
  {
    checkpoints, totalLevels := ComputeCheckpointOffsets(k, nChunks);
    file := lower;
    LowestCheckpoint(blake, k, leaves);
    var prev := checkpoints[0];
    ghost var reaches := k <= Depth(nChunks);
    for j := 1 to |checkpoints|
      invariant prev == checkpoints[j - 1]
      invariant file == if reaches then Stored(blake, leaves, checkpoints[..j]) else lower
    {
      var cp := checkpoints[j];
      UpperStep(blake, k, leaves, j);
      file := AppendUpperLevel(blake, file, prev.offset, prev.count, cp.level - prev.level,
        Level(blake, leaves, prev.level));
      prev := cp;
    }
    assert checkpoints[..|checkpoints|] == checkpoints;
    LastDigest(blake, k, leaves);
    rT := file[checkpoints[|checkpoints| - 1].offset];
  }

  /** What one turn of the loop reads and what the file becomes. */
  lemma {:induction false} UpperStep(blake: Blake, k: nat, leaves: seq<Digest>, j: nat)
    requires k > 0 && leaves != [] && 0 < j < |Layout(k, |leaves|)|
    ensures var cps := Layout(k, |leaves|);
      var f, prev, cp := Stored(blake, leaves, cps[..j]), cps[j - 1], cps[j];
      && prev.level < cp.level && 0 < prev.count
      && prev.offset + prev.count <= |f| && f[prev.offset..prev.offset + prev.count] == Level(blake, leaves, prev.level)
      && f + Level(blake, Level(blake, leaves, prev.level), cp.level - prev.level)
        == Stored(blake, leaves, cps[..j + 1])
  {
    var cps := Layout(k, |leaves|);
    LayoutFromOk(k, |leaves|, 0, 0);
    var prev, cp := cps[j - 1], cps[j];
    assert Follows(prev, cp) && EntryOk(k, |leaves|, prev);
    StoredTail(blake, k, leaves, cps, j);
    LevelAdd(blake, leaves, prev.level, cp.level - prev.level);
    CountAtBounds(|leaves|, prev.level);
    assert cps[..j + 1][..j] == cps[..j];
  }

  /** The last level written so far is the tail of the file. */
  lemma {:induction false} StoredTail(blake: Blake, k: nat, leaves: seq<Digest>, cps: seq<StoredLevel>, j: nat)
    requires k > 0 && leaves != [] && LayoutOk(k, |leaves|, cps, 0, 0) && 0 < j <= |cps|
    ensures var f, cp := Stored(blake, leaves, cps[..j]), cps[j - 1];
      cp.offset + cp.count <= |f| && f[cp.offset..cp.offset + cp.count] == Level(blake, leaves, cp.level)
  {
    assert cps[..j][..j - 1] == cps[..j - 1];
    StoredLength(blake, k, leaves, cps, j - 1);
    assert EntryOk(k, |leaves|, cps[j - 1]);
    LevelCount(blake, leaves, cps[j - 1].level);
  }

  /** The first stored level is level `k`, or the root when the tree is lower than that. */
  lemma {:induction false} LowestCheckpoint(blake: Blake, k: nat, leaves: seq<Digest>)
    requires k > 0 && leaves != []
    ensures Layout(k, |leaves|) != []
    ensures var cps := Layout(k, |leaves|);
      if k <= Depth(|leaves|) then cps[0].level == k && Stored(blake, leaves, cps[..1]) == Level(blake, leaves, k)
      else |cps| == 1
  {
    var n := |leaves|;
    var cps := Layout(k, n);
    LayoutFromOk(k, n, 0, 0);
    assert EntryOk(k, n, cps[0]);
    if k <= Depth(n) {
      assert cps[0].level >= k by {
        if cps[0].level < Depth(n) {
          AboveOneBeforeDepth(n, cps[0].level);
          SmallMultiple(cps[0].level, k);
        }
      }
      if k < Depth(n) {
        SmallMultiple(k, k);
        assert HasLevel(cps, k);
        var i :| 0 <= i < |cps| && cps[i].level == k;
        LevelsAscend(k, n, cps, 0, i);
      } else {
        LevelsAscend(k, n, cps, 0, |cps| - 1);
      }
      assert cps[..1][..0] == [] && cps[..1][0] == cps[0];
    } else if |cps| > 1 {
      LevelsAscend(k, n, cps, 0, 1);
      assert EntryOk(k, n, cps[1]);
      AboveOneBeforeDepth(n, cps[0].level);
      SmallMultiple(cps[0].level, k);
    }
  }

  lemma {:induction false} SmallMultiple(x: nat, k: nat)
    requires k > 0
    ensures 0 < x < k ==> x % k != 0
    ensures x == k ==> x % k == 0
  {
  }

  lemma {:induction false} LevelsAscend(k: nat, n: nat, cps: seq<StoredLevel>, i: nat, j: nat)
    requires k > 0 && LayoutOk(k, n, cps, 0, 0) && i <= j < |cps|
    ensures i < j ==> cps[i].level < cps[j].level
    decreases j
  {
    if i < j {
      LevelsAscend(k, n, cps, i, j - 1);
      assert Follows(cps[j - 1], cps[j]);
    }
  }

  /** The digest at the last checkpoint's offset, and the size of the file. */
  lemma {:induction false} LastDigest(blake: Blake, k: nat, leaves: seq<Digest>)
    requires k > 0 && leaves != []
    ensures var cps, f := Layout(k, |leaves|), TreeFile(blake, k, leaves);
      && cps != []
      && |f| == cps[|cps| - 1].offset + 1
      && Level(blake, leaves, Top(k, |leaves|)) == [f[cps[|cps| - 1].offset]]
  {
    var n := |leaves|;
    var cps := Layout(k, n);
    LayoutFromOk(k, n, 0, 0);
    LowestCheckpoint(blake, k, leaves);
    assert EntryOk(k, n, cps[|cps| - 1]);
    DepthReachesOne(n);
    LevelCount(blake, leaves, Top(k, n));
    if k <= Depth(n) {
      assert cps[..|cps|] == cps;
      StoredTail(blake, k, leaves, cps, |cps|);
      StoredLength(blake, k, leaves, cps, |cps| - 1);
      StoredAt(blake, k, leaves, cps, |cps| - 1, 0);
    } else {
      DepthAtLeast(n, k);
      CountOne(n, k);
    }
  }
}
