/** Chunks of 32 bytes and the reader that finds them inside the model file (src/pom.rs).

The weights stay in the GGUF file; a table of (first canonical chunk, file offset) pairs, one per
non-empty tensor, is searched on every read. */
module Gguf {
  import opened Hashing
  import opened Halving

  /** The bytes of `chunks`, one after the other. */
  function Flat(chunks: seq<Digest>): (bytes: Bytes)
    ensures |bytes| == 32 * |chunks|
  {
    if chunks == [] then []
    else
      var n := |chunks| - 1;
      Flat(chunks[..n]) + chunks[n]
  }

  function ChunkAt(bytes: Bytes, pos: nat): Digest
    requires pos + 32 <= |bytes|
  {
    bytes[pos..pos + 32]
  }

  /** The whole chunks of `bytes`; a short tail is dropped. */
  function Chunks(bytes: Bytes): (chunks: seq<Digest>)
    ensures |chunks| == |bytes| / 32
  {
    seq(|bytes| / 32, i requires 0 <= i < |bytes| / 32 => ChunkAt(bytes, 32 * i))
  }

  lemma {:induction false} FlatAppend(a: seq<Digest>, b: seq<Digest>)
    ensures Flat(a + b) == Flat(a) + Flat(b)
    decreases |b|
  {
    if b == [] {
      assert a + b == a;
    } else {
      var n := |b| - 1;
      assert (a + b)[..|a| + n] == a + b[..n];
      FlatAppend(a, b[..n]);
    }
  }

  lemma {:induction false} FlatSlice(chunks: seq<Digest>, i: nat)
    requires i < |chunks|
    ensures ChunkAt(Flat(chunks), 32 * i) == chunks[i]
    decreases |chunks|
  {
    var n := |chunks| - 1;
    if i < n {
      FlatSlice(chunks[..n], i);
      assert ChunkAt(Flat(chunks), 32 * i) == ChunkAt(Flat(chunks[..n]), 32 * i);
    }
  }

  lemma {:induction false} ChunksOfFlat(chunks: seq<Digest>)
    ensures Chunks(Flat(chunks)) == chunks
  {
    forall i | 0 <= i < |chunks| ensures Chunks(Flat(chunks))[i] == chunks[i] {
      FlatSlice(chunks, i);
    }
  }

  /** Whole chunks of consecutive bytes, glued back together. */
  lemma {:induction false} FlatOfChunks(bytes: Bytes)
    requires |bytes| % 32 == 0
    ensures Flat(Chunks(bytes)) == bytes
    decreases |bytes|
  {
    if bytes != [] {
      var n := |bytes| - 32;
      var cs := Chunks(bytes);
      assert cs[..|cs| - 1] == Chunks(bytes[..n]) by {
        forall i | 0 <= i < |cs| - 1 ensures cs[i] == Chunks(bytes[..n])[i] {
          assert ChunkAt(bytes, 32 * i) == ChunkAt(bytes[..n], 32 * i);
        }
      }
      FlatOfChunks(bytes[..n]);
      assert bytes == bytes[..n] + bytes[n..];
    }
  }

  // ---------------------------------------------------------------- the canonical layout

  /** One tensor of the file, in canonical (name-sorted) order. */
  datatype Tensor = Tensor(offset: nat, len: nat)

  ghost predicate InFile(file: Bytes, tensors: seq<Tensor>) {
    forall t | t in tensors :: t.offset + t.len <= |file|
  }

  function TensorChunks(file: Bytes, t: Tensor): (chunks: seq<Digest>)
    requires t.offset + t.len <= |file|
    ensures |chunks| == t.len / 32
  {
    Chunks(file[t.offset..t.offset + t.len])
  }

  /** All whole chunks of all tensors, in order. */
  ghost function Canonical(file: Bytes, tensors: seq<Tensor>): seq<Digest>
    requires InFile(file, tensors)
  {
    if tensors == [] then []
    else
      var n := |tensors| - 1;
      Canonical(file, tensors[..n]) + TensorChunks(file, tensors[n])
  }

  /** Chunk `i` of tensor `j` comes after all chunks of the tensors before it, and is 32 bytes of the file at
  that tensor's offset. */
  lemma {:induction false} CanonicalAt(file: Bytes, tensors: seq<Tensor>, j: nat, i: nat)
    requires InFile(file, tensors) && j < |tensors| && i < tensors[j].len / 32
    ensures forall t | t in tensors[..j] :: t in tensors
    ensures var at, pos := |Canonical(file, tensors[..j])| + i, tensors[j].offset + 32 * i;
      && at < |Canonical(file, tensors)| && pos + 32 <= |file|
      && Canonical(file, tensors)[at] == file[pos..pos + 32]
    decreases |tensors|
  {
    var n := |tensors| - 1;
    var init := tensors[..n];
    if j < n {
      assert init[..j] == tensors[..j] && init[j] == tensors[j];
      CanonicalAt(file, init, j, i);
    } else {
      TensorChunkAt(file, tensors[n], i);
    }
  }

  lemma {:induction false} TensorChunkAt(file: Bytes, t: Tensor, i: nat)
    requires t.offset + t.len <= |file| && i < t.len / 32
    ensures var pos := t.offset + 32 * i; pos + 32 <= |file| && TensorChunks(file, t)[i] == file[pos..pos + 32]
  {
    assert TensorChunks(file, t)[i] == ChunkAt(file[t.offset..t.offset + t.len], 32 * i);
    SliceOfSlice(file, t.offset, t.len, 32 * i);
  }

  lemma {:induction false} SliceOfSlice(file: Bytes, lo: nat, len: nat, pos: nat)
    requires lo + len <= |file| && pos + 32 <= len
    ensures file[lo..lo + len][pos..pos + 32] == file[lo + pos..lo + pos + 32]
  {
    var a, b := file[lo..lo + len][pos..pos + 32], file[lo + pos..lo + pos + 32];
    forall x | 0 <= x < 32 ensures a[x] == b[x] {
      assert a[x] == file[lo..lo + len][pos + x] == file[lo + pos + x];
    }
  }

  /** And there are no others: each tensor counts its whole chunks. */
  lemma {:induction false} CanonicalCount(file: Bytes, tensors: seq<Tensor>, j: nat)
    requires InFile(file, tensors) && j < |tensors|
    ensures (forall t | t in tensors[..j + 1] :: t in tensors) && (forall t | t in tensors[..j] :: t in tensors)
    ensures |Canonical(file, tensors[..j + 1])| == |Canonical(file, tensors[..j])| + tensors[j].len / 32
  {
    assert tensors[..j + 1][..j] == tensors[..j] && tensors[..j + 1][j] == tensors[j];
  }

  type Table = seq<(nat, nat)>

  /** End of table row `j`: the start of the next one, or the chunk count after the last. */
  function RowEnd(table: Table, n: nat, j: nat): nat
    requires j < |table|
  {
    if j + 1 < |table| then table[j + 1].0 else n
  }

  ghost predicate RowReads(file: Bytes, table: Table, chunks: seq<Digest>, j: nat, i: nat)
    requires j < |table| && table[j].0 <= i < |chunks|
  {
    var pos := table[j].1 + (i - table[j].0) * 32;
    pos + 32 <= |file| && ChunkAt(file, pos) == chunks[i]
  }

  /** The rows partition the chunks and each locates its own. */
  ghost predicate Locates(file: Bytes, table: Table, chunks: seq<Digest>) {
    && (chunks != [] ==> table != [] && table[0].0 == 0)
    && (forall j {:trigger RowEnd(table, |chunks|, j)} | 0 <= j < |table| ::
      table[j].0 < RowEnd(table, |chunks|, j) <= |chunks|)
    && (forall j, i {:trigger RowReads(file, table, chunks, j, i)} | 0 <= j < |table|
      && table[j].0 <= i < RowEnd(table, |chunks|, j) :: RowReads(file, table, chunks, j, i))
  }

  /** Appending one tensor's row keeps the table exact. */
  lemma {:induction false} AddRow(file: Bytes, table: Table, chunks: seq<Digest>, t: Tensor)
    requires t.offset + t.len <= |file| && t.len / 32 > 0
    requires Locates(file, table, chunks)
    ensures Locates(file, table + [(|chunks|, t.offset)], chunks + TensorChunks(file, t))
  {
    var table', chunks' := table + [(|chunks|, t.offset)], chunks + TensorChunks(file, t);
    AddedRowEnds(table, |chunks|, t.offset, |chunks'|);
    assert table != [] ==> RowEnd(table, |chunks|, 0) <= |chunks|;
    forall j | 0 <= j < |table'| ensures table'[j].0 < RowEnd(table', |chunks'|, j) <= |chunks'| {
      assert j < |table| ==> table[j].0 < RowEnd(table, |chunks|, j);
    }
    forall j, i | 0 <= j < |table'| && table'[j].0 <= i < RowEnd(table', |chunks'|, j)
      ensures RowReads(file, table', chunks', j, i)
    {
      if j < |table| {
        OldRowReads(file, table, (|chunks|, t.offset), chunks, TensorChunks(file, t), j, i);
      } else {
        NewRowReads(file, table, chunks, t, i);
      }
    }
  }

  lemma {:induction false} AddedRowEnds(table: Table, n: nat, offset: nat, n': nat)
    ensures var table' := table + [(n, offset)];
      && (forall j | 0 <= j < |table| :: table'[j] == table[j] && RowEnd(table', n', j) == RowEnd(table, n, j))
      && table'[|table|] == (n, offset) && RowEnd(table', n', |table|) == n'
  {
  }

  lemma {:induction false} NewRowReads(file: Bytes, table: Table, chunks: seq<Digest>, t: Tensor, i: nat)
    requires t.offset + t.len <= |file| && |chunks| <= i < |chunks| + t.len / 32
    ensures RowReads(file, table + [(|chunks|, t.offset)], chunks + TensorChunks(file, t), |table|, i)
  {
    assert (chunks + TensorChunks(file, t))[i] == TensorChunks(file, t)[i - |chunks|];
    assert (table + [(|chunks|, t.offset)])[|table|] == (|chunks|, t.offset);
    TensorChunkInFile(file, t, i - |chunks|);
  }

  lemma {:induction false} OldRowReads(file: Bytes, table: Table, row: (nat, nat), chunks: seq<Digest>,
      more: seq<Digest>, j: nat, i: nat)
    requires Locates(file, table, chunks) && j < |table| && table[j].0 <= i < RowEnd(table, |chunks|, j) <= |chunks|
    ensures RowReads(file, table + [row], chunks + more, j, i)
  {
    assert RowReads(file, table, chunks, j, i);
    assert (chunks + more)[i] == chunks[i] && (table + [row])[j] == table[j];
  }

  lemma {:induction false} TensorChunkInFile(file: Bytes, t: Tensor, c: nat)
    requires t.offset + t.len <= |file| && c < t.len / 32
    ensures TensorChunks(file, t)[c] == ChunkAt(file, t.offset + c * 32)
  {
    var data := file[t.offset..t.offset + t.len];
    assert data[32 * c..32 * c + 32] == file[t.offset + 32 * c..t.offset + 32 * c + 32];
  }

  /** The table the miner builds: one row per tensor that holds at least one whole chunk. */
  function TableOf(tensors: seq<Tensor>): Table {
    if tensors == [] then []
    else
      var n := |tensors| - 1;
      TableOf(tensors[..n]) + (if tensors[n].len / 32 > 0 then [(CountChunks(tensors[..n]), tensors[n].offset)] else [])
  }

  function CountChunks(tensors: seq<Tensor>): nat {
    if tensors == [] then 0 else CountChunks(tensors[..|tensors| - 1]) + tensors[|tensors| - 1].len / 32
  }

  lemma {:induction false} TableLocates(file: Bytes, tensors: seq<Tensor>)
    requires InFile(file, tensors)
    ensures CountChunks(tensors) == |Canonical(file, tensors)|
    ensures Locates(file, TableOf(tensors), Canonical(file, tensors))
    decreases |tensors|
  {
    if tensors != [] {
      var n := |tensors| - 1;
      TableLocates(file, tensors[..n]);
      if tensors[n].len / 32 > 0 {
        AddRow(file, TableOf(tensors[..n]), Canonical(file, tensors[..n]), tensors[n]);
      } else {
        assert Canonical(file, tensors) == Canonical(file, tensors[..n]);
        assert TableOf(tensors) == TableOf(tensors[..n]);
      }
    }
  }

  // ---------------------------------------------------------------- reading

  /** Rows starting at or before chunk `off`. */
  function PartitionPoint(table: Table, off: nat): (p: nat)
    ensures p <= |table|
  {
    if table == [] || table[0].0 > off then 0 else 1 + PartitionPoint(table[1..], off)
  }

  lemma {:induction false} PartitionPointSplits(table: Table, off: nat)
    ensures forall j | 0 <= j < PartitionPoint(table, off) :: table[j].0 <= off
    ensures var p := PartitionPoint(table, off); p < |table| ==> table[p].0 > off
    decreases |table|
  {
    if table != [] && table[0].0 <= off {
      PartitionPointSplits(table[1..], off);
      forall j | 0 <= j < PartitionPoint(table, off) ensures table[j].0 <= off {
        assert j > 0 ==> table[j] == table[1..][j - 1];
      }
    }
  }

  lemma {:induction false} RowOfChunk(file: Bytes, table: Table, chunks: seq<Digest>, off: nat)
    requires Locates(file, table, chunks) && off < |chunks|
    ensures var p := PartitionPoint(table, off);
      p > 0 && table[p - 1].0 <= off < RowEnd(table, |chunks|, p - 1) && RowReads(file, table, chunks, p - 1, off)
  {
    PartitionPointSplits(table, off);
    assert table[0].0 <= off;
  }

  /** `read_chunk_bytes`: any chunk below the count is found, and is the canonical one. */
  function ReadChunkBytes(file: Bytes, table: Table, ghost chunks: seq<Digest>, off: nat): (chunk: Digest)
    requires Locates(file, table, chunks) && off < |chunks|
    ensures chunk == chunks[off]
  {
    RowOfChunk(file, table, chunks, off);
    var j := PartitionPoint(table, off) - 1;
    var (start, fileOff) := table[j];
    ChunkAt(file, fileOff + (off - start) * 32)
  }

  /** `read_chunk_range`: fills `out` row by row, crossing tensor boundaries. */
  method ReadChunkRange(file: Bytes, table: Table, ghost chunks: seq<Digest>, nChunks: nat, first: nat,
      out: array<Byte>)
    requires Locates(file, table, chunks) && nChunks == |chunks|
    requires out.Length % 32 == 0 && first + out.Length / 32 <= |chunks|
    modifies out
    ensures out[..] == Flat(chunks[first..first + out.Length / 32])
  {
    if out.Length > 0 {
      RowOfChunk(file, table, chunks, first);
    }
    var cur: nat, filled: nat := first, 0;
    var j := PartitionPoint(table, cur) - 1;
    ghost var n := out.Length / 32;
    while filled < out.Length
      invariant filled == 32 * (cur - first) && first <= cur <= first + n
      invariant cur < first + n ==> 0 <= j < |table| && table[j].0 <= cur < RowEnd(table, nChunks, j)
      invariant out[..filled] == Flat(chunks[first..cur])
    {
      filled, cur := FillFromRow(file, table, chunks, nChunks, first, n, out, j, cur, filled);
      if j + 1 < |table| {
        assert table[j + 1].0 < RowEnd(table, nChunks, j + 1);
      }
      j := j + 1;
    }
    assert out[..] == out[..filled];
  }

  /** One turn of the loop: what row `j` has of the chunks still wanted. */
  method FillFromRow(file: Bytes, table: Table, ghost chunks: seq<Digest>, nChunks: nat, ghost first: nat, ghost n: nat,
      out: array<Byte>, j: nat, cur: nat, filled: nat) returns (filled': nat, cur': nat)
    requires Locates(file, table, chunks) && nChunks == |chunks| && first + n <= |chunks| && out.Length == 32 * n
    requires j < |table| && table[j].0 <= cur < RowEnd(table, nChunks, j)
    requires first <= cur < first + n && filled == 32 * (cur - first) && out[..filled] == Flat(chunks[first..cur])
    modifies out
    ensures cur' == Min(RowEnd(table, nChunks, j), first + n) && filled' == 32 * (cur' - first)
    ensures out[..filled'] == Flat(chunks[first..cur'])
  {
    var (tStart, tFileOff) := table[j];
    var tEnd := RowEnd(table, nChunks, j);
    var take := if (tEnd - cur) * 32 <= out.Length - filled then (tEnd - cur) * 32 else out.Length - filled;
    ghost var k := WholeChunks(tEnd, cur, first, n);
    assert take == 32 * k;
    var pos := tFileOff + (cur - tStart) * 32;
    RunExtends(file, table, chunks, j, first, cur, k, pos);
    ReadExactAt(file, out, filled, take, pos);
    filled', cur' := filled + take, cur + take / 32;
  }

  /** The bytes taken from a row are a whole number of chunks. */
  lemma {:induction false} WholeChunks(tEnd: nat, cur: nat, first: nat, n: nat) returns (k: nat)
    requires first <= cur < first + n && cur < tEnd
    ensures k > 0 && cur + k == Min(tEnd, first + n)
    ensures 32 * k == Min((tEnd - cur) * 32, 32 * n - 32 * (cur - first))
  {
    k := Min(tEnd, first + n) - cur;
  }

  /** The next `k` chunks of row `j` continue what has been read. */
  lemma {:induction false} RunExtends(file: Bytes, table: Table, chunks: seq<Digest>, j: nat, first: nat, cur: nat,
      k: nat, pos: nat)
    requires Locates(file, table, chunks) && j < |table| && table[j].0 <= cur && first <= cur <= |chunks|
    requires 0 < k && cur + k <= RowEnd(table, |chunks|, j) && pos == table[j].1 + (cur - table[j].0) * 32
    ensures pos + 32 * k <= |file| && cur + k <= |chunks|
    ensures Flat(chunks[first..cur]) + file[pos..pos + 32 * k] == Flat(chunks[first..cur + k])
  {
    RowRun(file, table, chunks, j, cur, k);
    assert chunks[first..cur] + chunks[cur..cur + k] == chunks[first..cur + k];
    FlatAppend(chunks[first..cur], chunks[cur..cur + k]);
  }

  /** Positional read of `take` bytes into `out[filled..]`. */
  method ReadExactAt(file: Bytes, out: array<Byte>, filled: nat, take: nat, pos: nat)
    requires filled + take <= out.Length && pos + take <= |file|
    modifies out
    ensures out[..filled + take] == old(out[..filled]) + file[pos..pos + take]
    ensures out[filled + take..] == old(out[filled + take..])
  {
    forall i | 0 <= i < take {
      out[filled + i] := file[pos + i];
    }
  }

  /** A run of whole chunks inside one row is contiguous in the file. */
  lemma {:induction false} RowRun(file: Bytes, table: Table, chunks: seq<Digest>, j: nat, cur: nat, k: nat)
    requires Locates(file, table, chunks) && j < |table| && table[j].0 <= cur
    requires 0 < k && cur + k <= RowEnd(table, |chunks|, j)
    ensures var pos := table[j].1 + (cur - table[j].0) * 32;
      pos + 32 * k <= |file| && cur + k <= |chunks| && file[pos..pos + 32 * k] == Flat(chunks[cur..cur + k])
    decreases k
  {
    var pos := table[j].1 + (cur - table[j].0) * 32;
    var run := chunks[cur..cur + k];
    assert RowReads(file, table, chunks, j, cur + k - 1);
    assert run[..k - 1] == chunks[cur..cur + k - 1];
    if k > 1 {
      RowRun(file, table, chunks, j, cur, k - 1);
      assert file[pos..pos + 32 * k] == file[pos..pos + 32 * (k - 1)] + ChunkAt(file, pos + 32 * (k - 1));
    }
  }
}
