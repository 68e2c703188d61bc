/** Index coherence of the escrow machine: what the two lookup indexes owe the entry list after any
transition (src/escrow.rs:413-433, 570-587, 606-665, 734-774, 1175-1211). */
module EscrowIndexes {
  import opened EscrowEntries
  import opened EscrowModel

  ghost predicate TrackedOk(w: Watcher, i: nat)
    requires i < |w.entries|
  {
    w.entries[i].Live() ==> w.entries[i].Outpoint() in w.tracked
  }

  ghost predicate IndexedOk(w: Watcher, i: nat)
    requires i < |w.entries|
  {
    var h := w.entries[i].blockHash;
    w.entries[i].Live() && h != "" ==> h in w.blockIndex && i in w.blockIndex[h]
  }

  ghost predicate RowOk(w: Watcher, h: string)
    requires h in w.blockIndex
  {
    forall i | i in w.blockIndex[h] :: i < |w.entries| && w.entries[i].blockHash == h
  }

  /** `b` comes later in the list: only a dead entry can have the outpoint of a later one. */
  ghost predicate Apart(a: Entry, b: Entry) {
    a.Live() ==> a.Outpoint() != b.Outpoint()
  }

  /** Every live entry is tracked, indexed under its block and the last of its outpoint, so that no two
  live entries share one, and an index row holds only in-range indices of its own block, which has a name. */
  ghost predicate Coherent(w: Watcher) {
    && (forall i: nat | i < |w.entries| :: TrackedOk(w, i))
    && (forall i: nat | i < |w.entries| :: IndexedOk(w, i))
    && (forall h | h in w.blockIndex :: RowOk(w, h)) && "" !in w.blockIndex
    && (forall i: nat, j: nat | i < j < |w.entries| :: Apart(w.entries[i], w.entries[j]))
  }

  /** Same output, same block; a claimed or slashed entry stays so. */
  ghost predicate Evolves(e: Entry, e': Entry) {
    && e'.txid == e.txid && e'.outputIndex == e.outputIndex && e'.blockHash == e.blockHash
    && (e.claimed ==> e'.claimed) && (e.slashed ==> e'.slashed)
  }

  /** The entry list moved on without anybody coming back to life. */
  ghost predicate EntriesEvolve(a: seq<Entry>, b: seq<Entry>) {
    |b| == |a| && forall i | 0 <= i < |a| :: Evolves(a[i], b[i])
  }

  // ---------------------------------------------------------------- primitives

  lemma {:induction false} EvolvedCoherent(w: Watcher, w': Watcher)
    requires Coherent(w) && EntriesEvolve(w.entries, w'.entries)
    requires w'.tracked == w.tracked && w'.blockIndex == w.blockIndex
    ensures Coherent(w')
  {
    forall i: nat | i < |w'.entries| ensures TrackedOk(w', i) && IndexedOk(w', i) {
      assert TrackedOk(w, i) && IndexedOk(w, i) && Evolves(w.entries[i], w'.entries[i]);
    }
    forall h | h in w'.blockIndex ensures RowOk(w', h) {
      assert RowOk(w, h);
      forall i | i in w'.blockIndex[h] ensures i < |w'.entries| && w'.entries[i].blockHash == h {
        assert Evolves(w.entries[i], w'.entries[i]);
      }
    }
    forall i: nat, j: nat | i < j < |w'.entries| ensures Apart(w'.entries[i], w'.entries[j]) {
      assert Apart(w.entries[i], w.entries[j]) && Evolves(w.entries[i], w'.entries[i])
        && Evolves(w.entries[j], w'.entries[j]);
    }
  }

  lemma {:induction false} PutCoherent(w: Watcher, i: nat, e: Entry)
    requires Coherent(w) && i < |w.entries| && Evolves(w.entries[i], e)
    ensures Coherent(Put(w, i, e))
  {
    EvolvedCoherent(w, Put(w, i, e));
  }

  lemma {:induction false} PushCoherent(w: Watcher, e: Entry)
    requires Coherent(w) && e.Live() && e.Outpoint() !in w.tracked
    ensures Coherent(Push(w, e))
  {
    var w', n := Push(w, e), |w.entries|;
    forall i: nat | i < |w'.entries| ensures TrackedOk(w', i) && IndexedOk(w', i) {
      if i < n {
        assert w'.entries[i] == w.entries[i] && TrackedOk(w, i) && IndexedOk(w, i);
      }
    }
    forall h | h in w'.blockIndex ensures RowOk(w', h) {
      PushRow(w, e, h);
    }
    forall i: nat, j: nat | i < j < |w'.entries| ensures Apart(w'.entries[i], w'.entries[j]) {
      if j < n {
        assert Apart(w.entries[i], w.entries[j]);
      } else {
        assert TrackedOk(w, i);
      }
    }
  }

  lemma {:induction false} PushRow(w: Watcher, e: Entry, h: string)
    requires Coherent(w) && h in Push(w, e).blockIndex
    ensures RowOk(Push(w, e), h)
  {
    var w', n := Push(w, e), |w.entries|;
    forall i | i in w'.blockIndex[h] ensures i < |w'.entries| && w'.entries[i].blockHash == h {
      if h in w.blockIndex && i in w.blockIndex[h] {
        assert RowOk(w, h);
      } else {
        assert i == n;
      }
    }
  }

  /** Releasing a purged entry's outpoint frees no other live entry's. */
  lemma {:induction false} PurgeCoherent(w: Watcher, i: nat, how: Purge)
    requires Coherent(w)
    ensures Coherent(PurgeEntry(w, i, how))
    ensures |PurgeEntry(w, i, how).entries| == |w.entries| && PurgeEntry(w, i, how).blockIndex == w.blockIndex
  {
    if i < |w.entries| && Purgeable(w.entries[i], how) {
      var e, w' := w.entries[i], PurgeEntry(w, i, how);
      var slashedOnly := w'.(tracked := w.tracked);
      EvolvedCoherent(w, slashedOnly);
      forall j: nat | j < |w'.entries| ensures TrackedOk(w', j) && IndexedOk(w', j) {
        assert TrackedOk(slashedOnly, j) && IndexedOk(slashedOnly, j);
        if j < i {
          assert Apart(w.entries[j], w.entries[i]);
        } else if j > i {
          assert Apart(w.entries[i], w.entries[j]);
        }
      }
      forall h | h in w'.blockIndex ensures RowOk(w', h) {
        assert RowOk(slashedOnly, h);
      }
      forall a: nat, b: nat | a < b < |w'.entries| ensures Apart(w'.entries[a], w'.entries[b]) {
        assert Apart(slashedOnly.entries[a], slashedOnly.entries[b]);
      }
    }
  }

  // ---------------------------------------------------------------- purging

  /** Entry `i` after the indices of `is` were purged. */
  ghost function Purged(e: Entry, i: nat, indices: seq<nat>, how: Purge): Entry {
    if i in indices && Purgeable(e, how) then e.(slashed := true) else e
  }

  lemma {:induction false} PurgeIndicesCoherent(w: Watcher, indices: seq<nat>, how: Purge)
    requires Coherent(w)
    ensures var w' := PurgeIndices(w, indices, how);
      && Coherent(w') && |w'.entries| == |w.entries| && w'.blockIndex == w.blockIndex
      && forall i: nat | i < |w.entries| :: w'.entries[i] == Purged(w.entries[i], i, indices, how)
    decreases |indices|
  {
    if indices != [] {
      var w1 := PurgeEntry(w, indices[0], how);
      PurgeCoherent(w, indices[0], how);
      PurgeIndicesCoherent(w1, indices[1..], how);
      var w' := PurgeIndices(w, indices, how);
      forall i: nat | i < |w.entries| ensures w'.entries[i] == Purged(w.entries[i], i, indices, how) {
        assert w1.entries[i] == Purged(w.entries[i], i, [indices[0]], how);
        assert i in indices <==> i == indices[0] || i in indices[1..];
      }
    }
  }

  /** A purged block leaves no live entry behind it. */
  lemma {:induction false} PurgeBlockCoherent(w: Watcher, h: string, how: Purge)
    requires Coherent(w)
    ensures var w' := PurgeBlock(w, h, how);
      && Coherent(w') && |w'.entries| == |w.entries|
      && forall i: nat | i < |w.entries| ::
           w'.entries[i] ==
             if h in w.blockIndex && i in w.blockIndex[h] && Purgeable(w.entries[i], how) then
               w.entries[i].(slashed := true)
             else w.entries[i]
  {
    if h in w.blockIndex {
      var rows := w.blockIndex[h];
      var done := PurgeIndices(w, rows, how);
      PurgeIndicesCoherent(w, rows, how);
      if how == Reorg {
        var w' := done.(blockIndex := done.blockIndex - {h});
        forall i: nat | i < |w'.entries| ensures TrackedOk(w', i) && IndexedOk(w', i) {
          assert TrackedOk(done, i) && IndexedOk(done, i);
          assert done.entries[i] == Purged(w.entries[i], i, rows, how) && IndexedOk(w, i);
        }
        forall g | g in w'.blockIndex ensures RowOk(w', g) {
          assert RowOk(done, g);
        }
        forall i: nat, j: nat | i < j < |w'.entries| ensures Apart(w'.entries[i], w'.entries[j]) {
          assert Apart(done.entries[i], done.entries[j]);
        }
      }
    }
  }

  /** What purging some blocks makes of one entry. */
  ghost function PurgedWith(e: Entry, hashes: seq<string>, how: Purge): Entry {
    if e.blockHash != "" && e.blockHash in hashes && Purgeable(e, how) then e.(slashed := true) else e
  }

  lemma {:induction false} PurgeBlocksCoherent(w: Watcher, hashes: seq<string>, how: Purge)
    requires Coherent(w)
    ensures var w' := PurgeBlocks(w, hashes, how);
      && Coherent(w') && EntriesEvolve(w.entries, w'.entries)
      && forall i: nat | i < |w.entries| :: w'.entries[i] == PurgedWith(w.entries[i], hashes, how)
    decreases |hashes|
  {
    if hashes != [] {
      var w1, rest := PurgeBlock(w, hashes[0], how), hashes[1..];
      PurgeBlockExact(w, hashes[0], how);
      PurgeBlocksCoherent(w1, rest, how);
      forall i: nat | i < |w.entries|
        ensures PurgeBlocks(w, hashes, how).entries[i] == PurgedWith(w.entries[i], hashes, how)
      {
        PurgedTwice(w.entries[i], hashes, how);
      }
    }
  }

  /** In a coherent watcher the index finds exactly the live entries of a block. */
  lemma {:induction false} PurgeBlockExact(w: Watcher, h: string, how: Purge)
    requires Coherent(w)
    ensures var w' := PurgeBlock(w, h, how);
      && Coherent(w') && |w'.entries| == |w.entries|
      && forall i: nat | i < |w.entries| :: w'.entries[i] == PurgedWith(w.entries[i], [h], how)
  {
    PurgeBlockCoherent(w, h, how);
    forall i: nat | i < |w.entries|
      ensures PurgeBlock(w, h, how).entries[i] == PurgedWith(w.entries[i], [h], how)
    {
      assert IndexedOk(w, i);
      if h in w.blockIndex && i in w.blockIndex[h] {
        assert RowOk(w, h);
      }
    }
  }

  lemma {:induction false} PurgedTwice(e: Entry, hashes: seq<string>, how: Purge)
    requires hashes != []
    ensures PurgedWith(e, hashes, how) == PurgedWith(PurgedWith(e, [hashes[0]], how), hashes[1..], how)
  {
    assert e.blockHash in hashes <==> e.blockHash in [hashes[0]] || e.blockHash in hashes[1..];
  }

  // ---------------------------------------------------------------- tracking

  lemma {:induction false} TrackOutputsCoherent(w: Watcher, cb: Coinbase, hash: string, daa: nat, k: nat)
    requires Coherent(w) && k <= |cb.outputs|
    ensures Coherent(TrackOutputs(w, cb, hash, daa, k))
    decreases |cb.outputs| - k
  {
    if k < |cb.outputs| {
      var w1 := TrackOutput(w, cb, hash, daa, k);
      if w1 != w {
        PushCoherent(w, FreshEntry(cb.txid, hash, daa, cb.outputs[k].amount, k, false, cb.outputs[k].window.value));
      }
      TrackOutputsCoherent(w1, cb, hash, daa, k + 1);
    }
  }

  /** Output `x` pays our escrow script and is not tracked yet. */
  predicate Trackable(w: Watcher, cb: Coinbase, x: nat) {
    x < |cb.outputs| && cb.outputs[x].window.Some? && (cb.txid, x) !in w.tracked
  }

  /** From output `k` on, exactly the trackable outputs have joined the list, each once, in output order,
  as fresh entries, and are tracked now. */
  ghost predicate TracksExactly(w: Watcher, w': Watcher, cb: Coinbase, hash: string, daa: nat, k: nat) {
    var n := |w.entries|;
    && w.entries <= w'.entries
    && (forall i | n <= i < |w'.entries| :: NewlyTracked(w, w'.entries[i], cb, hash, daa, k))
    && (forall i, j | n <= i < j < |w'.entries| :: w'.entries[i].outputIndex < w'.entries[j].outputIndex)
    && (forall x: nat | k <= x && Trackable(w, cb, x) ::
          exists i :: n <= i < |w'.entries| && w'.entries[i].outputIndex == x)
    && (forall o :: o in w'.tracked <==> o in w.tracked || (o.0 == cb.txid && k <= o.1 && Trackable(w, cb, o.1)))
  }

  ghost predicate NewlyTracked(w: Watcher, e: Entry, cb: Coinbase, hash: string, daa: nat, k: nat) {
    && k <= e.outputIndex && Trackable(w, cb, e.outputIndex)
    && var out := cb.outputs[e.outputIndex];
      e == FreshEntry(cb.txid, hash, daa, out.amount, e.outputIndex, false, out.window.value)
  }

  lemma {:induction false} TrackOutputsExact(w: Watcher, cb: Coinbase, hash: string, daa: nat, k: nat)
    requires k <= |cb.outputs|
    ensures TracksExactly(w, TrackOutputs(w, cb, hash, daa, k), cb, hash, daa, k)
    decreases |cb.outputs| - k
  {
    if k < |cb.outputs| {
      var w1, w' := TrackOutput(w, cb, hash, daa, k), TrackOutputs(w, cb, hash, daa, k);
      TrackOutputsExact(w1, cb, hash, daa, k + 1);
      if Trackable(w, cb, k) {
        TrackedOne(w, w1, w', cb, hash, daa, k);
      } else {
        SkippedOne(w, w', cb, hash, daa, k);
      }
    }
  }

  lemma {:induction false} SkippedOne(w: Watcher, w': Watcher, cb: Coinbase, hash: string, daa: nat, k: nat)
    requires !Trackable(w, cb, k) && TracksExactly(w, w', cb, hash, daa, k + 1)
    ensures TracksExactly(w, w', cb, hash, daa, k)
  {
    forall i | |w.entries| <= i < |w'.entries| ensures NewlyTracked(w, w'.entries[i], cb, hash, daa, k) {
      assert NewlyTracked(w, w'.entries[i], cb, hash, daa, k + 1);
    }
  }

  lemma {:induction false} TrackedOne(w: Watcher, w1: Watcher, w': Watcher, cb: Coinbase, hash: string, daa: nat,
      k: nat)
    requires Trackable(w, cb, k) && w1 == TrackOutput(w, cb, hash, daa, k)
    requires TracksExactly(w1, w', cb, hash, daa, k + 1)
    ensures TracksExactly(w, w', cb, hash, daa, k)
  {
    var n := |w.entries|;
    var e := FreshEntry(cb.txid, hash, daa, cb.outputs[k].amount, k, false, cb.outputs[k].window.value);
    assert w1.entries == w.entries + [e] && w1.tracked == w.tracked + {(cb.txid, k)};
    assert w'.entries[n] == w1.entries[n] == e;
    forall i | n <= i < |w'.entries| ensures NewlyTracked(w, w'.entries[i], cb, hash, daa, k) {
      assert i > n ==> NewlyTracked(w1, w'.entries[i], cb, hash, daa, k + 1);
    }
    forall i, j | n <= i < j < |w'.entries| ensures w'.entries[i].outputIndex < w'.entries[j].outputIndex {
      assert NewlyTracked(w1, w'.entries[j], cb, hash, daa, k + 1);
    }
    forall x: nat | k <= x && Trackable(w, cb, x)
      ensures exists i :: n <= i < |w'.entries| && w'.entries[i].outputIndex == x {
      if x > k {
        assert Trackable(w1, cb, x);
      }
    }
    forall o ensures o in w'.tracked <==> o in w.tracked || (o.0 == cb.txid && k <= o.1 && Trackable(w, cb, o.1)) {
      assert o in w1.tracked <==> o in w.tracked || o == (cb.txid, k);
    }
  }

  lemma {:induction false} TrackInferenceCoherent(w: Watcher, txid: string, daa: nat, amount: nat)
    requires Coherent(w)
    ensures Coherent(TrackInference(w, txid, daa, amount))
  {
    if amount != 0 && (txid, 1) !in w.tracked {
      PushCoherent(w, FreshEntry(txid, "", daa, amount, 1, true, CHALLENGE_WINDOW_BLOCKS));
    }
  }

  // ---------------------------------------------------------------- compaction and loading

  ghost predicate LiveLast(entries: seq<Entry>) {
    forall i: nat, j: nat | i < j < |entries| :: Apart(entries[i], entries[j])
  }

  ghost predicate RowOf(entries: seq<Entry>, row: seq<nat>, h: string) {
    forall i | i in row :: i < |entries| && entries[i].blockHash == h
  }

  lemma {:induction false} IndexOfBlocksExact(entries: seq<Entry>)
    ensures var index := IndexOfBlocks(entries);
      && (forall h | h in index :: RowOf(entries, index[h], h)) && "" !in index
      && (forall i: nat | i < |entries| && entries[i].blockHash != "" ::
            entries[i].blockHash in index && i in index[entries[i].blockHash])
    decreases |entries|
  {
    if entries != [] {
      var n := |entries| - 1;
      IndexOfBlocksExact(entries[..n]);
      var before, index := IndexOfBlocks(entries[..n]), IndexOfBlocks(entries);
      forall h | h in index ensures RowOf(entries, index[h], h) {
        forall i | i in index[h] ensures i < |entries| && entries[i].blockHash == h {
          if h in before && i in before[h] {
            assert RowOf(entries[..n], before[h], h);
          } else {
            assert i == n;
          }
        }
      }
      forall i: nat | i < |entries| && entries[i].blockHash != ""
        ensures entries[i].blockHash in index && i in index[entries[i].blockHash]
      {
        assert i < n ==> entries[..n][i] == entries[i];
      }
    }
  }

  /** Indexes rebuilt from any list without live twins are coherent. */
  lemma {:induction false} RebuildCoherent(w: Watcher)
    requires LiveLast(w.entries)
    ensures Coherent(RebuildIndexes(w))
  {
    IndexOfBlocksExact(w.entries);
    var w' := RebuildIndexes(w);
    forall i: nat | i < |w'.entries| ensures TrackedOk(w', i) && IndexedOk(w', i) {
      assert w.entries[i] in w.entries;
    }
    forall h | h in w'.blockIndex ensures RowOk(w', h) {
      assert RowOf(w.entries, w'.blockIndex[h], h);
    }
  }

  /** Compaction keeps the live entries, all of them and nothing else. */
  lemma {:induction false} LivingKeeps(entries: seq<Entry>)
    ensures |Living(entries)| <= |entries|
    ensures forall e | e in Living(entries) :: e in entries && e.Live()
    ensures forall e | e in entries && e.Live() :: e in Living(entries)
    ensures |Living(entries)| == |entries| ==> Living(entries) == entries
    decreases |entries|
  {
    LivingLength(entries);
    forall e ensures e in Living(entries) <==> e in entries && e.Live() {
      LivingMember(entries, e);
    }
  }

  lemma {:induction false} LivingLength(entries: seq<Entry>)
    ensures |Living(entries)| <= |entries|
    ensures |Living(entries)| == |entries| ==> Living(entries) == entries
    decreases |entries|
  {
    if entries != [] {
      var n := |entries| - 1;
      LivingLength(entries[..n]);
      assert entries == entries[..n] + [entries[n]];
    }
  }

  lemma {:induction false} LivingMember(entries: seq<Entry>, e: Entry)
    ensures e in Living(entries) <==> e in entries && e.Live()
    decreases |entries|
  {
    if entries != [] {
      var n := |entries| - 1;
      LivingMember(entries[..n], e);
      assert entries == entries[..n] + [entries[n]];
    }
  }

  lemma {:induction false} LivingDistinct(entries: seq<Entry>)
    requires LiveLast(entries)
    ensures LiveLast(Living(entries))
    decreases |entries|
  {
    if entries != [] {
      var n := |entries| - 1;
      var init := entries[..n];
      var kept, out := Living(init), Living(entries);
      assert LiveLast(init) by {
        forall i: nat, j: nat | i < j < n ensures Apart(init[i], init[j]) {
          assert Apart(entries[i], entries[j]);
        }
      }
      LivingDistinct(init);
      LivingKeeps(init);
      forall i: nat, j: nat | i < j < |out| ensures Apart(out[i], out[j]) {
        if j == |kept| {
          assert kept[i] in kept;
          var a :| 0 <= a < n && init[a] == kept[i];
          assert Apart(entries[a], entries[n]);
        } else {
          assert Apart(kept[i], kept[j]);
        }
      }
    }
  }

  lemma {:induction false} CompactCoherent(w: Watcher)
    requires Coherent(w)
    ensures Coherent(Compact(w))
  {
    LivingDistinct(w.entries);
    if |Living(w.entries)| != |w.entries| {
      RebuildCoherent(w.(entries := Living(w.entries)));
      EvolvedCoherent(RebuildIndexes(w.(entries := Living(w.entries))), Compact(w));
    }
  }

  // ---------------------------------------------------------------- claims and responses

  lemma {:induction false} HealCoherent(w: Watcher, daa: nat, i: nat)
    requires i <= |w.entries|
    ensures var w' := Heal(w, daa, i);
      && |w'.entries| == |w.entries|
      && (forall j: nat | j < |w.entries| ::
        w'.entries[j] == if j < i then w.entries[j] else HealEntry(w.entries[j], daa))
      && w'.tracked == w.tracked && w'.blockIndex == w.blockIndex
      && w'.inFlight == w.inFlight && w'.busy == w.busy && w'.lastDaa == w.lastDaa
        && w'.validationPending == w.validationPending && w'.disk == w.disk
        && w'.blocksSinceCompact == w.blocksSinceCompact
      && (Coherent(w) ==> Coherent(w'))
    decreases |w.entries| - i
  {
    if i < |w.entries| {
      var w1 := HealOne(w, daa, i);
      HealOneFrame(w, daa, i);
      HealCoherent(w1, daa, i + 1);
    }
  }

  lemma {:induction false} HealEvolves(e: Entry, daa: nat)
    ensures Evolves(e, HealEntry(e, daa)) && (HealEntry(e, daa).Live() <==> e.Live())
  {
  }

  lemma {:induction false} HealOneFrame(w: Watcher, daa: nat, i: nat)
    requires i < |w.entries|
    ensures var w1 := HealOne(w, daa, i);
      && w1.entries == w.entries[i := HealEntry(w.entries[i], daa)]
      && w1.tracked == w.tracked && w1.blockIndex == w.blockIndex
      && w1.inFlight == w.inFlight && w1.busy == w.busy && w1.lastDaa == w.lastDaa
        && w1.validationPending == w.validationPending && w1.disk == w.disk
        && w1.blocksSinceCompact == w.blocksSinceCompact
      && (Coherent(w) ==> Coherent(w1))
  {
    if Coherent(w) {
      EvolvedCoherent(w, HealOne(w, daa, i));
    }
  }

  lemma {:induction false} AnswerEvolves(e: Entry, n: nat, v: Verdict, lastDaa: nat)
    ensures Evolves(e, AnswerEntry(e, n, v, lastDaa))
  {
  }

  lemma {:induction false} AnswerAllCoherent(w: Watcher, inputs: seq<Entry>, n: nat, v: Verdict)
    requires Coherent(w)
    ensures var w' := AnswerAll(w, inputs, n, v);
      Coherent(w') && EntriesEvolve(w.entries, w'.entries)
    decreases |inputs|
  {
    if inputs != [] {
      match FirstMatch(w.entries, inputs[0].Outpoint())
      case None => AnswerAllCoherent(w, inputs[1..], n, v);
      case Some(i) =>
        var e := AnswerEntry(w.entries[i], n, v, w.lastDaa);
        AnswerEvolves(w.entries[i], n, v, w.lastDaa);
        PutCoherent(w, i, e);
        AnswerAllCoherent(Put(w, i, e), inputs[1..], n, v);
    }
  }
}
