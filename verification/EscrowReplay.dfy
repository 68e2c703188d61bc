/** What a restart loads, line by line (src/escrow.rs:355-422, 1450-1501). */
module EscrowReplay {
  import opened EscrowEntries
  import opened EscrowModel
  import opened EscrowIndexes
  import opened EscrowJournal

  /** Line `k` of the journal counts: it is readable and newer than the snapshot and every line before it. */
  ghost predicate News(disk: Disk, k: nat) {
    && k < |disk.journal| && disk.journal[k].Whole? && disk.journal[k].line.s > disk.snapshotSeq
    && forall j: nat | j < k && disk.journal[j].Whole? :: disk.journal[j].line.s < disk.journal[k].line.s
  }

  /** The last line that counts for output `o` is line `k`. */
  ghost predicate LastNews(disk: Disk, k: nat, o: Outpoint) {
    && News(disk, k) && disk.journal[k].line.e.Outpoint() == o
    && forall j: nat | k < j && News(disk, j) :: disk.journal[j].line.e.Outpoint() != o
  }

  /** Entry `i` of the snapshot is the last of its output, and no line that counts is about that output. */
  ghost predicate Untouched(disk: Disk, i: nat) {
    && i < |disk.snapshot|
    && (forall j: nat | i < j < |disk.snapshot| :: disk.snapshot[j].Outpoint() != disk.snapshot[i].Outpoint())
    && forall k: nat | News(disk, k) :: disk.journal[k].line.e.Outpoint() != disk.snapshot[i].Outpoint()
  }

  /** `e` is what a restart finds for its output: the last line that counts, else the last snapshot entry. */
  ghost predicate Found(disk: Disk, e: Entry) {
    || (exists k: nat :: LastNews(disk, k, e.Outpoint()) && disk.journal[k].line.e == e)
    || (exists i: nat :: Untouched(disk, i) && disk.snapshot[i] == e)
  }

  /** The newest number anywhere in the files. */
  ghost predicate Newest(disk: Disk, s: nat) {
    && s >= disk.snapshotSeq && (forall k: nat | k < |disk.journal| && disk.journal[k].Whole? ::
          disk.journal[k].line.s <= s)
    && (s == disk.snapshotSeq || exists k: nat :: News(disk, k) && disk.journal[k].line.s == s)
  }

  // ---------------------------------------------------------------- proofs

  function Cut(disk: Disk): Disk
    requires disk.journal != []
  {
    disk.(journal := disk.journal[..|disk.journal| - 1])
  }

  lemma {:induction false} NewsCut(disk: Disk, k: nat)
    requires disk.journal != [] && k < |disk.journal| - 1
    ensures News(Cut(disk), k) <==> News(disk, k)
  {
    forall j: nat | j <= k ensures Cut(disk).journal[j] == disk.journal[j] {
    }
  }

  /** Entry `i` is the last of output `o`. */
  ghost predicate LastOf(es: seq<Entry>, i: int, o: Outpoint) {
    0 <= i < |es| && es[i].Outpoint() == o && forall j: nat | i < j < |es| :: es[j].Outpoint() != o
  }

  lemma {:induction false} SnapshotFound(es: seq<Entry>, o: Outpoint)
    ensures o in AsMap(es) ==> exists i :: LastOf(es, i, o) && es[i] == AsMap(es)[o]
    decreases |es|
  {
    if es != [] {
      var n := |es| - 1;
      if es[n].Outpoint() == o {
        assert LastOf(es, n, o);
      } else if o in AsMap(es) {
        SnapshotFound(es[..n], o);
        var i :| LastOf(es[..n], i, o) && es[..n][i] == AsMap(es)[o];
        assert forall j: nat | i <= j < n :: es[j] == es[..n][j];
        assert LastOf(es, i, o);
      }
    }
  }

  /** The number a replay ends with. */
  lemma {:induction false} ReplayNewest(disk: Disk)
    ensures Newest(disk, Recover(disk).s)
    decreases |disk.journal|
  {
    if disk.journal != [] {
      var n, cut := |disk.journal| - 1, Cut(disk);
      ReplayNewest(cut);
      assert Recover(disk) == ApplyRecord(Recover(cut), disk.journal[n]);
      forall k: nat | k < n ensures News(cut, k) <==> News(disk, k) {
        NewsCut(disk, k);
      }
      assert forall k: nat | k < n :: cut.journal[k] == disk.journal[k];
      assert disk.journal[n].Whole? ==> (News(disk, n) <==> disk.journal[n].line.s > Recover(cut).s);
      if k: nat :| News(cut, k) && cut.journal[k].line.s == Recover(cut).s {
        assert News(disk, k);
      }
    }
  }

  lemma {:induction false} LastCounts(disk: Disk)
    requires disk.journal != []
    ensures var n := |disk.journal| - 1;
      News(disk, n) <==> disk.journal[n].Whole? && disk.journal[n].line.s > Recover(Cut(disk)).s
  {
    var n, cut := |disk.journal| - 1, Cut(disk);
    ReplayNewest(cut);
    assert forall k: nat | k < n :: cut.journal[k] == disk.journal[k];
    if k: nat :| News(cut, k) && cut.journal[k].line.s == Recover(cut).s {
      NewsCut(disk, k);
    }
  }

  /** What the last line does to what is found. */
  lemma {:induction false} FoundCut(disk: Disk, e: Entry)
    requires disk.journal != []
    ensures var n := |disk.journal| - 1;
      Found(disk, e) <==>
        if News(disk, n) && disk.journal[n].line.e.Outpoint() == e.Outpoint() then e == disk.journal[n].line.e
        else Found(Cut(disk), e)
  {
    var n, cut, o := |disk.journal| - 1, Cut(disk), e.Outpoint();
    forall k: nat | k < n
      ensures News(cut, k) <==> News(disk, k)
      ensures cut.journal[k] == disk.journal[k]
    {
      NewsCut(disk, k);
    }
    if News(disk, n) && disk.journal[n].line.e.Outpoint() == o {
      assert LastNews(disk, n, o);
      assert forall k: nat | k < n :: !LastNews(disk, k, o);
      assert forall i: nat | Untouched(disk, i) :: disk.snapshot[i].Outpoint() != o;
    } else {
      forall k: nat | k < n ensures LastNews(disk, k, o) <==> LastNews(cut, k, o) {
      }
      forall i: nat | i < |disk.snapshot| && disk.snapshot[i].Outpoint() == o
        ensures Untouched(disk, i) <==> Untouched(cut, i) {
      }
    }
  }

  lemma {:induction false} EmptyJournalFound(disk: Disk, e: Entry)
    requires disk.journal == []
    ensures Found(disk, e) <==> e.Outpoint() in AsMap(disk.snapshot) && AsMap(disk.snapshot)[e.Outpoint()] == e
  {
    var o := e.Outpoint();
    if o in AsMap(disk.snapshot) {
      SnapshotFound(disk.snapshot, o);
      var i :| LastOf(disk.snapshot, i, o) && disk.snapshot[i] == AsMap(disk.snapshot)[o];
      assert Untouched(disk, i);
    }
    if i: nat :| Untouched(disk, i) && disk.snapshot[i] == e {
      AsMapAt(disk.snapshot, i);
    }
  }

  /** A restart loads for each output exactly the last line that counts, or else its last entry in the
  snapshot, and goes on from the newest number there is. */
  lemma {:induction false} RecoverIs(disk: Disk)
    ensures forall e: Entry ::
      (e.Outpoint() in Recover(disk).table && Recover(disk).table[e.Outpoint()] == e) <==> Found(disk, e)
    ensures Newest(disk, Recover(disk).s)
    decreases |disk.journal|
  {
    ReplayNewest(disk);
    if disk.journal == [] {
      forall e: Entry
        ensures (e.Outpoint() in Recover(disk).table && Recover(disk).table[e.Outpoint()] == e) <==> Found(disk, e) {
        EmptyJournalFound(disk, e);
      }
    } else {
      var n := |disk.journal| - 1;
      RecoverIs(Cut(disk));
      LastCounts(disk);
      assert Recover(disk) == ApplyRecord(Recover(Cut(disk)), disk.journal[n]);
      forall e: Entry
        ensures (e.Outpoint() in Recover(disk).table && Recover(disk).table[e.Outpoint()] == e) <==> Found(disk, e) {
        FoundCut(disk, e);
      }
    }
  }

  // ---------------------------------------------------------------- the loaded watcher

  /** `e` is in the list as the last entry of its output. */
  ghost predicate InList(es: seq<Entry>, e: Entry) {
    exists i :: LastOf(es, i, e.Outpoint()) && es[i] == e
  }

  /** Entry `i` came with block `hash`. */
  ghost predicate CameIn(es: seq<Entry>, hash: string, i: nat) {
    hash != "" && i < |es| && es[i].blockHash == hash
  }

  /** A loaded list holds what the files say. */
  lemma {:induction false} LoadedList(entries: seq<Entry>, s: nat, disk: Disk)
    requires Recovered(AsMap(entries), s) == Recover(disk)
    ensures Newest(disk, s) && forall e :: InList(entries, e) <==> Found(disk, e)
  {
    RecoverIs(disk);
    forall e ensures InList(entries, e) <==> e.Outpoint() in AsMap(entries) && AsMap(entries)[e.Outpoint()] == e {
      SnapshotFound(entries, e.Outpoint());
      if i :| LastOf(entries, i, e.Outpoint()) && entries[i] == e {
        AsMapAt(entries, i);
      }
    }
  }

  /** Its indexes hold every outpoint and the entries of every block. */
  lemma {:induction false} LoadedIndexes(entries: seq<Entry>, s: nat, disk: Disk)
    ensures var w := Loaded(entries, s, disk);
      && (forall o :: o in w.tracked <==> exists e :: e in entries && e.Outpoint() == o)
      && forall h, i: nat :: (h in w.blockIndex && i in w.blockIndex[h]) <==> CameIn(entries, h, i)
  {
    IndexOfBlocksExact(entries);
    var index := IndexOfBlocks(entries);
    forall h, i: nat ensures (h in index && i in index[h]) <==> CameIn(entries, h, i) {
      if h in index && i in index[h] {
        assert RowOf(entries, index[h], h);
      }
    }
  }
}
