/** Snapshot and journal: what a restart recovers (src/escrow.rs:224-230, 426-485, 1358-1368, 1450-1501). */
module EscrowJournal {
  import opened Outcomes
  import opened EscrowEntries
  import opened EscrowModel
  import opened EscrowIndexes
  import opened EscrowClaims
  import opened EscrowSteps

  // ---------------------------------------------------------------- what a list or a journal means

  /** A list of entries as a table by outpoint; the last of several wins. */
  function AsMap(es: seq<Entry>): map<Outpoint, Entry> {
    if es == [] then map[]
    else
      var n := |es| - 1;
      AsMap(es[..n])[es[n].Outpoint() := es[n]]
  }

  datatype Recovered = Recovered(table: map<Outpoint, Entry>, s: nat)

  /** A line newer than everything so far upserts its entry; older or unreadable ones do nothing. */
  function ApplyRecord(r: Recovered, rec: Record): Recovered {
    match rec
    case Torn => r
    case Whole(line) => if line.s <= r.s then r else Recovered(r.table[line.e.Outpoint() := line.e], line.s)
  }

  function ReplayAll(r: Recovered, recs: seq<Record>): Recovered
    decreases |recs|
  {
    if recs == [] then r else ApplyRecord(ReplayAll(r, recs[..|recs| - 1]), recs[|recs| - 1])
  }

  lemma {:induction false} ReplayNext(r: Recovered, recs: seq<Record>, k: nat)
    requires k < |recs|
    ensures ReplayAll(r, recs[..k + 1]) == ApplyRecord(ReplayAll(r, recs[..k]), recs[k])
  {
    assert recs[..k + 1][..k] == recs[..k];
  }

  /** What loading these files gives. */
  function Recover(disk: Disk): Recovered {
    ReplayAll(Recovered(AsMap(disk.snapshot), disk.snapshotSeq), disk.journal)
  }

  lemma {:induction false} ReplaySplit(r: Recovered, a: seq<Record>, b: seq<Record>)
    ensures ReplayAll(r, a + b) == ReplayAll(ReplayAll(r, a), b)
    decreases |b|
  {
    if b == [] {
      assert a + b == a;
    } else {
      var n := |b| - 1;
      assert (a + b)[..|a| + n] == a + b[..n];
      ReplaySplit(r, a, b[..n]);
    }
  }

  /** After a replay no line of it is newer than the recovered sequence. */
  lemma {:induction false} ReplayedLinesStale(r: Recovered, recs: seq<Record>)
    ensures r.s <= ReplayAll(r, recs).s
    ensures forall i | 0 <= i < |recs| && recs[i].Whole? :: recs[i].line.s <= ReplayAll(r, recs).s
    decreases |recs|
  {
    if recs != [] {
      var n := |recs| - 1;
      ReplayedLinesStale(r, recs[..n]);
      forall i | 0 <= i < n && recs[i].Whole? ensures recs[i].line.s <= ReplayAll(r, recs[..n]).s {
        assert recs[i] == recs[..n][i];
      }
    }
  }

  lemma {:induction false} StaleReplay(r: Recovered, recs: seq<Record>)
    requires forall i | 0 <= i < |recs| && recs[i].Whole? :: recs[i].line.s <= r.s
    ensures ReplayAll(r, recs) == r
    decreases |recs|
  {
    if recs != [] {
      var n := |recs| - 1;
      forall i | 0 <= i < n && recs[..n][i].Whole? ensures recs[..n][i].line.s <= r.s {
        assert recs[..n][i] == recs[i];
      }
      StaleReplay(r, recs[..n]);
    }
  }

  /** Replay is idempotent: running the same journal again changes nothing. */
  lemma {:induction false} ReplayIdempotent(r: Recovered, recs: seq<Record>)
    ensures ReplayAll(ReplayAll(r, recs), recs) == ReplayAll(r, recs)
  {
    ReplayedLinesStale(r, recs);
    StaleReplay(ReplayAll(r, recs), recs);
  }

  /** A crash that tears line `j` of the lines being appended costs that line and those after it: what
  is recovered is the replay of all lines before it, and the lost lines are all that is missing from
  what a complete write recovers. */
  lemma {:induction false} TornLineLosesTail(disk: Disk, lines: seq<Record>, j: nat)
    requires j < |lines|
    ensures var crashed := Recover(disk.(journal := disk.journal + lines[..j] + [Torn]));
      && crashed == ReplayAll(Recover(disk), lines[..j])
      && Recover(disk.(journal := disk.journal + lines)) == ReplayAll(crashed, lines[j..])
      && (j == |lines| - 1 ==> Recover(disk.(journal := disk.journal + lines)) == ApplyRecord(crashed, lines[j]))
  {
    var r := Recovered(AsMap(disk.snapshot), disk.snapshotSeq);
    var kept := disk.journal + lines[..j];
    ReplaySplit(r, disk.journal, lines[..j]);
    ReplaySplit(r, kept, [Torn]);
    assert [Torn][..0] == [];
    ReplaySplit(r, kept, lines[j..]);
    assert kept + lines[j..] == disk.journal + lines;
    if j == |lines| - 1 {
      assert lines[j..] == [lines[j]] && [lines[j]][..0] == [];
    }
  }

  // ---------------------------------------------------------------- the loader's loop

  /** `index` points every outpoint at its last entry. */
  ghost predicate IndexesLast(es: seq<Entry>, index: map<Outpoint, nat>) {
    && (forall i | 0 <= i < |es| :: es[i].Outpoint() in index && i <= index[es[i].Outpoint()])
    && (forall o | o in index :: index[o] < |es| && es[index[o]].Outpoint() == o)
  }

  lemma {:induction false} AsMapAt(es: seq<Entry>, k: nat)
    requires k < |es| && forall j | k < j < |es| :: es[j].Outpoint() != es[k].Outpoint()
    ensures es[k].Outpoint() in AsMap(es) && AsMap(es)[es[k].Outpoint()] == es[k]
    decreases |es|
  {
    var n := |es| - 1;
    if k < n {
      AsMapAt(es[..n], k);
    }
  }

  lemma {:induction false} AsMapKeys(es: seq<Entry>, o: Outpoint)
    requires o in AsMap(es)
    ensures exists i :: 0 <= i < |es| && es[i].Outpoint() == o
    decreases |es|
  {
    var n := |es| - 1;
    if es[n].Outpoint() != o {
      AsMapKeys(es[..n], o);
      var i :| 0 <= i < n && es[..n][i].Outpoint() == o;
      assert es[i].Outpoint() == o;
    }
  }

  lemma {:induction false} AsMapReads(es: seq<Entry>, index: map<Outpoint, nat>)
    requires IndexesLast(es, index)
    ensures AsMap(es).Keys == index.Keys
    ensures forall o | o in index :: AsMap(es)[o] == es[index[o]]
  {
    forall o | o in index ensures o in AsMap(es) && AsMap(es)[o] == es[index[o]] {
      AsMapAt(es, index[o]);
    }
    forall o | o in AsMap(es) ensures o in index {
      AsMapKeys(es, o);
    }
  }

  /** One upsert through the index is one update of the table. */
  lemma {:induction false} UpsertIndexed(es: seq<Entry>, index: map<Outpoint, nat>, e: Entry)
    requires IndexesLast(es, index) && e.Outpoint() in index
    ensures IndexesLast(es[index[e.Outpoint()] := e], index)
  {
    assert forall i | 0 <= i < |es| :: es[index[e.Outpoint()] := e][i].Outpoint() == es[i].Outpoint();
  }

  lemma {:induction false} UpsertInPlace(es: seq<Entry>, index: map<Outpoint, nat>, e: Entry)
    requires IndexesLast(es, index) && e.Outpoint() in index
    ensures var es' := es[index[e.Outpoint()] := e];
      IndexesLast(es', index) && AsMap(es') == AsMap(es)[e.Outpoint() := e]
  {
    UpsertIndexed(es, index, e);
    AsMapReads(es, index);
    AsMapReads(es[index[e.Outpoint()] := e], index);
  }

  lemma {:induction false} UpsertNew(es: seq<Entry>, index: map<Outpoint, nat>, e: Entry)
    requires IndexesLast(es, index) && e.Outpoint() !in index
    ensures IndexesLast(es + [e], index[e.Outpoint() := |es|])
    ensures AsMap(es + [e]) == AsMap(es)[e.Outpoint() := e]
  {
    assert (es + [e])[..|es|] == es;
    var es', index' := es + [e], index[e.Outpoint() := |es|];
    forall i | 0 <= i < |es'| ensures es'[i].Outpoint() in index' && i <= index'[es'[i].Outpoint()] {
      if i < |es| {
        assert es'[i] == es[i];
      }
    }
    forall o | o in index' ensures index'[o] < |es'| && es'[index'[o]].Outpoint() == o {
      if o != e.Outpoint() {
        assert es'[index[o]] == es[index[o]];
      }
    }
  }

  /** Only the last entry of an outpoint is patched, so a live entry stays the last of its outpoint. */
  lemma {:induction false} UpsertLiveLast(es: seq<Entry>, index: map<Outpoint, nat>, e: Entry)
    requires IndexesLast(es, index) && e.Outpoint() in index
    ensures LiveLast(es) ==> LiveLast(es[index[e.Outpoint()] := e])
  {
    var k := index[e.Outpoint()];
    var es' := es[k := e];
    if LiveLast(es) {
      forall i: nat, j: nat | i < j < |es'| ensures Apart(es'[i], es'[j]) {
        assert Apart(es[i], es[j]) && es[j].Outpoint() in index;
      }
    }
  }

  lemma {:induction false} PushLiveLast(es: seq<Entry>, e: Entry)
    requires forall i | 0 <= i < |es| :: es[i].Outpoint() != e.Outpoint()
    ensures LiveLast(es) ==> LiveLast(es + [e])
  {
    var es' := es + [e];
    if LiveLast(es) {
      forall i: nat, j: nat | i < j < |es'| ensures Apart(es'[i], es'[j]) {
        assert j < |es| ==> Apart(es[i], es[j]);
      }
    }
  }

  /** Every output keeps its place and others come after; repeated outpoints stay no worse than they were. */
  ghost predicate LoadsFrom(es: seq<Entry>, es': seq<Entry>) {
    && |es| <= |es'| && (forall i | 0 <= i < |es| :: es'[i].Outpoint() == es[i].Outpoint())
    && (DistinctOutpoints(es) ==> DistinctOutpoints(es'))
    && (LiveLast(es) ==> LiveLast(es'))
  }

  lemma {:induction false} LoadsOn(a: seq<Entry>, b: seq<Entry>, c: seq<Entry>)
    requires LoadsFrom(a, b) && LoadsFrom(b, c)
    ensures LoadsFrom(a, c)
  {
  }

  lemma {:induction false} PatchLoads(es: seq<Entry>, index: map<Outpoint, nat>, e: Entry)
    requires IndexesLast(es, index) && e.Outpoint() in index
    ensures LoadsFrom(es, es[index[e.Outpoint()] := e])
  {
    UpsertLiveLast(es, index, e);
    assert forall i | 0 <= i < |es| :: es[index[e.Outpoint()] := e][i].Outpoint() == es[i].Outpoint();
  }

  lemma {:induction false} PushLoads(es: seq<Entry>, e: Entry)
    requires forall i | 0 <= i < |es| :: es[i].Outpoint() != e.Outpoint()
    ensures LoadsFrom(es, es + [e])
  {
    PushLiveLast(es, e);
    assert forall i | 0 <= i < |es| :: (es + [e])[i] == es[i];
  }

  /** One readable line that is news. */
  method Upsert(entries: seq<Entry>, index: map<Outpoint, nat>, e: Entry)
    returns (entries': seq<Entry>, index': map<Outpoint, nat>)
    requires IndexesLast(entries, index)
    ensures IndexesLast(entries', index') && AsMap(entries') == AsMap(entries)[e.Outpoint() := e]
    ensures LoadsFrom(entries, entries')
  {
    var key := e.Outpoint();
    if key in index {
      UpsertInPlace(entries, index, e);
      PatchLoads(entries, index, e);
      entries', index' := entries[index[key] := e], index;
    } else {
      UpsertNew(entries, index, e);
      PushLoads(entries, e);
      entries', index' := entries + [e], index[key := |entries|];
    }
  }

  method IndexEntries(entries: seq<Entry>) returns (index: map<Outpoint, nat>)
    ensures IndexesLast(entries, index)
  {
    index := map[];
    for i := 0 to |entries|
      invariant IndexesLast(entries[..i], index)
    {
      index := index[entries[i].Outpoint() := i];
    }
    assert entries[..|entries|] == entries;
  }

  /** One line of the journal: skipped if unreadable or stale, else upserted. */
  method ReplayLine(entries: seq<Entry>, index: map<Outpoint, nat>, s: nat, rec: Record)
    returns (entries': seq<Entry>, index': map<Outpoint, nat>, s': nat)
    requires IndexesLast(entries, index)
    ensures IndexesLast(entries', index') && LoadsFrom(entries, entries')
    ensures Recovered(AsMap(entries'), s') == ApplyRecord(Recovered(AsMap(entries), s), rec)
  {
    entries', index', s' := entries, index, s;
    match rec
    case Torn =>
    case Whole(line) =>
      if line.s > s {
        s' := line.s;
        entries', index' := Upsert(entries, index, line.e);
      }
  }

  /** `replay_journal`: the loop over lines, against a hash index of the list it patches. */
  method ReplayJournal(disk: Disk) returns (entries: seq<Entry>, s: nat)
    ensures Recovered(AsMap(entries), s) == Recover(disk)
    ensures LoadsFrom(disk.snapshot, entries)
  {
    entries, s := disk.snapshot, disk.snapshotSeq;
    var index := IndexEntries(entries);
    ghost var start := Recovered(AsMap(disk.snapshot), disk.snapshotSeq);
    for k := 0 to |disk.journal|
      invariant IndexesLast(entries, index)
      invariant Recovered(AsMap(entries), s) == ReplayAll(start, disk.journal[..k])
      invariant LoadsFrom(disk.snapshot, entries)
    {
      ReplayNext(start, disk.journal, k);
      ghost var before := entries;
      entries, index, s := ReplayLine(entries, index, s, disk.journal[k]);
      LoadsOn(disk.snapshot, before, entries);
    }
    assert disk.journal[..|disk.journal|] == disk.journal;
  }

  // ---------------------------------------------------------------- memory and files agree

  /** Files and unwritten lines together. */
  ghost function RecoverAll(w: Watcher): Recovered {
    ReplayAll(Recover(w.disk), Records(w.pending))
  }

  ghost predicate RecordsOld(recs: seq<Record>, s: nat) {
    forall i | 0 <= i < |recs| && recs[i].Whole? :: recs[i].line.s <= s
  }

  ghost predicate Holds(table: map<Outpoint, Entry>, e: Entry) {
    e.Outpoint() in table && table[e.Outpoint()] == e
  }

  /** The table is the list, up to dead entries the list no longer carries. */
  ghost predicate Mirrors(table: map<Outpoint, Entry>, es: seq<Entry>) {
    && (forall i | 0 <= i < |es| :: Holds(table, es[i]))
    && (forall o | o in table :: table[o].Outpoint() == o)
    && (forall o | o in table && table[o].Live() :: table[o] in es)
  }

  /** Snapshot, journal and pending lines recover the entries in memory, and no line is from the future. */
  ghost predicate Journaled(w: Watcher) {
    && DistinctOutpoints(w.entries) && DistinctOutpoints(w.disk.snapshot)
    && RecordsOld(w.disk.journal, w.journalSeq) && RecordsOld(Records(w.pending), w.journalSeq)
    && RecoverAll(w).s <= w.journalSeq
    && Mirrors(RecoverAll(w).table, w.entries)
  }

  lemma {:induction false} RecordsAppend(a: seq<Line>, b: Line)
    ensures Records(a + [b]) == Records(a) + [Whole(b)]
  {
  }

  /** A freshly appended line is applied last. */
  lemma {:induction false} JournalLine(w: Watcher, e: Entry)
    requires RecoverAll(w).s <= w.journalSeq
    requires RecordsOld(w.disk.journal, w.journalSeq) && RecordsOld(Records(w.pending), w.journalSeq)
    ensures var w' := Journal(w, e);
      && RecoverAll(w') == Recovered(RecoverAll(w).table[e.Outpoint() := e], w'.journalSeq)
      && RecordsOld(w'.disk.journal, w'.journalSeq) && RecordsOld(Records(w'.pending), w'.journalSeq)
  {
    var w', line := Journal(w, e), Line(w.journalSeq + 1, e);
    RecordsAppend(w.pending, line);
    ReplaySplit(Recover(w.disk), Records(w.pending), [Whole(line)]);
    assert [Whole(line)][..0] == [];
    assert ReplayAll(RecoverAll(w), [Whole(line)]) == ApplyRecord(RecoverAll(w), Whole(line));
  }

  lemma {:induction false} PutJournaled(w: Watcher, i: nat, e: Entry)
    requires Journaled(w) && i < |w.entries| && Evolves(w.entries[i], e)
    ensures Journaled(Put(w, i, e))
  {
    var w' := Put(w, i, e);
    JournalLine(w.(entries := w.entries[i := e]), e);
    var t, t' := RecoverAll(w).table, RecoverAll(w').table;
    forall j | 0 <= j < |w'.entries| ensures Holds(t', w'.entries[j]) {
      if j != i {
        assert Holds(t, w.entries[j]);
        assert w.entries[j].Outpoint() != w.entries[i].Outpoint();
      }
    }
    forall o | o in t' && t'[o].Live() ensures t'[o] in w'.entries {
      if o == e.Outpoint() {
        assert w'.entries[i] == e;
      } else {
        var j :| 0 <= j < |w.entries| && w.entries[j] == t[o];
        assert w'.entries[j] == t'[o];
      }
    }
  }

  lemma {:induction false} PushJournaled(w: Watcher, e: Entry)
    requires Journaled(w) && DistinctOutpoints(w.entries + [e])
    ensures Journaled(Push(w, e))
  {
    var w' := Push(w, e);
    var bare := w.(entries := w'.entries, tracked := w'.tracked, blockIndex := w'.blockIndex);
    JournalLine(bare, e);
    var t, t' := RecoverAll(w).table, RecoverAll(w').table;
    forall j | 0 <= j < |w'.entries| ensures Holds(t', w'.entries[j]) {
      if j < |w.entries| {
        assert Holds(t, w.entries[j]);
        assert w'.entries[j].Outpoint() != w'.entries[|w.entries|].Outpoint();
      }
    }
    forall o | o in t' && t'[o].Live() ensures t'[o] in w'.entries {
      if o == e.Outpoint() {
        assert w'.entries[|w.entries|] == e;
      } else {
        assert t[o] in w.entries;
      }
    }
  }

  // ---------------------------------------------------------------- writes

  lemma {:induction false} DistinctMirror(es: seq<Entry>)
    requires DistinctOutpoints(es)
    ensures Mirrors(AsMap(es), es)
  {
    forall i | 0 <= i < |es| ensures Holds(AsMap(es), es[i]) {
      AsMapAt(es, i);
    }
    forall o | o in AsMap(es) ensures AsMap(es)[o].Outpoint() == o && AsMap(es)[o] in es {
      AsMapKeys(es, o);
      var i :| 0 <= i < |es| && es[i].Outpoint() == o;
      AsMapAt(es, i);
    }
  }

  /** A snapshot, with or without emptying the journal behind it, recovers the memory it was taken of:
  every line left over is older than the snapshot. */
  lemma {:induction false} SnapshotJournaled(w: Watcher, outcome: WriteOutcome)
    requires Journaled(w)
    ensures Journaled(WriteSnapshot(w, outcome))
    ensures outcome != Failed ==> Recover(WriteSnapshot(w, outcome).disk) == Recovered(AsMap(w.entries), w.journalSeq)
  {
    var w' := WriteSnapshot(w, outcome);
    DistinctMirror(w.entries);
    var r := Recovered(AsMap(w.entries), w.journalSeq);
    match outcome
    case Written => assert RecoverAll(w') == r;
    case SnapshotOnly =>
      StaleReplay(r, w.disk.journal);
      StaleReplay(r, Records(w.pending));
      assert RecoverAll(w') == r;
    case Failed =>
  }

  lemma {:induction false} WriteJournalJournaled(w: Watcher, outcome: WriteOutcome)
    requires Journaled(w)
    ensures Journaled(WriteJournal(w, outcome))
    ensures outcome == Written ==> Recover(WriteJournal(w, outcome).disk) == RecoverAll(w)
  {
    var w' := WriteJournal(w, outcome);
    if outcome == Written {
      ReplaySplit(Recovered(AsMap(w.disk.snapshot), w.disk.snapshotSeq), w.disk.journal, Records(w.pending));
      assert Records([]) == [];
      assert RecoverAll(w') == RecoverAll(w);
    }
  }

  /** A flush keeps files plus unwritten lines equal to memory, and if it touches the files at all it
  leaves them equal to memory. */
  lemma {:induction false} FlushJournaled(w: Watcher, c: Clock)
    requires Journaled(w)
    ensures Journaled(MaybeFlush(w, c))
    ensures MaybeFlush(w, c).disk == w.disk || Mirrors(Recover(MaybeFlush(w, c).disk).table, w.entries)
  {
    DistinctMirror(w.entries);
    SnapshotJournaled(w, c.outcome);
    WriteJournalJournaled(w, c.outcome);
  }

  /** A shutdown whose write does not fail, or that has nothing to write, leaves files that a restart loads
  memory from. */
  lemma {:induction false} ShutdownMirrors(w: Watcher, outcome: WriteOutcome)
    requires Journaled(w)
    ensures Journaled(FlushState(w, outcome))
    ensures outcome != Failed || w.pending == [] ==> Mirrors(Recover(FlushState(w, outcome).disk).table, w.entries)
  {
    DistinctMirror(w.entries);
    SnapshotJournaled(w, outcome);
    if w.pending == [] {
      assert Records([]) == [] && RecoverAll(w) == Recover(w.disk);
    }
  }

  // ---------------------------------------------------------------- transitions

  lemma {:induction false} PurgeIndicesJournaled(w: Watcher, indices: seq<nat>, how: Purge)
    requires Journaled(w)
    ensures Journaled(PurgeIndices(w, indices, how))
    decreases |indices|
  {
    if indices != [] {
      var i := indices[0];
      if i < |w.entries| && Purgeable(w.entries[i], how) {
        var w0 := if how == Reorg then w.(tracked := w.tracked - {w.entries[i].Outpoint()}) else w;
        PutJournaled(w0, i, w.entries[i].(slashed := true));
      }
      PurgeIndicesJournaled(PurgeEntry(w, i, how), indices[1..], how);
    }
  }

  lemma {:induction false} PurgeBlocksJournaled(w: Watcher, hashes: seq<string>, how: Purge)
    requires Journaled(w)
    ensures Journaled(PurgeBlocks(w, hashes, how))
    decreases |hashes|
  {
    if hashes != [] {
      if hashes[0] in w.blockIndex {
        PurgeIndicesJournaled(w, w.blockIndex[hashes[0]], how);
      }
      PurgeBlocksJournaled(PurgeBlock(w, hashes[0], how), hashes[1..], how);
    }
  }

  lemma {:induction false} HealJournaled(w: Watcher, daa: nat, i: nat)
    requires Journaled(w) && i <= |w.entries|
    ensures Journaled(Heal(w, daa, i))
    decreases |w.entries| - i
  {
    if i < |w.entries| {
      HealOneJournaled(w, daa, i);
      HealJournaled(HealOne(w, daa, i), daa, i + 1);
    }
  }

  lemma {:induction false} HealOneJournaled(w: Watcher, daa: nat, i: nat)
    requires Journaled(w) && i < |w.entries|
    ensures Journaled(HealOne(w, daa, i)) && |HealOne(w, daa, i).entries| == |w.entries|
  {
    PutJournaled(w, i, HealEntry(w.entries[i], daa));
  }

  lemma {:induction false} AnswerAllJournaled(w: Watcher, inputs: seq<Entry>, n: nat, v: Verdict)
    requires Journaled(w)
    ensures Journaled(AnswerAll(w, inputs, n, v))
    decreases |inputs|
  {
    if inputs != [] {
      match FirstMatch(w.entries, inputs[0].Outpoint())
      case None => AnswerAllJournaled(w, inputs[1..], n, v);
      case Some(i) =>
        var e := AnswerEntry(w.entries[i], n, v, w.lastDaa);
        AnswerEvolves(w.entries[i], n, v, w.lastDaa);
        PutJournaled(w, i, e);
        AnswerAllJournaled(Put(w, i, e), inputs[1..], n, v);
    }
  }

  lemma {:induction false} DistinctPrefix(a: seq<Entry>, b: seq<Entry>)
    requires DistinctOutpoints(b) && a <= b
    ensures DistinctOutpoints(a)
  {
  }

  lemma {:induction false} TrackOutputsGrows(w: Watcher, cb: Coinbase, hash: string, daa: nat, k: nat)
    requires k <= |cb.outputs|
    ensures w.entries <= TrackOutputs(w, cb, hash, daa, k).entries
    decreases |cb.outputs| - k
  {
    if k < |cb.outputs| {
      TrackOutputsGrows(TrackOutput(w, cb, hash, daa, k), cb, hash, daa, k + 1);
    }
  }

  lemma {:induction false} TrackOutputsJournaled(w: Watcher, cb: Coinbase, hash: string, daa: nat, k: nat)
    requires Journaled(w) && k <= |cb.outputs|
    requires DistinctOutpoints(TrackOutputs(w, cb, hash, daa, k).entries)
    ensures Journaled(TrackOutputs(w, cb, hash, daa, k))
    decreases |cb.outputs| - k
  {
    if k < |cb.outputs| {
      var w1 := TrackOutput(w, cb, hash, daa, k);
      TrackOutputsGrows(w1, cb, hash, daa, k + 1);
      DistinctPrefix(w1.entries, TrackOutputs(w, cb, hash, daa, k).entries);
      if w1 != w {
        PushJournaled(w, FreshEntry(cb.txid, hash, daa, cb.outputs[k].amount, k, false, cb.outputs[k].window.value));
      }
      TrackOutputsJournaled(w1, cb, hash, daa, k + 1);
    }
  }

  lemma {:induction false} LivingOutpoints(es: seq<Entry>)
    requires DistinctOutpoints(es)
    ensures DistinctOutpoints(Living(es))
    decreases |es|
  {
    if es != [] {
      var n := |es| - 1;
      DistinctPrefix(es[..n], es);
      LivingOutpoints(es[..n]);
      LivingKeeps(es[..n]);
      var kept := Living(es[..n]);
      forall i | 0 <= i < |kept| ensures kept[i].Outpoint() != es[n].Outpoint() {
        assert kept[i] in kept;
        var a :| 0 <= a < n && es[..n][a] == kept[i];
        assert es[a].Outpoint() != es[n].Outpoint();
      }
      AppendDistinct(kept, es[n]);
    }
  }

  lemma {:induction false} AppendDistinct(es: seq<Entry>, e: Entry)
    requires DistinctOutpoints(es) && forall i | 0 <= i < |es| :: es[i].Outpoint() != e.Outpoint()
    ensures DistinctOutpoints(es + [e])
  {
  }

  /** Compaction drops only what the files already have as dead. */
  lemma {:induction false} CompactJournaled(w: Watcher)
    requires Journaled(w)
    ensures Journaled(Compact(w))
  {
    var w' := Compact(w);
    LivingKeeps(w.entries);
    LivingOutpoints(w.entries);
    if |Living(w.entries)| != |w.entries| {
      assert RecoverAll(w') == RecoverAll(w);
      var t := RecoverAll(w).table;
      forall j | 0 <= j < |w'.entries| ensures Holds(t, w'.entries[j]) {
        assert w'.entries[j] in w.entries;
        var i :| 0 <= i < |w.entries| && w.entries[i] == w'.entries[j];
        assert Holds(t, w.entries[i]);
      }
    }
  }

  // ---------------------------------------------------------------- steps and runs

  /** Nothing the recovery looks at has changed. */
  lemma {:induction false} SameJournal(w: Watcher, w': Watcher)
    requires Journaled(w)
    requires w'.entries == w.entries && w'.journalSeq == w.journalSeq && w'.pending == w.pending && w'.disk == w.disk
    ensures Journaled(w')
  {
    assert RecoverAll(w') == RecoverAll(w);
  }

  lemma {:induction false} DistinctBack(a: seq<Entry>, b: seq<Entry>)
    requires EntriesEvolve(a, b) && DistinctOutpoints(b)
    ensures DistinctOutpoints(a)
  {
    forall i, j | 0 <= i < j < |a| ensures a[i].Outpoint() != a[j].Outpoint() {
      assert Evolves(a[i], b[i]) && Evolves(a[j], b[j]);
    }
  }

  lemma {:induction false} BeforeClaimJournaled(w: Watcher, b: Block)
    requires Journaled(w) && DistinctOutpoints(BeforeClaim(w, b).entries)
    ensures Journaled(BeforeClaim(w, b))
  {
    var w1 := ExpireInFlight(w.(lastDaa := b.daa), b.daa);
    SameJournal(w, w1);
    SameJournal(w1, w1.(blocksSinceCompact := 0));
    SameJournal(w1, w1.(blocksSinceCompact := w1.blocksSinceCompact + 1));
    CompactJournaled(w1.(blocksSinceCompact := 0));
    var w2 := Pruned(w, b);
    PurgeBlocksJournaled(w2, b.reds, Red);
    var w3 := PurgeBlocks(w2, b.reds, Red);
    if b.isChain && b.coinbase.Some? {
      TrackOutputsJournaled(w3, b.coinbase.value, b.hash, b.daa, 0);
    }
  }

  lemma {:induction false} BlockJournaled(w: Watcher, b: Block, batch: seq<nat>, built: Option<string>)
    requires Journaled(w)
    requires MayClaim(BeforeClaim(w, b)) ==> InRange(Heal(BeforeClaim(w, b), b.daa, 0), batch)
    requires DistinctOutpoints(FindClaim(BeforeClaim(w, b), b.daa, batch, built).entries)
    ensures Journaled(FindClaim(BeforeClaim(w, b), b.daa, batch, built))
  {
    var w1 := BeforeClaim(w, b);
    FindClaimDistinct(w1, b.daa, batch, built);
    BeforeClaimJournaled(w, b);
    FindClaimJournaled(w1, b.daa, batch, built);
  }

  lemma {:induction false} FindClaimDistinct(w: Watcher, daa: nat, batch: seq<nat>, built: Option<string>)
    requires MayClaim(w) ==> InRange(Heal(w, daa, 0), batch)
    requires DistinctOutpoints(FindClaim(w, daa, batch, built).entries)
    ensures DistinctOutpoints(w.entries)
  {
    var w' := FindClaim(w, daa, batch, built);
    HealCoherent(w, daa, 0);
    forall i | 0 <= i < |w.entries| ensures Evolves(w.entries[i], w'.entries[i]) {
      HealEvolves(w.entries[i], daa);
    }
    DistinctBack(w.entries, w'.entries);
  }

  lemma {:induction false} FindClaimJournaled(w: Watcher, daa: nat, batch: seq<nat>, built: Option<string>)
    requires Journaled(w)
    requires MayClaim(w) ==> InRange(Heal(w, daa, 0), batch)
    ensures Journaled(FindClaim(w, daa, batch, built))
  {
    if MayClaim(w) {
      HealJournaled(w, daa, 0);
      SameJournal(Heal(w, daa, 0), FindClaim(w, daa, batch, built));
    }
  }

  /** The state an event leaves before it is flushed. */
  ghost function Unflushed(env: Env, w: Watcher, ev: Event): Watcher
    requires StepOk(env, w, ev)
  {
    match ev
    case BlockSeen(b, batch, built, _) => FindClaim(BeforeClaim(w, b), b.daa, batch, built)
    case Inference(txid, daa, amount, _) => TrackInference(w, txid, daa, amount)
    case Response(t, error, pick, _) => OnSubmitResponse(w, t, error, pick)
    case ChainRemoved(hashes, _) => PurgeBlocks(w, hashes, Reorg)
    case ValidationStarted => StartValidation(w)
    case Validated(h, onChain, _) => OnBlockValidated(w, h, onChain)
    case Unknown(h, _) => OnBlockUnknown(w, h)
    case Shutdown(_) => w
  }

  lemma {:induction false} StepFlushes(env: Env, w: Watcher, ev: Event)
    requires StepOk(env, w, ev)
    ensures Step(env, w, ev) == Unflushed(env, w, ev)
      || Step(env, w, ev) == MaybeFlush(Unflushed(env, w, ev), ClockOf(ev))
    ensures Step(env, w, ev).entries == Unflushed(env, w, ev).entries
  {
    FlushFrame(Unflushed(env, w, ev), ClockOf(ev));
  }

  lemma {:induction false} UnflushedJournaled(env: Env, w: Watcher, ev: Event)
    requires Journaled(w) && StepOk(env, w, ev) && DistinctOutpoints(Unflushed(env, w, ev).entries)
    ensures Journaled(Unflushed(env, w, ev))
  {
    match ev
    case BlockSeen(b, batch, built, clock) => BlockJournaled(w, b, batch, built);
    case Inference(txid, daa, amount, clock) =>
      if TrackInference(w, txid, daa, amount) != w {
        PushJournaled(w, FreshEntry(txid, "", daa, amount, 1, true, CHALLENGE_WINDOW_BLOCKS));
      }
    case Response(t, error, pick, clock) =>
      var m := Matched(w, t, error, pick);
      if m.Some? {
        var inputs, w1 := w.inFlight[m.value].inputs, Unclaim(w, m.value);
        SameJournal(w, w1);
        AnswerAllJournaled(w1, inputs, |inputs|, VerdictOf(error));
      }
    case ChainRemoved(hashes, clock) => PurgeBlocksJournaled(w, hashes, Reorg);
    case ValidationStarted => SameJournal(w, StartValidation(w));
    case Validated(h, onChain, clock) =>
      var w1 := w.(validationPending := w.validationPending - {h});
      SameJournal(w, w1);
      if h in w1.blockIndex {
        PurgeIndicesJournaled(w1, w1.blockIndex[h], Ghost);
      }
    case Unknown(h, clock) => SameJournal(w, OnBlockUnknown(w, h));
    case Shutdown(_) =>
  }

  /** Nothing but the flush touches the files. */
  lemma {:induction false} BeforeClaimDisk(w: Watcher, b: Block)
    ensures BeforeClaim(w, b).disk == w.disk
  {
    var w2 := Pruned(w, b);
    PurgeBlocksFrame(w2, b.reds, Red);
    if b.isChain && b.coinbase.Some? {
      TrackOutputsFrame(PurgeBlocks(w2, b.reds, Red), b.coinbase.value, b.hash, b.daa, 0);
    }
  }

  lemma {:induction false} UnflushedDisk(env: Env, w: Watcher, ev: Event)
    requires StepOk(env, w, ev)
    ensures Unflushed(env, w, ev).disk == w.disk
  {
    match ev
    case BlockSeen(b, batch, built, clock) =>
      BeforeClaimDisk(w, b);
      HealCoherent(BeforeClaim(w, b), b.daa, 0);
    case Inference(txid, daa, amount, clock) =>
    case Response(t, error, pick, clock) =>
      var m := Matched(w, t, error, pick);
      if m.Some? {
        var inputs := w.inFlight[m.value].inputs;
        AnswerAllFrame(Unclaim(w, m.value), inputs, |inputs|, VerdictOf(error));
      }
    case ChainRemoved(hashes, clock) => PurgeBlocksFrame(w, hashes, Reorg);
    case ValidationStarted =>
    case Validated(h, onChain, clock) =>
      var w1 := w.(validationPending := w.validationPending - {h});
      if h in w1.blockIndex {
        PurgeIndicesFrame(w1, w1.blockIndex[h], Ghost);
      }
    case Unknown(h, clock) =>
    case Shutdown(_) =>
  }

  /** Every event keeps files plus unwritten lines equal to memory; one that changes the files leaves them
  equal to memory on their own. */
  lemma {:induction false} StepJournaled(env: Env, w: Watcher, ev: Event)
    requires Journaled(w) && StepOk(env, w, ev) && DistinctOutpoints(Step(env, w, ev).entries)
    ensures Journaled(Step(env, w, ev))
    ensures Step(env, w, ev).disk == w.disk || Mirrors(Recover(Step(env, w, ev).disk).table, Step(env, w, ev).entries)
  {
    StepFlushes(env, w, ev);
    UnflushedJournaled(env, w, ev);
    UnflushedDisk(env, w, ev);
    FlushJournaled(Unflushed(env, w, ev), ClockOf(ev));
  }

  /** A run in which no outpoint is ever carried twice in the entry list. */
  ghost predicate DistinctRun(env: Env, w: Watcher, evs: seq<Event>)
    requires Runs(env, w, evs)
    decreases |evs|
  {
    DistinctOutpoints(After(env, w, evs).entries) && (evs == [] || DistinctRun(env, w, evs[..|evs| - 1]))
  }

  /** Journal recovery over whole runs: after any number of events and any mix of journal writes,
  snapshots, failed writes and interrupted snapshots, files plus unwritten lines recover the entries
  in memory, up to dead ones that compaction dropped. */
  lemma {:induction false} RunJournaled(env: Env, w: Watcher, evs: seq<Event>)
    requires Journaled(w) && Runs(env, w, evs) && DistinctRun(env, w, evs)
    ensures Journaled(After(env, w, evs))
    decreases |evs|
  {
    if evs != [] {
      var n := |evs| - 1;
      RunJournaled(env, w, evs[..n]);
      StepJournaled(env, After(env, w, evs[..n]), evs[n]);
    }
  }

  // ---------------------------------------------------------------- restart

  /** A new watcher over loaded entries. */
  function Loaded(entries: seq<Entry>, s: nat, disk: Disk): Watcher {
    RebuildIndexes(Watcher(entries, s, [], map[], {}, 0, {}, map[], false, 0, 0, {}, disk))
  }

  /** Any reload starts coherent and journaled, whatever the crash before it left behind. */
  lemma {:induction false} LoadedJournaled(env: Env, disk: Disk, entries: seq<Entry>, s: nat)
    requires Recovered(AsMap(entries), s) == Recover(disk) && DistinctOutpoints(entries)
      && DistinctOutpoints(disk.snapshot)
    ensures Journaled(Loaded(entries, s, disk)) && Inv(env, Loaded(entries, s, disk))
  {
    var w := Loaded(entries, s, disk);
    DistinctMirror(entries);
    assert Records([]) == [];
    ReplayedLinesStale(Recovered(AsMap(disk.snapshot), disk.snapshotSeq), disk.journal);
    assert RecoverAll(w) == Recover(disk);
    assert LiveLast(entries);
    RebuildCoherent(Watcher(entries, s, [], map[], {}, 0, {}, map[], false, 0, 0, {}, disk));
    assert AllOutpoints(map[]) == {};
  }

  /** Files after a crash: the first `j` unwritten lines had reached the journal, then perhaps a torn one. */
  ghost function CrashDisk(w: Watcher, j: nat, torn: bool): Disk
    requires j <= |w.pending|
  {
    w.disk.(journal := w.disk.journal + Records(w.pending[..j]) + (if torn then [Torn] else []))
  }

  /** Outpoints of the lines that had not. */
  ghost function LostOutpoints(w: Watcher, j: nat): set<Outpoint> {
    set i: nat | j <= i < |w.pending| :: w.pending[i].e.Outpoint()
  }

  lemma {:induction false} CrashReplays(w: Watcher, j: nat, torn: bool)
    requires j <= |w.pending|
    ensures RecoverAll(w) == ReplayAll(Recover(CrashDisk(w, j, torn)), Records(w.pending[j..]))
  {
    var r, lines := Recovered(AsMap(w.disk.snapshot), w.disk.snapshotSeq), Records(w.pending);
    var kept := w.disk.journal + Records(w.pending[..j]);
    assert lines == Records(w.pending[..j]) + Records(w.pending[j..]);
    ReplaySplit(Recover(w.disk), Records(w.pending[..j]), Records(w.pending[j..]));
    ReplaySplit(r, w.disk.journal, Records(w.pending[..j]));
    ReplaySplit(r, kept, if torn then [Torn] else []);
    assert [Torn][..0] == [];
  }

  /** Replay touches only the outpoints of its lines. */
  lemma {:induction false} ReplayUntouched(r: Recovered, lines: seq<Line>, o: Outpoint)
    requires forall i | 0 <= i < |lines| :: lines[i].e.Outpoint() != o
    ensures o in ReplayAll(r, Records(lines)).table <==> o in r.table
    ensures o in r.table ==> ReplayAll(r, Records(lines)).table[o] == r.table[o]
    decreases |lines|
  {
    if lines != [] {
      var n := |lines| - 1;
      ReplayUntouched(r, lines[..n], o);
      assert Records(lines)[..n] == Records(lines[..n]);
    }
  }

  /** A crash at any moment loses only the lines that had not reached the journal. Every entry in memory
  whose outpoint is in none of them is loaded back as it was, nothing else comes up live, and the new
  watcher starts coherent and journaled. */
  lemma {:induction false} RestartRecovers(env: Env, w: Watcher, j: nat, torn: bool, entries: seq<Entry>, s: nat)
    requires Journaled(w) && j <= |w.pending|
    requires Recovered(AsMap(entries), s) == Recover(CrashDisk(w, j, torn)) && DistinctOutpoints(entries)
    ensures forall e | e in w.entries && e.Outpoint() !in LostOutpoints(w, j) :: e in entries
    ensures forall e | e in entries && e.Live() && e.Outpoint() !in LostOutpoints(w, j) :: e in w.entries
    ensures Journaled(Loaded(entries, s, CrashDisk(w, j, torn))) && Inv(env, Loaded(entries, s, CrashDisk(w, j, torn)))
  {
    LoadedJournaled(env, CrashDisk(w, j, torn), entries, s);
    DistinctMirror(entries);
    forall o | o !in LostOutpoints(w, j)
      ensures o in AsMap(entries) <==> o in RecoverAll(w).table
      ensures o in AsMap(entries) ==> AsMap(entries)[o] == RecoverAll(w).table[o]
    {
      UntouchedByLost(w, j, torn, o);
    }
    forall e | e in w.entries && e.Outpoint() !in LostOutpoints(w, j) ensures e in entries {
      var i :| 0 <= i < |w.entries| && w.entries[i] == e;
      assert Holds(RecoverAll(w).table, w.entries[i]);
      FoundInList(entries, e);
    }
    forall e | e in entries && e.Live() && e.Outpoint() !in LostOutpoints(w, j) ensures e in w.entries {
      var i :| 0 <= i < |entries| && entries[i] == e;
      assert Holds(AsMap(entries), entries[i]);
    }
  }

  lemma {:induction false} UntouchedByLost(w: Watcher, j: nat, torn: bool, o: Outpoint)
    requires j <= |w.pending| && o !in LostOutpoints(w, j)
    ensures o in Recover(CrashDisk(w, j, torn)).table <==> o in RecoverAll(w).table
    ensures o in RecoverAll(w).table ==> Recover(CrashDisk(w, j, torn)).table[o] == RecoverAll(w).table[o]
  {
    CrashReplays(w, j, torn);
    forall i | 0 <= i < |w.pending[j..]| ensures w.pending[j..][i].e.Outpoint() != o {
      assert w.pending[j..][i] == w.pending[j + i];
    }
    ReplayUntouched(Recover(CrashDisk(w, j, torn)), w.pending[j..], o);
  }

  lemma {:induction false} FoundInList(es: seq<Entry>, e: Entry)
    requires DistinctOutpoints(es) && Holds(AsMap(es), e)
    ensures e in es
  {
    AsMapKeys(es, e.Outpoint());
    var i :| 0 <= i < |es| && es[i].Outpoint() == e.Outpoint();
    AsMapAt(es, i);
  }

  /** Entries in memory when the files last changed along a run. */
  ghost function LastWritten(env: Env, w: Watcher, evs: seq<Event>): seq<Entry>
    requires Runs(env, w, evs)
    decreases |evs|
  {
    if evs == [] then w.entries
    else
      var n := |evs| - 1;
      if After(env, w, evs).disk != After(env, w, evs[..n]).disk then After(env, w, evs).entries
      else LastWritten(env, w, evs[..n])
  }

  /** The crash theorem over runs: a watcher killed at any point, with whatever it had not written, leaves
  files that mirror its entries at the last write that succeeded. */
  lemma {:induction false} CrashMirrorsLastWrite(env: Env, w: Watcher, evs: seq<Event>)
    requires Journaled(w) && Mirrors(Recover(w.disk).table, w.entries) && Runs(env, w, evs) && DistinctRun(env, w, evs)
    ensures Mirrors(Recover(After(env, w, evs).disk).table, LastWritten(env, w, evs))
    decreases |evs|
  {
    if evs != [] {
      var n := |evs| - 1;
      CrashMirrorsLastWrite(env, w, evs[..n]);
      RunJournaled(env, w, evs[..n]);
      StepJournaled(env, After(env, w, evs[..n]), evs[n]);
    }
  }
}
