/** When the watcher writes its files, and what is in them then (src/escrow.rs:424-485, 1217-1230). */
module EscrowFiles {
  import opened Outcomes
  import opened EscrowEntries
  import opened EscrowModel
  import opened EscrowIndexes
  import opened EscrowClaims
  import opened EscrowSteps
  import opened EscrowJournal
  import opened EscrowLives
  import opened EscrowBlocks
  import opened EscrowVerdicts

  /** The block drops a dead entry, which asks for a snapshot. */
  ghost predicate Shrinks(w: Watcher, ev: Event) {
    ev.BlockSeen? && Drops(w) && exists e :: e in w.entries && !e.Live()
  }

  /** The events that may write: every block, and what tracked, answered, purged or completed something. */
  ghost predicate MayWrite(w: Watcher, ev: Event) {
    match ev
    case BlockSeen(_, _, _, _) => true
    case Inference(txid, _, amount, _) => amount != 0 && (txid, 1) !in w.tracked
    case Response(t, error, pick, _) => About(w, t, error, t) || About(w, t, error, pick)
    case ChainRemoved(hashes, _) => exists e :: e in w.entries && CameWith(e, hashes)
    case ValidationStarted => false
    case Validated(hash, _, _) => w.validationPending == {hash}
    case Unknown(hash, _) => w.validationPending == {hash}
    case Shutdown(_) => w.snapshotDue || w.linesSinceSnapshot > 0 || w.pending != []
  }

  /** A snapshot is due: asked for, the journal too big, or time up with something not in one; a shutdown
  insists. */
  ghost predicate SnapshotTime(w: Watcher, ev: Event, lines: nat) {
    || ev.Shutdown? || w.snapshotDue || Shrinks(w, ev) || ClockOf(ev).journalBig
    || (lines > 0 && ClockOf(ev).snapshotElapsed)
  }

  /** The files after an event that wrote the lines `added`. If it may write and the write does not fail: a
  due snapshot is the list, with an empty journal unless emptying it failed; else the journal gets every line
  if its time is up. Otherwise nothing is written and no line is lost. */
  ghost predicate FilesAfter(w: Watcher, ev: Event, w': Watcher, writes: bool, added: seq<Line>) {
    var lines, outcome := w.pending + added, ClockOf(ev).outcome;
    && w'.journalSeq == w.journalSeq + |added|
    && (forall k | 0 <= k < |added| :: added[k].s == w.journalSeq + k + 1)
    && if !writes || outcome == Failed then w'.disk == w.disk && w'.pending == lines
      else if SnapshotTime(w, ev, w.linesSinceSnapshot + |lines|) then
        && w'.disk.snapshot == w'.entries && w'.disk.snapshotSeq == w'.journalSeq
        && (if outcome == Written then w'.disk.journal == [] && w'.pending == []
            else w'.disk.journal == w.disk.journal && w'.pending == lines)
      else if ClockOf(ev).journalElapsed && outcome == Written then
        w'.pending == [] && w'.disk == w.disk.(journal := w.disk.journal + Records(lines))
      else w'.disk == w.disk && w'.pending == lines
  }

  ghost predicate FilesLaw(w: Watcher, ev: Event, w': Watcher) {
    exists added :: FilesAfter(w, ev, w', MayWrite(w, ev), added)
  }

  // ---------------------------------------------------------------- proofs

  /** Nothing but new lines, numbered on from the last one. */
  ghost predicate Appends(w: Watcher, u: Watcher, added: seq<Line>) {
    && u.pending == w.pending + added && u.journalSeq == w.journalSeq + |added|
    && (forall k | 0 <= k < |added| :: added[k].s == w.journalSeq + k + 1)
    && u.linesSinceSnapshot == w.linesSinceSnapshot && u.snapshotDue == w.snapshotDue && u.disk == w.disk
  }

  lemma {:induction false} AppendsOn(w: Watcher, u: Watcher, v: Watcher, a: seq<Line>, b: seq<Line>)
    requires Appends(w, u, a) && Appends(u, v, b)
    ensures Appends(w, v, a + b)
  {
    assert w.pending + a + b == w.pending + (a + b);
  }

  lemma {:induction false} PutAppends(w: Watcher, i: nat, e: Entry)
    requires i < |w.entries|
    ensures Appends(w, Put(w, i, e), [Line(w.journalSeq + 1, e)])
  {
  }

  lemma {:induction false} SameAppends(w: Watcher, u: Watcher)
    requires u.pending == w.pending && u.journalSeq == w.journalSeq && u.disk == w.disk
    requires u.linesSinceSnapshot == w.linesSinceSnapshot && u.snapshotDue == w.snapshotDue
    ensures Appends(w, u, [])
  {
    assert w.pending + [] == w.pending;
  }

  lemma {:induction false} PurgeIndicesAppends(w: Watcher, indices: seq<nat>, how: Purge) returns (added: seq<Line>)
    ensures Appends(w, PurgeIndices(w, indices, how), added)
    decreases |indices|
  {
    added := [];
    if indices == [] {
      SameAppends(w, w);
    } else {
      var w1, first: seq<Line> := PurgeEntry(w, indices[0], how), [];
      if indices[0] < |w.entries| && Purgeable(w.entries[indices[0]], how) {
        first := [Line(w.journalSeq + 1, w.entries[indices[0]].(slashed := true))];
        assert Appends(w, w1, first);
      } else {
        SameAppends(w, w1);
      }
      var rest := PurgeIndicesAppends(w1, indices[1..], how);
      added := first + rest;
      AppendsOn(w, w1, PurgeIndices(w, indices, how), first, rest);
    }
  }

  lemma {:induction false} PurgeBlockAppends(w: Watcher, hash: string, how: Purge) returns (added: seq<Line>)
    ensures Appends(w, PurgeBlock(w, hash, how), added)
  {
    added := [];
    if hash in w.blockIndex {
      added := PurgeIndicesAppends(w, w.blockIndex[hash], how);
    } else {
      SameAppends(w, w);
    }
  }

  lemma {:induction false} PurgeBlocksAppends(w: Watcher, hashes: seq<string>, how: Purge) returns (added: seq<Line>)
    ensures Appends(w, PurgeBlocks(w, hashes, how), added)
    decreases |hashes|
  {
    added := [];
    if hashes == [] {
      SameAppends(w, w);
    } else {
      var w1 := PurgeBlock(w, hashes[0], how);
      var first := PurgeBlockAppends(w, hashes[0], how);
      var rest := PurgeBlocksAppends(w1, hashes[1..], how);
      added := first + rest;
      AppendsOn(w, w1, PurgeBlocks(w, hashes, how), first, rest);
    }
  }

  lemma {:induction false} TrackOutputsAppends(w: Watcher, cb: Coinbase, hash: string, daa: nat, k: nat)
    returns (added: seq<Line>)
    requires k <= |cb.outputs|
    ensures Appends(w, TrackOutputs(w, cb, hash, daa, k), added)
    decreases |cb.outputs| - k
  {
    added := [];
    if k == |cb.outputs| {
      SameAppends(w, w);
    } else {
      var w1, first: seq<Line> := TrackOutput(w, cb, hash, daa, k), [];
      if w1 == w {
        SameAppends(w, w1);
      } else {
        first := [Line(w.journalSeq + 1, w1.entries[|w.entries|])];
        assert Appends(w, w1, first);
      }
      var rest := TrackOutputsAppends(w1, cb, hash, daa, k + 1);
      added := first + rest;
      AppendsOn(w, w1, TrackOutputs(w, cb, hash, daa, k), first, rest);
    }
  }

  lemma {:induction false} HealAppends(w: Watcher, daa: nat, i: nat) returns (added: seq<Line>)
    requires i <= |w.entries|
    ensures Appends(w, Heal(w, daa, i), added)
    decreases |w.entries| - i
  {
    added := [];
    if i == |w.entries| {
      SameAppends(w, w);
    } else {
      var w1, e, first: seq<Line> := HealOne(w, daa, i), HealEntry(w.entries[i], daa), [];
      if e == w.entries[i] {
        SameAppends(w, w1);
      } else {
        first := [Line(w.journalSeq + 1, e)];
        PutAppends(w, i, e);
      }
      var rest := HealAppends(w1, daa, i + 1);
      added := first + rest;
      AppendsOn(w, w1, Heal(w, daa, i), first, rest);
    }
  }

  lemma {:induction false} AnswerAllAppends(w: Watcher, inputs: seq<Entry>, n: nat, v: Verdict)
    returns (added: seq<Line>)
    ensures Appends(w, AnswerAll(w, inputs, n, v), added)
    decreases |inputs|
  {
    added := [];
    if inputs == [] {
      SameAppends(w, w);
    } else {
      match FirstMatch(w.entries, inputs[0].Outpoint())
      case None => added := AnswerAllAppends(w, inputs[1..], n, v);
      case Some(i) =>
        var e := AnswerEntry(w.entries[i], n, v, w.lastDaa);
        PutAppends(w, i, e);
        var rest := AnswerAllAppends(Put(w, i, e), inputs[1..], n, v);
        added := [Line(w.journalSeq + 1, e)] + rest;
        AppendsOn(w, Put(w, i, e), AnswerAll(w, inputs, n, v), [Line(w.journalSeq + 1, e)], rest);
    }
  }

  // ---------------------------------------------------------------- proofs: the flush

  /** The watcher with the snapshot a shrinking block asks for. */
  ghost function Asked(w: Watcher, ev: Event): Watcher {
    w.(snapshotDue := w.snapshotDue || Shrinks(w, ev))
  }

  lemma {:induction false} FlushWrites(w: Watcher, ev: Event, u: Watcher, added: seq<Line>, w': Watcher)
    requires !ev.Shutdown? && Appends(Asked(w, ev), u, added)
    requires w' == if MayWrite(w, ev) then MaybeFlush(u, ClockOf(ev)) else u
    ensures FilesLaw(w, ev, w')
  {
    if MayWrite(w, ev) {
      FlushedAfter(w, ev, u, added);
    } else {
      assert w.pending + added == u.pending;
    }
    assert FilesAfter(w, ev, w', MayWrite(w, ev), added);
  }

  lemma {:induction false} FlushedAfter(w: Watcher, ev: Event, u: Watcher, added: seq<Line>)
    requires !ev.Shutdown? && Appends(Asked(w, ev), u, added)
    ensures FilesAfter(w, ev, MaybeFlush(u, ClockOf(ev)), true, added)
  {
    assert Records([]) == [] && w.disk.journal + [] == w.disk.journal;
  }

  lemma {:induction false} ShutdownWrites(w: Watcher, ev: Event)
    requires ev.Shutdown?
    ensures FilesAfter(w, ev, FlushState(w, ev.outcome), MayWrite(w, ev), [])
  {
    assert w.pending + [] == w.pending;
  }

  lemma {:induction false} PrunedAppends(w: Watcher, ev: Event)
    requires ev.BlockSeen?
    ensures Appends(Asked(w, ev), Pruned(w, ev.b), [])
  {
    LivingKeeps(w.entries);
    if forall e | e in w.entries :: e.Live() {
      LivingAll(w.entries);
    }
    SameAppends(Asked(w, ev), Pruned(w, ev.b));
  }

  lemma {:induction false} BlockAppends(env: Env, w: Watcher, ev: Event) returns (added: seq<Line>)
    requires ev.BlockSeen? && StepOk(env, w, ev)
    ensures Appends(Asked(w, ev), Unflushed(env, w, ev), added)
  {
    var b, w2, w4 := ev.b, Pruned(w, ev.b), BeforeClaim(w, ev.b);
    var w3 := PurgeBlocks(w2, b.reds, Red);
    PrunedAppends(w, ev);
    added := PurgeBlocksAppends(w2, b.reds, Red);
    AppendsOn(Asked(w, ev), w2, w3, [], added);
    assert [] + added == added;
    var more := ClaimAppends(w4, b.daa, ev.batch, ev.built);
    if b.isChain && b.coinbase.Some? {
      var tracked := TrackOutputsAppends(w3, b.coinbase.value, b.hash, b.daa, 0);
      AppendsOn(Asked(w, ev), w3, w4, added, tracked);
      added := added + tracked;
    }
    AppendsOn(Asked(w, ev), w4, Unflushed(env, w, ev), added, more);
    added := added + more;
  }

  lemma {:induction false} ClaimAppends(w: Watcher, daa: nat, batch: seq<nat>, built: Option<string>)
    returns (added: seq<Line>)
    requires MayClaim(w) ==> InRange(Heal(w, daa, 0), batch)
    ensures Appends(w, FindClaim(w, daa, batch, built), added)
  {
    added := [];
    if MayClaim(w) {
      added := HealAppends(w, daa, 0);
    } else {
      SameAppends(w, w);
    }
  }

  /** The journal moves on exactly when a live entry dies. */
  lemma {:induction false} PurgeIndicesMoves(w: Watcher, indices: seq<nat>, how: Purge)
    ensures var w' := PurgeIndices(w, indices, how);
      && EntriesEvolve(w.entries, w'.entries) && w'.journalSeq >= w.journalSeq
      && (w'.journalSeq > w.journalSeq <==> SomeDied(w.entries, w'.entries))
    decreases |indices|
  {
    if indices != [] {
      var w1 := PurgeEntry(w, indices[0], how);
      assert SomeDied(w.entries, w1.entries) <==> w1.journalSeq > w.journalSeq by {
        if w1.journalSeq > w.journalSeq {
          assert w.entries[indices[0]].Live() && !w1.entries[indices[0]].Live();
        }
      }
      PurgeIndicesMoves(w1, indices[1..], how);
      SomeDiedSince(w.entries, w1.entries, PurgeIndices(w, indices, how).entries);
    }
  }

  ghost predicate SomeDied(es: seq<Entry>, es': seq<Entry>) {
    exists i :: 0 <= i < |es| && i < |es'| && es[i].Live() && !es'[i].Live()
  }

  lemma {:induction false} SomeDiedSince(a: seq<Entry>, b: seq<Entry>, c: seq<Entry>)
    requires EntriesEvolve(a, b) && EntriesEvolve(b, c)
    ensures EntriesEvolve(a, c) && (SomeDied(a, c) <==> SomeDied(a, b) || SomeDied(b, c))
  {
    forall i | 0 <= i < |a|
      ensures Evolves(a[i], c[i])
      ensures a[i].Live() && !c[i].Live() <==> (a[i].Live() && !b[i].Live()) || (b[i].Live() && !c[i].Live())
    {
      assert Evolves(a[i], b[i]) && Evolves(b[i], c[i]);
    }
  }

  lemma {:induction false} PurgeBlocksMoves(w: Watcher, hashes: seq<string>, how: Purge)
    ensures var w' := PurgeBlocks(w, hashes, how);
      && EntriesEvolve(w.entries, w'.entries) && w'.journalSeq >= w.journalSeq
      && (w'.journalSeq > w.journalSeq <==> SomeDied(w.entries, w'.entries))
    decreases |hashes|
  {
    if hashes != [] {
      var w1 := PurgeBlock(w, hashes[0], how);
      if hashes[0] in w.blockIndex {
        PurgeIndicesMoves(w, w.blockIndex[hashes[0]], how);
      }
      PurgeBlocksMoves(w1, hashes[1..], how);
      SomeDiedSince(w.entries, w1.entries, PurgeBlocks(w, hashes, how).entries);
    }
  }

  lemma {:induction false} RemovedFiles(env: Env, w: Watcher, ev: Event)
    requires Inv(env, w) && ev.ChainRemoved?
    ensures FilesLaw(w, ev, Step(env, w, ev))
  {
    var u := PurgeBlocks(w, ev.hashes, Reorg);
    var added := PurgeBlocksAppends(w, ev.hashes, Reorg);
    PurgeBlocksMoves(w, ev.hashes, Reorg);
    PurgeBlocksCoherent(w, ev.hashes, Reorg);
    assert MayWrite(w, ev) <==> SomeDied(w.entries, u.entries) by {
      if e :| e in w.entries && CameWith(e, ev.hashes) {
        var i :| 0 <= i < |w.entries| && w.entries[i] == e;
        assert u.entries[i] == PurgedWith(e, ev.hashes, Reorg);
      }
      if i :| 0 <= i < |w.entries| && w.entries[i].Live() && !u.entries[i].Live() {
        assert CameWith(w.entries[i], ev.hashes);
      }
    }
    FlushWrites(w, ev, u, added, Step(env, w, ev));
  }

  lemma {:induction false} ResponseFiles(env: Env, w: Watcher, ev: Event)
    requires ev.Response?
    ensures FilesLaw(w, ev, Step(env, w, ev))
  {
    MatchedIsAbout(w, ev.responseTxid, ev.error, ev.pick);
    var m := Matched(w, ev.responseTxid, ev.error, ev.pick);
    if m.Some? {
      var w1, inputs := Unclaim(w, m.value), w.inFlight[m.value].inputs;
      var added := AnswerAllAppends(w1, inputs, |inputs|, VerdictOf(ev.error));
      SameAppends(w, w1);
      AppendsOn(w, w1, OnSubmitResponse(w, ev.responseTxid, ev.error, ev.pick), [], added);
      assert [] + added == added;
      assert About(w, ev.responseTxid, ev.error, m.value);
      FlushWrites(w, ev, OnSubmitResponse(w, ev.responseTxid, ev.error, ev.pick), added, Step(env, w, ev));
    } else {
      assert !About(w, ev.responseTxid, ev.error, ev.responseTxid) && !About(w, ev.responseTxid, ev.error, ev.pick);
      SameAppends(w, w);
      FlushWrites(w, ev, w, [], Step(env, w, ev));
    }
  }

  lemma {:induction false} LastPending(pending: set<string>, hash: string)
    ensures hash in pending && pending - {hash} == {} <==> pending == {hash}
  {
  }

  lemma {:induction false} ValidatedFiles(env: Env, w: Watcher, ev: Event)
    requires ev.Validated?
    ensures FilesLaw(w, ev, Step(env, w, ev))
  {
    var u, w1 := OnBlockValidated(w, ev.hash, ev.onChain), w.(validationPending := w.validationPending - {ev.hash});
    SameAppends(w, w1);
    var added: seq<Line> := [];
    if ev.hash in w.validationPending && !ev.onChain {
      added := PurgeBlockAppends(w1, ev.hash, Ghost);
      AppendsOn(w, w1, u, [], added);
      assert [] + added == added;
      if ev.hash in w1.blockIndex {
        PurgeIndicesFrame(w1, w1.blockIndex[ev.hash], Ghost);
      }
    } else {
      SameAppends(w, u);
    }
    assert ev.hash in w.validationPending ==> u.validationPending == w.validationPending - {ev.hash};
    LastPending(w.validationPending, ev.hash);
    FlushWrites(w, ev, u, added, Step(env, w, ev));
  }

  lemma {:induction false} OtherFiles(env: Env, w: Watcher, ev: Event)
    requires ev.Inference? || ev.ValidationStarted? || ev.Unknown? || ev.Shutdown?
    ensures FilesLaw(w, ev, Step(env, w, ev))
  {
    match ev
    case Inference(txid, daa, amount, clock) =>
      var u := TrackInference(w, txid, daa, amount);
      if u == w {
        SameAppends(w, w);
        FlushWrites(w, ev, w, [], Step(env, w, ev));
      } else {
        FlushWrites(w, ev, u, [Line(w.journalSeq + 1, u.entries[|w.entries|])], Step(env, w, ev));
      }
    case ValidationStarted =>
      SameAppends(w, StartValidation(w));
      FlushWrites(w, ev, StartValidation(w), [], Step(env, w, ev));
    case Unknown(hash, _) =>
      LastPending(w.validationPending, hash);
      SameAppends(w, OnBlockUnknown(w, hash));
      FlushWrites(w, ev, OnBlockUnknown(w, hash), [], Step(env, w, ev));
    case Shutdown(_) => ShutdownWrites(w, ev);
  }

  /** What every event leaves in the files, in every reachable state. */
  lemma {:induction false} StepFiles(env: Env, w: Watcher, ev: Event)
    requires Inv(env, w) && StepOk(env, w, ev)
    ensures FilesLaw(w, ev, Step(env, w, ev))
  {
    match ev
    case BlockSeen(_, _, _, _) =>
      var added := BlockAppends(env, w, ev);
      FlushWrites(w, ev, Unflushed(env, w, ev), added, Step(env, w, ev));
    case Response(_, _, _, _) => ResponseFiles(env, w, ev);
    case ChainRemoved(_, _) => RemovedFiles(env, w, ev);
    case Validated(_, _, _) => ValidatedFiles(env, w, ev);
    case _ => OtherFiles(env, w, ev);
  }

  /** `w'` is what the event owes: a state that keeps the invariant, with the fields and the files its laws
  ask for. */
  ghost predicate Meets(env: Env, w: Watcher, ev: Event, w': Watcher) {
    Inv(env, w') && Lawful(env, w, ev, w') && FilesLaw(w, ev, w')
  }

  lemma {:induction false} StepMeets(env: Env, w: Watcher, ev: Event)
    requires Inv(env, w) && Injective(env.txid) && StepOk(env, w, ev)
    ensures Meets(env, w, ev, Step(env, w, ev))
  {
    StepKeeps(env, w, ev);
    StepLawful(env, w, ev);
    StepFiles(env, w, ev);
  }
}
