/** Whether a claimed or slashed entry can come back (src/escrow.rs:426-433, 534-603, 606-665).

No step revives an entry it carries on. A reorganisation releases the outpoint of a dead entry, though,
and compaction forgets both; a later block or inference may then track the same output afresh. The last
lemmas say exactly when. */
module EscrowLives {
  import opened Outcomes
  import opened EscrowEntries
  import opened EscrowModel
  import opened EscrowIndexes
  import opened EscrowClaims
  import opened EscrowSteps
  import opened EscrowJournal
  import opened EscrowRuns

  // ---------------------------------------------------------------- entries that are carried on

  /** Every entry a step carries on stays what it was, at its place: same output, same block, and once
  claimed or slashed always so. Outpoints may repeat. */
  lemma {:induction false} StepEvolves(env: Env, w: Watcher, ev: Event)
    requires Inv(env, w) && StepOk(env, w, ev)
    ensures var s, es := Survivors(w, ev), Step(env, w, ev).entries;
      |s| <= |es| && forall i | 0 <= i < |s| :: Evolves(s[i], es[i])
  {
    var s, es := Survivors(w, ev), Step(env, w, ev).entries;
    if ev.Response? {
      var m := Matched(w, ev.responseTxid, ev.error, ev.pick);
      if m.Some? {
        var inputs := w.inFlight[m.value].inputs;
        SameIndexesCoherent(w, Unclaim(w, m.value));
        AnswerAllCoherent(Unclaim(w, m.value), inputs, |inputs|, VerdictOf(ev.error));
        FlushFrame(OnSubmitResponse(w, ev.responseTxid, ev.error, ev.pick), ev.clock);
      }
    } else {
      StepQuiet(env, w, ev);
      forall i | 0 <= i < |s| ensures Evolves(s[i], es[i]) {
        assert Quiet(s[i], es[..|s|][i]);
      }
    }
  }

  /** What a step makes of the one entry of an output it carries on. */
  lemma {:induction false} OutputEvolves(env: Env, w: Watcher, ev: Event, o: Outpoint)
    requires Inv(env, w) && StepOk(env, w, ev)
    requires DistinctOutpoints(w.entries) && DistinctOutpoints(Step(env, w, ev).entries)
    requires FindEntry(Survivors(w, ev), o).Some?
    ensures FindEntry(w.entries, o) == FindEntry(Survivors(w, ev), o)
    ensures FindEntry(Step(env, w, ev).entries, o).Some?
    ensures Evolves(FindEntry(w.entries, o).value, FindEntry(Step(env, w, ev).entries, o).value)
  {
    var s, es := Survivors(w, ev), Step(env, w, ev).entries;
    StepEvolves(env, w, ev);
    var i := FirstMatch(s, o).value;
    assert Evolves(s[i], es[i]);
    FoundAt(es, i);
    StepOrigin(env, w, ev, o);
  }

  /** Output `o` is in the list from the start of the run and no compaction along it drops it. */
  ghost predicate CarriedAlong(env: Env, w: Watcher, evs: seq<Event>, o: Outpoint)
    requires Runs(env, w, evs)
    decreases |evs|
  {
    if evs == [] then FindEntry(w.entries, o).Some?
    else
      var n := |evs| - 1;
      CarriedAlong(env, w, evs[..n], o) && FindEntry(Survivors(After(env, w, evs[..n]), evs[n]), o).Some?
  }

  /** Claimed and slashed never revert along a run, from whatever state it starts, that carries the entry
  on. */
  lemma {:induction false} RunEvolves(env: Env, w: Watcher, evs: seq<Event>, o: Outpoint)
    requires Inv(env, w) && Injective(env.txid) && Runs(env, w, evs) && DistinctRun(env, w, evs)
    requires CarriedAlong(env, w, evs, o)
    ensures FindEntry(w.entries, o).Some? && FindEntry(After(env, w, evs).entries, o).Some?
    ensures Evolves(FindEntry(w.entries, o).value, FindEntry(After(env, w, evs).entries, o).value)
    decreases |evs|
  {
    if evs != [] {
      RunEvolves(env, w, evs[..|evs| - 1], o);
      LastStepCarries(env, w, evs, o, FindEntry(w.entries, o).value);
    }
  }

  lemma {:induction false} LastStepCarries(env: Env, w: Watcher, evs: seq<Event>, o: Outpoint, before: Entry)
    requires Inv(env, w) && Injective(env.txid) && evs != [] && Runs(env, w, evs) && DistinctRun(env, w, evs)
    requires var w1, ev := After(env, w, evs[..|evs| - 1]), evs[|evs| - 1];
      && FindEntry(Survivors(w1, ev), o).Some?
      && FindEntry(w1.entries, o).Some? && Evolves(before, FindEntry(w1.entries, o).value)
    ensures FindEntry(After(env, w, evs).entries, o).Some?
    ensures Evolves(before, FindEntry(After(env, w, evs).entries, o).value)
  {
    var n := |evs| - 1;
    RunKeeps(env, w, evs[..n]);
    CarriedOn(env, After(env, w, evs[..n]), evs[n], o, before);
  }

  lemma {:induction false} CarriedOn(env: Env, w: Watcher, ev: Event, o: Outpoint, before: Entry)
    requires Inv(env, w) && StepOk(env, w, ev)
    requires DistinctOutpoints(w.entries) && DistinctOutpoints(Step(env, w, ev).entries)
    requires FindEntry(Survivors(w, ev), o).Some?
    requires FindEntry(w.entries, o).Some? && Evolves(before, FindEntry(w.entries, o).value)
    ensures FindEntry(Step(env, w, ev).entries, o).Some?
    ensures Evolves(before, FindEntry(Step(env, w, ev).entries, o).value)
  {
    OutputEvolves(env, w, ev, o);
  }

  // ---------------------------------------------------------------- entries that come back

  /** The next block compacts the list. */
  predicate CompactionDue(w: Watcher) {
    w.blocksSinceCompact + 1 >= COMPACT_EVERY_BLOCKS
  }

  /** The block is on the selected chain and its coinbase pays output `o` to our escrow script. */
  predicate Pays(b: Block, o: Outpoint) {
    && b.isChain && b.coinbase.Some?
    && var cb := b.coinbase.value;
      o.0 == cb.txid && o.1 < |cb.outputs| && cb.outputs[o.1].window.Some?
  }

  /** Some live entry is of output `o`. */
  ghost predicate LiveIn(es: seq<Entry>, o: Outpoint) {
    exists i :: 0 <= i < |es| && es[i].Live() && es[i].Outpoint() == o
  }

  /** The next block drops a dead entry and rebuilds the tracked outpoints from the live ones. */
  predicate Rebuilds(w: Watcher) {
    CompactionDue(w) && exists e :: e in w.entries && !e.Live()
  }

  /** The event tracks `o`, an output without a live entry: it is paid or named, and its outpoint is not
  tracked or about to be forgotten. */
  predicate Tracks(w: Watcher, ev: Event, o: Outpoint) {
    match ev
    case BlockSeen(b, _, _, _) => Pays(b, o) && (o !in w.tracked || Rebuilds(w))
    case Inference(txid, _, amount, _) => o == (txid, 1) && amount != 0 && o !in w.tracked
    case _ => false
  }

  lemma {:induction false} PurgeIndicesTracked(w: Watcher, indices: seq<nat>, how: Purge)
    requires how != Reorg
    ensures PurgeIndices(w, indices, how).tracked == w.tracked
    decreases |indices|
  {
    if indices != [] {
      PurgeIndicesTracked(PurgeEntry(w, indices[0], how), indices[1..], how);
    }
  }

  lemma {:induction false} PurgeBlocksTracked(w: Watcher, hashes: seq<string>, how: Purge)
    requires how != Reorg
    ensures PurgeBlocks(w, hashes, how).tracked == w.tracked
    decreases |hashes|
  {
    if hashes != [] {
      if hashes[0] in w.blockIndex {
        PurgeIndicesTracked(w, w.blockIndex[hashes[0]], how);
      }
      PurgeBlocksTracked(PurgeBlock(w, hashes[0], how), hashes[1..], how);
    }
  }

  lemma {:induction false} LivingAll(es: seq<Entry>)
    requires forall e | e in es :: e.Live()
    ensures Living(es) == es
    decreases |es|
  {
    if es != [] {
      LivingAll(es[..|es| - 1]);
    }
  }

  /** What compaction leaves of the tracked outpoints of outputs nobody has live. */
  lemma {:induction false} PrunedTracked(w: Watcher, b: Block, o: Outpoint)
    requires !LiveIn(w.entries, o)
    ensures o !in Pruned(w, b).tracked <==> o !in w.tracked || Rebuilds(w)
  {
    LivingKeeps(w.entries);
    if !Rebuilds(w) && CompactionDue(w) {
      LivingAll(w.entries);
    }
    forall e | e in Living(w.entries) ensures e.Outpoint() != o {
      var i :| 0 <= i < |w.entries| && w.entries[i] == e;
    }
  }

  /** The list a block leaves: what it carried on, then the outputs it tracked. */
  lemma {:induction false} BlockTracks(env: Env, w: Watcher, ev: Event)
    requires StepOk(env, w, ev) && ev.BlockSeen?
    ensures var w2, w4, es := Pruned(w, ev.b), BeforeClaim(w, ev.b), Step(env, w, ev).entries;
      && |w2.entries| <= |w4.entries| == |es|
      && (forall i | 0 <= i < |es| ::
            es[i].Outpoint() == w4.entries[i].Outpoint() && (es[i].Live() <==> w4.entries[i].Live()))
      && (forall i | 0 <= i < |w2.entries| :: w4.entries[i].Outpoint() == w2.entries[i].Outpoint())
      && (!(ev.b.isChain && ev.b.coinbase.Some?) ==> |w4.entries| == |w2.entries|)
  {
    BeforeClaimLists(w, ev.b);
    FindClaimLists(BeforeClaim(w, ev.b), ev.b.daa, ev.batch, ev.built);
    FlushFrame(FindClaim(BeforeClaim(w, ev.b), ev.b.daa, ev.batch, ev.built), ev.clock);
  }

  lemma {:induction false} FindClaimLists(w: Watcher, daa: nat, batch: seq<nat>, built: Option<string>)
    requires MayClaim(w) ==> InRange(Heal(w, daa, 0), batch)
    ensures var es := FindClaim(w, daa, batch, built).entries;
      && |es| == |w.entries|
      && forall i | 0 <= i < |es| ::
        es[i].Outpoint() == w.entries[i].Outpoint() && (es[i].Live() <==> w.entries[i].Live())
  {
    HealCoherent(w, daa, 0);
    forall i | 0 <= i < |w.entries|
      ensures var e := HealEntry(w.entries[i], daa);
        e.Outpoint() == w.entries[i].Outpoint() && (e.Live() <==> w.entries[i].Live())
    {
      HealEvolves(w.entries[i], daa);
    }
  }

  lemma {:induction false} BeforeClaimLists(w: Watcher, b: Block)
    ensures var w2, w4 := Pruned(w, b), BeforeClaim(w, b);
      && |w2.entries| <= |w4.entries|
      && (forall i | 0 <= i < |w2.entries| :: w4.entries[i].Outpoint() == w2.entries[i].Outpoint())
      && (!(b.isChain && b.coinbase.Some?) ==> |w4.entries| == |w2.entries|)
  {
    var w2 := Pruned(w, b);
    PurgeBlocksQuiet(w2, b.reds, Red);
    var w3 := PurgeBlocks(w2, b.reds, Red);
    assert forall i | 0 <= i < |w2.entries| :: Quiet(w2.entries[i], w3.entries[i]);
    if b.isChain && b.coinbase.Some? {
      TrackOutputsExact(w3, b.coinbase.value, b.hash, b.daa, 0);
    }
  }

  /** The outputs a block adds behind the carried-on list are those it pays and has not tracked. */
  lemma {:induction false} NewOutputs(env: Env, w: Watcher, ev: Event, o: Outpoint)
    requires StepOk(env, w, ev) && ev.BlockSeen?
    ensures var n, es := |Pruned(w, ev.b).entries|, Step(env, w, ev).entries;
      && n <= |es|
      && ((exists i :: n <= i < |es| && es[i].Outpoint() == o) <==> Pays(ev.b, o) && o !in Pruned(w, ev.b).tracked)
      && forall i | n <= i < |es| :: es[i].Live()
  {
    var b, w2, w4, es := ev.b, Pruned(w, ev.b), BeforeClaim(w, ev.b), Step(env, w, ev).entries;
    BlockTracks(env, w, ev);
    PurgeBlocksQuiet(w2, b.reds, Red);
    PurgeBlocksTracked(w2, b.reds, Red);
    var w3 := PurgeBlocks(w2, b.reds, Red);
    if b.isChain && b.coinbase.Some? {
      var cb := b.coinbase.value;
      TrackOutputsExact(w3, cb, b.hash, b.daa, 0);
      forall i | |w2.entries| <= i < |es|
        ensures es[i].Live() && Pays(b, es[i].Outpoint()) && es[i].Outpoint() !in w2.tracked {
        assert NewlyTracked(w3, w4.entries[i], cb, b.hash, b.daa, 0);
      }
      if Pays(b, o) && o !in w2.tracked {
        assert Trackable(w3, cb, o.1);
        var i :| |w3.entries| <= i < |w4.entries| && w4.entries[i].outputIndex == o.1;
        assert NewlyTracked(w3, w4.entries[i], cb, b.hash, b.daa, 0);
        assert es[i].Outpoint() == o;
      }
    }
  }

  /** Only blocks and inferences add to the list. */
  lemma {:induction false} OthersAddNothing(env: Env, w: Watcher, ev: Event)
    requires Inv(env, w) && StepOk(env, w, ev) && !ev.BlockSeen? && !ev.Inference?
    ensures |Step(env, w, ev).entries| == |w.entries|
  {
    match ev
    case Response(t, error, pick, clock) =>
      if w.entries == [] {
        EmptyStaysEmpty(env, w, ev);
      } else {
        ResponseAt(env, w, ev, 0);
      }
    case ChainRemoved(hashes, clock) =>
      PurgeBlocksQuiet(w, hashes, Reorg);
      FlushFrame(PurgeBlocks(w, hashes, Reorg), clock);
    case Validated(h, onChain, clock) =>
      ValidatedQuiet(w, h, onChain);
      FlushFrame(OnBlockValidated(w, h, onChain), clock);
    case Unknown(h, clock) => FlushFrame(OnBlockUnknown(w, h), clock);
    case ValidationStarted =>
    case Shutdown(outcome) => FlushFrame(w, ClockOf(ev));
  }

  /** A live entry after a step is a live one carried on, or new. */
  lemma {:induction false} LiveOrNew(env: Env, w: Watcher, ev: Event, o: Outpoint)
    requires Inv(env, w) && StepOk(env, w, ev) && !LiveIn(w.entries, o)
    ensures var n, es := |Survivors(w, ev)|, Step(env, w, ev).entries;
      n <= |es| && forall i | 0 <= i < n && es[i].Outpoint() == o :: !es[i].Live()
  {
    var s, es := Survivors(w, ev), Step(env, w, ev).entries;
    StepEvolves(env, w, ev);
    SurvivorsAreEntries(w, ev);
    forall i | 0 <= i < |s| && es[i].Outpoint() == o ensures !es[i].Live() {
      assert Evolves(s[i], es[i]) && s[i] in w.entries;
      var j :| 0 <= j < |w.entries| && w.entries[j] == s[i];
    }
  }

  /** Exactly when an output without a live entry, whether dead or absent, is live after a step: when the
  step tracks it. Outpoints may repeat. */
  lemma {:induction false} ComesBackIff(env: Env, w: Watcher, ev: Event, o: Outpoint)
    requires Inv(env, w) && StepOk(env, w, ev) && !LiveIn(w.entries, o)
    ensures LiveIn(Step(env, w, ev).entries, o) <==> Tracks(w, ev, o)
  {
    var es := Step(env, w, ev).entries;
    LiveOrNew(env, w, ev, o);
    if ev.BlockSeen? {
      NewOutputs(env, w, ev, o);
      PrunedTracked(w, ev.b, o);
    } else if ev.Inference? {
      FlushFrame(TrackInference(w, ev.txid, ev.daa, ev.amount), ev.clock);
      if Tracks(w, ev, o) {
        assert es[|w.entries|].Outpoint() == o;
      }
    } else {
      OthersAddNothing(env, w, ev);
    }
  }

  /** Over every run: an output without a live entry is live at some point if and only if some step tracks
  it. So claimed and slashed never revert exactly along the runs that never track the output again. */
  lemma {:induction false} DeadUntilTracked(env: Env, w: Watcher, evs: seq<Event>, o: Outpoint)
    requires Inv(env, w) && Injective(env.txid) && Runs(env, w, evs) && !LiveIn(w.entries, o)
    ensures (exists k :: 0 <= k <= |evs| && LiveIn(StateAt(env, w, evs, k).entries, o))
      <==> (exists k :: 0 <= k < |evs| && Tracks(StateAt(env, w, evs, k), evs[k], o))
  {
    if k :| 0 <= k <= |evs| && LiveIn(StateAt(env, w, evs, k).entries, o) {
      var j := FirstTracked(env, w, evs, o, k);
    }
    if k :| 0 <= k < |evs| && Tracks(StateAt(env, w, evs, k), evs[k], o) {
      PrefixRuns(env, w, evs, k);
      RunKeeps(env, w, evs[..k]);
      StateAfter(env, w, evs, k);
      if !LiveIn(StateAt(env, w, evs, k).entries, o) {
        ComesBackIff(env, StateAt(env, w, evs, k), evs[k], o);
      }
    }
  }

  lemma {:induction false} FirstTracked(env: Env, w: Watcher, evs: seq<Event>, o: Outpoint, k: nat) returns (j: nat)
    requires Inv(env, w) && Injective(env.txid) && Runs(env, w, evs) && !LiveIn(w.entries, o)
    requires k <= |evs| && LiveIn(StateAt(env, w, evs, k).entries, o)
    ensures j < k && Tracks(StateAt(env, w, evs, j), evs[j], o)
  {
    assert k > 0 by {
      assert evs[..0] == [];
    }
    j := k - 1;
    if LiveIn(StateAt(env, w, evs, j).entries, o) {
      j := FirstTracked(env, w, evs, o, j);
    } else {
      PrefixRuns(env, w, evs, j);
      RunKeeps(env, w, evs[..j]);
      StateAfter(env, w, evs, j);
      ComesBackIff(env, StateAt(env, w, evs, j), evs[j], o);
    }
  }

  // ---------------------------------------------------------------- a run that gets there

  /** A block of no interest to the watcher. */
  function Idle(): Event {
    BlockSeen(Block(0, "g", [], true, None), [], None, NO_FLUSH)
  }

  function IdleBlocks(n: nat): seq<Event> {
    seq(n, _ => Idle())
  }

  /** A claimed entry with nothing to heal. */
  predicate Done(e: Entry) {
    e.claimed && e.batchCap == 0 && !e.orphanSlashed
  }

  /** The watcher after a compaction that left nothing. */
  function Emptied(w: Watcher): Watcher {
    w.(entries := [], tracked := {}, blockIndex := map[], snapshotDue := true, blocksSinceCompact := 0)
  }

  /** One claimed entry, nothing unanswered, nothing to write. */
  predicate Resting(w: Watcher, e: Entry) {
    && w.entries == [e] && Done(e) && w.inFlight == map[] && w.busy == {} && w.lastDaa == 0 && w.pending == []
    && w.validationPending == {} && !w.snapshotDue
  }

  /** The resting watcher after one more idle block. */
  function Rested(w: Watcher): Watcher {
    if CompactionDue(w) then Emptied(w) else w.(blocksSinceCompact := w.blocksSinceCompact + 1)
  }

  lemma {:induction false} IdleBefore(w: Watcher, e: Entry)
    requires Resting(w, e)
    ensures BeforeClaim(w, Idle().b) == Rested(w)
  {
    NoClaimsExpire(w, 0);
    assert Living([e]) == [] by {
      assert [e][..0] == [];
    }
    assert OutpointsOf([]) == {};
  }

  lemma {:induction false} IdleStep(env: Env, w: Watcher, e: Entry)
    requires Resting(w, e)
    ensures StepOk(env, w, Idle())
    ensures Step(env, w, Idle()) == Rested(w)
  {
    IdleBefore(w, e);
    HealNothing(Rested(w), 0, 0);
    NothingMature(Rested(w), env.gate, 0);
  }

  lemma {:induction false} IdleRun(env: Env, w: Watcher, e: Entry, n: nat)
    requires Resting(w, e) && w.blocksSinceCompact == 0 && n <= COMPACT_EVERY_BLOCKS
    ensures Runs(env, w, IdleBlocks(n))
    ensures After(env, w, IdleBlocks(n))
      == if n == COMPACT_EVERY_BLOCKS then Emptied(w) else w.(blocksSinceCompact := n)
  {
    if n > 0 {
      IdleRun(env, w, e, n - 1);
      var w1 := w.(blocksSinceCompact := n - 1);
      assert After(env, w, IdleBlocks(n - 1)) == w1;
      assert IdleBlocks(n) == IdleBlocks(n - 1) + [Idle()];
      IdleStep(env, w1, e);
      RunSnoc(env, w, IdleBlocks(n - 1), Idle());
      assert Emptied(w1) == Emptied(w);
    }
  }

  /** With an empty list nothing a block brings is old enough to be claimed. */
  lemma {:induction false} FirstBlockOk(env: Env, w: Watcher, b: Block)
    requires w.entries == [] && w.blocksSinceCompact == 0
    ensures StepOk(env, w, BlockSeen(b, [], None, NO_FLUSH))
  {
    var w1 := BeforeClaim(w, b);
    var w3 := PurgeBlocks(Pruned(w, b), b.reds, Red);
    PurgeBlocksQuiet(Pruned(w, b), b.reds, Red);
    if b.isChain && b.coinbase.Some? {
      TrackOutputsExact(w3, b.coinbase.value, b.hash, b.daa, 0);
      assert forall i | 0 <= i < |w1.entries| :: NewlyTracked(w3, w1.entries[i], b.coinbase.value, b.hash, b.daa, 0);
    }
    HealNothing(w1, b.daa, 0);
    NothingMature(w1, env.gate, b.daa);
  }

  /** A claimed output comes back: two thousand blocks that pay nothing compact its entry away, and the
  block or inference after them, which compacts nothing, tracks it as live. */
  lemma {:induction false} ClaimedComesBack(env: Env, e: Entry, s: nat, disk: Disk, ev: Event)
    requires Done(e) && LiveLast(disk.snapshot)
    requires ev.Inference? || (ev.BlockSeen? && ev == BlockSeen(ev.b, [], None, NO_FLUSH))
    requires if ev.Inference? then e.Outpoint() == (ev.txid, 1) && ev.amount != 0 else Pays(ev.b, e.Outpoint())
    ensures var w, evs := Loaded([e], s, disk), IdleBlocks(COMPACT_EVERY_BLOCKS) + [ev];
      && Runs(env, w, evs)
      && !LiveIn(w.entries, e.Outpoint()) && LiveIn(After(env, w, evs).entries, e.Outpoint())
  {
    var w, idle := Loaded([e], s, disk), IdleBlocks(COMPACT_EVERY_BLOCKS);
    IdleRun(env, w, e, COMPACT_EVERY_BLOCKS);
    TrackedAfresh(env, w, e.Outpoint(), ev);
    RunSnoc(env, w, idle, ev);
  }

  lemma {:induction false} TrackedAfresh(env: Env, w: Watcher, o: Outpoint, ev: Event)
    requires w.inFlight == map[] && w.busy == {} && LiveLast(w.disk.snapshot)
    requires ev.Inference? || (ev.BlockSeen? && ev == BlockSeen(ev.b, [], None, NO_FLUSH))
    requires if ev.Inference? then o == (ev.txid, 1) && ev.amount != 0 else Pays(ev.b, o)
    ensures StepOk(env, Emptied(w), ev) && LiveIn(Step(env, Emptied(w), ev).entries, o)
  {
    var w1 := Emptied(w);
    EmptiedInv(env, w, w1);
    if ev.BlockSeen? {
      FirstBlockOk(env, w1, ev.b);
    }
    ComesBackIff(env, w1, ev, o);
  }

  lemma {:induction false} EmptiedInv(env: Env, w: Watcher, w1: Watcher)
    requires w1 == Emptied(w) && w.inFlight == map[] && w.busy == {} && LiveLast(w.disk.snapshot)
    ensures Inv(env, w1)
  {
    assert AllOutpoints(map[]) == {};
  }
}
