/** Events of the escrow machine and what every run keeps. */
module EscrowSteps {
  import opened Outcomes
  import opened EscrowEntries
  import opened EscrowModel
  import opened EscrowIndexes
  import opened EscrowClaims

  /** One call into the watcher. A seen block carries the batch the selection chose and the txid its
  claim was built with; both are constrained by `StepOk`. */
  datatype Event =
    | BlockSeen(b: Block, batch: seq<nat>, built: Option<string>, clock: Clock)
    | Inference(txid: string, daa: nat, amount: nat, clock: Clock)
    | Response(responseTxid: string, error: Option<Rejection>, pick: string, clock: Clock)
    | ChainRemoved(hashes: seq<string>, clock: Clock)
    | ValidationStarted
    | Validated(hash: string, onChain: bool, clock: Clock)
    | Unknown(hash: string, clock: Clock)
    | Shutdown(outcome: WriteOutcome)

  /** Gate and txid function: fixed for the life of a watcher. */
  datatype Env = Env(gate: nat, txid: TxidOf)

  /** The batch is one the selection may return, and the built claim has that batch's txid. */
  ghost predicate StepOk(env: Env, w: Watcher, ev: Event) {
    ev.BlockSeen? ==>
      var w1 := BeforeClaim(w, ev.b);
      MayClaim(w1) ==>
        var healed := Heal(w1, ev.b.daa, 0);
        && GoodBatch(SelectionView(healed, env.gate, ev.b.daa), ev.batch)
        && InRange(healed, ev.batch)
        && (ev.built.Some? && ev.batch != [] ==> ev.built.value == env.txid(Inputs(healed, ev.batch)))
  }

  predicate InRange(w: Watcher, batch: seq<nat>) {
    forall a | 0 <= a < |batch| :: batch[a] < |w.entries|
  }

  ghost function Step(env: Env, w: Watcher, ev: Event): Watcher
    requires StepOk(env, w, ev)
  {
    match ev
    case BlockSeen(b, batch, built, clock) => MaybeFlush(FindClaim(BeforeClaim(w, b), b.daa, batch, built), clock)
    case Inference(txid, daa, amount, clock) =>
      var w1 := TrackInference(w, txid, daa, amount);
      if w1 == w then w else MaybeFlush(w1, clock)
    case Response(t, error, pick, clock) =>
      if Matched(w, t, error, pick).None? then w else MaybeFlush(OnSubmitResponse(w, t, error, pick), clock)
    case ChainRemoved(hashes, clock) =>
      var w1 := PurgeBlocks(w, hashes, Reorg);
      if w1.journalSeq == w.journalSeq then w1 else MaybeFlush(w1, clock)
    case ValidationStarted => StartValidation(w)
    case Validated(h, onChain, clock) =>
      var w1 := OnBlockValidated(w, h, onChain);
      if h in w.validationPending && w1.validationPending == {} then MaybeFlush(w1, clock) else w1
    case Unknown(h, clock) =>
      var w1 := OnBlockUnknown(w, h);
      if h in w.validationPending && w1.validationPending == {} then MaybeFlush(w1, clock) else w1
    case Shutdown(outcome) => FlushState(w, outcome)
  }

  /** The flush decision an event carries; a shutdown insists on a snapshot. */
  function ClockOf(ev: Event): Clock {
    match ev
    case ValidationStarted => Clock(false, false, false, Failed)
    case Shutdown(outcome) => Clock(true, false, false, outcome)
    case _ => ev.clock
  }

  /** The part of the state that claims and persistence live in. */
  ghost predicate SameBooks(w: Watcher, w': Watcher) {
    w'.inFlight == w.inFlight && w'.busy == w.busy
  }

  lemma {:induction false} FlushFrame(w: Watcher, c: Clock)
    ensures var w' := MaybeFlush(w, c);
      SameBooks(w, w') && w'.entries == w.entries && w'.tracked == w.tracked && w'.blockIndex == w.blockIndex
      && w'.validationPending == w.validationPending && w'.lastDaa == w.lastDaa && w'.journalSeq == w.journalSeq
      && w'.blocksSinceCompact == w.blocksSinceCompact
      && (w'.disk.snapshot == w.disk.snapshot || w'.disk.snapshot == w.entries)
  {
  }

  lemma {:induction false} PurgeIndicesFrame(w: Watcher, indices: seq<nat>, how: Purge)
    ensures SameBooks(w, PurgeIndices(w, indices, how)) && PurgeIndices(w, indices, how).lastDaa == w.lastDaa
    ensures PurgeIndices(w, indices, how).blocksSinceCompact == w.blocksSinceCompact
    ensures PurgeIndices(w, indices, how).validationPending == w.validationPending
      && PurgeIndices(w, indices, how).disk == w.disk
    decreases |indices|
  {
    if indices != [] {
      PurgeIndicesFrame(PurgeEntry(w, indices[0], how), indices[1..], how);
    }
  }

  lemma {:induction false} PurgeBlocksFrame(w: Watcher, hashes: seq<string>, how: Purge)
    ensures SameBooks(w, PurgeBlocks(w, hashes, how)) && PurgeBlocks(w, hashes, how).lastDaa == w.lastDaa
    ensures PurgeBlocks(w, hashes, how).blocksSinceCompact == w.blocksSinceCompact
    ensures PurgeBlocks(w, hashes, how).validationPending == w.validationPending
      && PurgeBlocks(w, hashes, how).disk == w.disk
    decreases |hashes|
  {
    if hashes != [] {
      if hashes[0] in w.blockIndex {
        PurgeIndicesFrame(w, w.blockIndex[hashes[0]], how);
      }
      PurgeBlocksFrame(PurgeBlock(w, hashes[0], how), hashes[1..], how);
    }
  }

  lemma {:induction false} TrackOutputsFrame(w: Watcher, cb: Coinbase, hash: string, daa: nat, k: nat)
    requires k <= |cb.outputs|
    ensures SameBooks(w, TrackOutputs(w, cb, hash, daa, k)) && TrackOutputs(w, cb, hash, daa, k).lastDaa == w.lastDaa
    ensures TrackOutputs(w, cb, hash, daa, k).blocksSinceCompact == w.blocksSinceCompact
    ensures TrackOutputs(w, cb, hash, daa, k).validationPending == w.validationPending
      && TrackOutputs(w, cb, hash, daa, k).disk == w.disk
    decreases |cb.outputs| - k
  {
    if k < |cb.outputs| {
      TrackOutputsFrame(TrackOutput(w, cb, hash, daa, k), cb, hash, daa, k + 1);
    }
  }

  lemma {:induction false} AnswerAllFrame(w: Watcher, inputs: seq<Entry>, n: nat, v: Verdict)
    ensures SameBooks(w, AnswerAll(w, inputs, n, v)) && AnswerAll(w, inputs, n, v).lastDaa == w.lastDaa
    ensures AnswerAll(w, inputs, n, v).tracked == w.tracked
    ensures AnswerAll(w, inputs, n, v).blocksSinceCompact == w.blocksSinceCompact
    ensures AnswerAll(w, inputs, n, v).validationPending == w.validationPending
      && AnswerAll(w, inputs, n, v).disk == w.disk
    decreases |inputs|
  {
    if inputs != [] {
      match FirstMatch(w.entries, inputs[0].Outpoint())
      case None => AnswerAllFrame(w, inputs[1..], n, v);
      case Some(i) => AnswerAllFrame(Put(w, i, AnswerEntry(w.entries[i], n, v, w.lastDaa)), inputs[1..], n, v);
    }
  }

  // ---------------------------------------------------------------- one step

  /** Coherent indexes, straight books, and a snapshot that can be loaded back. */
  ghost predicate Inv(env: Env, w: Watcher) {
    Coherent(w) && InFlightOk(w, env.txid) && LiveLast(w.disk.snapshot)
  }

  lemma {:induction false} SameIndexesCoherent(w: Watcher, w': Watcher)
    requires Coherent(w) && w'.entries == w.entries && w'.tracked == w.tracked && w'.blockIndex == w.blockIndex
    ensures Coherent(w')
  {
    EvolvedCoherent(w, w');
  }

  /** Compaction or the counter: what a block does to the list before it looks at anything. */
  function Pruned(w: Watcher, b: Block): Watcher {
    var w1 := ExpireInFlight(w.(lastDaa := b.daa), b.daa);
    if w1.blocksSinceCompact + 1 >= COMPACT_EVERY_BLOCKS then Compact(w1.(blocksSinceCompact := 0))
    else w1.(blocksSinceCompact := w1.blocksSinceCompact + 1)
  }

  lemma {:induction false} PrunedKeeps(env: Env, w: Watcher, b: Block)
    requires Inv(env, w)
    ensures Inv(env, Pruned(w, b))
  {
    var w0 := w.(lastDaa := b.daa);
    SameIndexesCoherent(w, w0);
    ExpireOk(w0, b.daa, env.txid);
    var w1 := ExpireInFlight(w0, b.daa);
    SameIndexesCoherent(w0, w1);
    SameIndexesCoherent(w1, w1.(blocksSinceCompact := 0));
    SameIndexesCoherent(w1, w1.(blocksSinceCompact := w1.blocksSinceCompact + 1));
    CompactCoherent(w1.(blocksSinceCompact := 0));
  }

  lemma {:induction false} BeforeClaimKeeps(env: Env, w: Watcher, b: Block)
    requires Inv(env, w)
    ensures Inv(env, BeforeClaim(w, b))
  {
    PrunedKeeps(env, w, b);
    var w2 := Pruned(w, b);
    PurgeBlocksCoherent(w2, b.reds, Red);
    PurgeBlocksFrame(w2, b.reds, Red);
    var w3 := PurgeBlocks(w2, b.reds, Red);
    if b.isChain && b.coinbase.Some? {
      TrackOutputsCoherent(w3, b.coinbase.value, b.hash, b.daa, 0);
      TrackOutputsFrame(w3, b.coinbase.value, b.hash, b.daa, 0);
    }
  }

  lemma {:induction false} FindClaimKeeps(env: Env, w: Watcher, daa: nat, batch: seq<nat>, built: Option<string>)
    requires Inv(env, w) && Injective(env.txid)
    requires MayClaim(w) ==>
      var healed := Heal(w, daa, 0);
      && GoodBatch(SelectionView(healed, env.gate, daa), batch) && InRange(healed, batch)
      && (built.Some? && batch != [] ==> built.value == env.txid(Inputs(healed, batch)))
    ensures Inv(env, FindClaim(w, daa, batch, built))
  {
    if MayClaim(w) {
      HealCoherent(w, daa, 0);
      var healed := Heal(w, daa, 0);
      if batch != [] && built.Some? {
        BatchInputs(healed, SelectionView(healed, env.gate, daa), batch);
        AddClaimOk(healed, Inputs(healed, batch), daa, env.txid);
        SameIndexesCoherent(healed, AddClaim(healed, built.value, Inputs(healed, batch), daa));
      }
    }
  }

  lemma {:induction false} ResponseKeeps(env: Env, w: Watcher, t: string, error: Option<Rejection>, pick: string)
    requires Inv(env, w)
    ensures Inv(env, OnSubmitResponse(w, t, error, pick))
  {
    var m := Matched(w, t, error, pick);
    if m.Some? {
      var inputs, w1 := w.inFlight[m.value].inputs, Unclaim(w, m.value);
      UnclaimOk(w, m.value, env.txid);
      SameIndexesCoherent(w, w1);
      AnswerAllCoherent(w1, inputs, |inputs|, VerdictOf(error));
      AnswerAllFrame(w1, inputs, |inputs|, VerdictOf(error));
    }
  }

  lemma {:induction false} FlushKeeps(env: Env, w: Watcher, c: Clock)
    requires Inv(env, w)
    ensures Inv(env, MaybeFlush(w, c))
  {
    FlushFrame(w, c);
    SameIndexesCoherent(w, MaybeFlush(w, c));
  }

  lemma {:induction false} ValidatedKeeps(env: Env, w: Watcher, h: string, onChain: bool)
    requires Inv(env, w)
    ensures Inv(env, OnBlockValidated(w, h, onChain))
  {
    var w1 := w.(validationPending := w.validationPending - {h});
    SameIndexesCoherent(w, w1);
    PurgeBlockCoherent(w1, h, Ghost);
    if h in w1.blockIndex {
      PurgeIndicesFrame(w1, w1.blockIndex[h], Ghost);
    }
  }

  lemma {:induction false} BlockKeeps(env: Env, w: Watcher, b: Block, batch: seq<nat>, built: Option<string>,
      clock: Clock)
    requires var ev := BlockSeen(b, batch, built, clock);
      Inv(env, w) && Injective(env.txid) && StepOk(env, w, ev)
    ensures Inv(env, Step(env, w, BlockSeen(b, batch, built, clock)))
  {
    BeforeClaimKeeps(env, w, b);
    FindClaimKeeps(env, BeforeClaim(w, b), b.daa, batch, built);
    FlushKeeps(env, FindClaim(BeforeClaim(w, b), b.daa, batch, built), clock);
  }

  lemma {:induction false} StepKeeps(env: Env, w: Watcher, ev: Event)
    requires Inv(env, w) && Injective(env.txid) && StepOk(env, w, ev)
    ensures Inv(env, Step(env, w, ev))
  {
    match ev
    case BlockSeen(b, batch, built, clock) => BlockKeeps(env, w, b, batch, built, clock);
    case Inference(txid, daa, amount, clock) =>
      TrackInferenceCoherent(w, txid, daa, amount);
      FlushKeeps(env, TrackInference(w, txid, daa, amount), clock);
    case Response(t, error, pick, clock) =>
      ResponseKeeps(env, w, t, error, pick);
      FlushKeeps(env, OnSubmitResponse(w, t, error, pick), clock);
    case ChainRemoved(hashes, clock) =>
      PurgeBlocksCoherent(w, hashes, Reorg);
      PurgeBlocksFrame(w, hashes, Reorg);
      FlushKeeps(env, PurgeBlocks(w, hashes, Reorg), clock);
    case ValidationStarted => SameIndexesCoherent(w, StartValidation(w));
    case Validated(h, onChain, clock) =>
      ValidatedKeeps(env, w, h, onChain);
      FlushKeeps(env, OnBlockValidated(w, h, onChain), clock);
    case Unknown(h, clock) =>
      SameIndexesCoherent(w, OnBlockUnknown(w, h));
      FlushKeeps(env, OnBlockUnknown(w, h), clock);
    case Shutdown(outcome) => FlushKeeps(env, w, ClockOf(ev));
  }

  // ---------------------------------------------------------------- runs

  ghost predicate Runs(env: Env, w: Watcher, evs: seq<Event>)
    decreases |evs|, 0
  {
    evs == [] || (Runs(env, w, evs[..|evs| - 1]) && StepOk(env, After(env, w, evs[..|evs| - 1]), evs[|evs| - 1]))
  }

  ghost function After(env: Env, w: Watcher, evs: seq<Event>): Watcher
    requires Runs(env, w, evs)
    decreases |evs|, 1
  {
    if evs == [] then w
    else Step(env, After(env, w, evs[..|evs| - 1]), evs[|evs| - 1])
  }

  /** Index coherence and in-flight exclusion in every state of every run: every live entry is tracked,
  indexed and the last of its outpoint, index rows are in range and of their own block; at most four
  claims are unanswered, no output is in two of them, and the busy set is their union; and the snapshot
  on disk can be loaded back into such a state. */
  lemma {:induction false} RunKeeps(env: Env, w: Watcher, evs: seq<Event>)
    requires Inv(env, w) && Injective(env.txid) && Runs(env, w, evs)
    ensures Inv(env, After(env, w, evs))
    decreases |evs|
  {
    if evs != [] {
      var n := |evs| - 1;
      RunKeeps(env, w, evs[..n]);
      StepKeeps(env, After(env, w, evs[..n]), evs[n]);
    }
  }

  /** What holds after the first `k` events of a run. */
  lemma {:induction false} PrefixRuns(env: Env, w: Watcher, evs: seq<Event>, k: nat)
    requires Runs(env, w, evs) && k <= |evs|
    ensures Runs(env, w, evs[..k])
    decreases |evs|
  {
    if k == |evs| {
      assert evs[..k] == evs;
    } else {
      PrefixRuns(env, w, evs[..|evs| - 1], k);
      assert evs[..|evs| - 1][..k] == evs[..k];
    }
  }

  ghost function StateAt(env: Env, w: Watcher, evs: seq<Event>, k: nat): Watcher
    requires Runs(env, w, evs) && k <= |evs|
  {
    PrefixRuns(env, w, evs, k);
    After(env, w, evs[..k])
  }

  lemma {:induction false} StateAfter(env: Env, w: Watcher, evs: seq<Event>, k: nat)
    requires Runs(env, w, evs) && k < |evs|
    ensures StepOk(env, StateAt(env, w, evs, k), evs[k])
    ensures StateAt(env, w, evs, k + 1) == Step(env, StateAt(env, w, evs, k), evs[k])
  {
    PrefixRuns(env, w, evs, k + 1);
    assert evs[..k + 1][..k] == evs[..k];
  }

  // ---------------------------------------------------------------- runs that are written out

  const NO_FLUSH: Clock := Clock(false, false, false, Failed)

  /** A run step by step, for runs that are written out. */
  lemma {:induction false} RunSnoc(env: Env, w: Watcher, evs: seq<Event>, ev: Event)
    requires Runs(env, w, evs) && StepOk(env, After(env, w, evs), ev)
    ensures Runs(env, w, evs + [ev]) && After(env, w, evs + [ev]) == Step(env, After(env, w, evs), ev)
  {
    assert (evs + [ev])[..|evs|] == evs;
  }

  lemma {:induction false} PrefixSnoc(env: Env, w: Watcher, evs: seq<Event>, k: nat)
    requires k < |evs| && Runs(env, w, evs[..k]) && StepOk(env, After(env, w, evs[..k]), evs[k])
    ensures Runs(env, w, evs[..k + 1]) && After(env, w, evs[..k + 1]) == Step(env, After(env, w, evs[..k]), evs[k])
  {
    assert evs[..k + 1][..k] == evs[..k];
  }

  /** No entry is old enough to be claimed at score `d`. */
  lemma {:induction false} NothingMature(w: Watcher, gate: nat, d: nat)
    requires forall i | 0 <= i < |w.entries| :: d < w.entries[i].confirmDaa + w.entries[i].csvWindow + MATURITY_MARGIN
    ensures GoodBatch(SelectionView(w, gate, d), [])
  {
    var v := SelectionView(w, gate, d);
    assert Nominal(v, v.currentWindow) == {};
  }

  lemma {:induction false} NoClaimsExpire(w: Watcher, daa: nat)
    requires w.inFlight == map[] && w.busy == {}
    ensures ExpireInFlight(w, daa) == w
  {
    assert ExpiredOutpoints(w.inFlight, daa) == {};
  }

  /** Healing changes the entry. */
  predicate Heals(e: Entry, daa: nat) {
    HealEntry(e, daa) != e
  }

  /** Nothing to heal anywhere. */
  lemma {:induction false} HealNothing(w: Watcher, daa: nat, i: nat)
    requires i <= |w.entries| && forall j | 0 <= j < |w.entries| :: !Heals(w.entries[j], daa)
    ensures Heal(w, daa, i) == w
    decreases |w.entries| - i
  {
    if i < |w.entries| {
      HealNothing(w, daa, i + 1);
    }
  }
}
