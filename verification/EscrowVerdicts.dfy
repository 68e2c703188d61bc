/** What every other event does to the watcher, field by field (src/escrow.rs:712-807, 906-1077, 1175-1211),
and when the files are written (src/escrow.rs:438-485, 1217-1230). As with blocks, nothing goes through the
transitions. */
module EscrowVerdicts {
  import opened Halving
  import opened Outcomes
  import opened EscrowEntries
  import opened EscrowModel
  import opened EscrowIndexes
  import opened EscrowClaims
  import opened EscrowSteps
  import opened EscrowRuns
  import opened EscrowBlocks

  // ---------------------------------------------------------------- responses

  /** No error, or the duplicate error of a claim that had gone through. */
  predicate Paid(error: Option<Rejection>) {
    error.None? || error.value.duplicate
  }

  /** What a rejection is taken for, in this order. */
  datatype Reason = Orphan | SequenceLock | Burn | Unrecognised

  predicate RejectedFor(error: Option<Rejection>, why: Reason) {
    && !Paid(error)
    && var r := error.value;
      match why
      case Orphan => r.orphan
      case SequenceLock => !r.orphan && r.seqLock
      case Burn => !r.orphan && !r.seqLock && r.burned
      case Unrecognised => !r.orphan && !r.seqLock && !r.burned
  }

  /** A batch of `n` is halved: for an orphan, an unknown error, or a burn without a list. */
  predicate Bisects(error: Option<Rejection>, n: nat) {
    && n > 1 && !RejectedFor(error, SequenceLock) && !Paid(error)
    && (RejectedFor(error, Burn) ==> error.value.burnedSet == {})
  }

  /** The output itself is burned: it is on the list, or there is none and it was alone. */
  predicate Burned(e: Entry, error: Option<Rejection>, n: nat) {
    && RejectedFor(error, Burn)
    && if error.value.burnedSet == {} then n == 1 else (Lower(e.txid), e.outputIndex) in error.value.burnedSet
  }

  /** Rejections in a row that nobody recognised, and the pause after them. */
  function Strikes(e: Entry): nat { if e.submitRetries < 255 then e.submitRetries + 1 else 255 }

  function Pause(strikes: nat): nat {
    var doubled := 100 * Pow2(if strikes < 9 then strikes else 9);
    if doubled < 50_000 then doubled else 50_000
  }

  /** An answered entry, field by field. */
  ghost predicate EntryAnswered(e: Entry, e': Entry, n: nat, error: Option<Rejection>, lastDaa: nat) {
    var soloOrphan := n == 1 && RejectedFor(error, Orphan);
    && SameOutput(e, e')
    && (e'.claimed <==> e.claimed || Paid(error))
    && (e'.slashed <==> e.slashed || (soloOrphan && e.orphanRetries >= 9) || Burned(e, error, n))
    && e'.orphanRetries == (if soloOrphan then e.orphanRetries + 1 else e.orphanRetries)
    && (e'.orphanSlashed <==> if soloOrphan then e.orphanRetries < 9 else e.orphanSlashed)
    && e'.batchCap == (if Bisects(error, n) then (if n / 2 < 255 then n / 2 else 255) else e.batchCap)
    && e'.capSetDaa == (if Bisects(error, n) then lastDaa else e.capSetDaa)
    && e'.submitRetries == (if RejectedFor(error, Unrecognised) then Strikes(e) else e.submitRetries)
    && e'.retryAfterDaa == (
      if soloOrphan && e.orphanRetries < 9 then Some(lastDaa + 100)
      else if RejectedFor(error, SequenceLock) then Some(lastDaa + 20)
      else if RejectedFor(error, Unrecognised) then Some(lastDaa + Pause(Strikes(e)))
      else e.retryAfterDaa)
  }

  lemma {:induction false} AcceptedFields(e: Entry, n: nat, error: Option<Rejection>, lastDaa: nat)
    requires Paid(error)
    ensures EntryAnswered(e, AnswerEntry(e, n, VerdictOf(error), lastDaa), n, error, lastDaa)
  {
  }

  lemma {:induction false} OrphanFields(e: Entry, n: nat, error: Option<Rejection>, lastDaa: nat)
    requires n > 0 && RejectedFor(error, Orphan)
    ensures EntryAnswered(e, AnswerEntry(e, n, VerdictOf(error), lastDaa), n, error, lastDaa)
  {
  }

  lemma {:induction false} SequenceLockFields(e: Entry, n: nat, error: Option<Rejection>, lastDaa: nat)
    requires n > 0 && RejectedFor(error, SequenceLock)
    ensures EntryAnswered(e, AnswerEntry(e, n, VerdictOf(error), lastDaa), n, error, lastDaa)
  {
  }

  lemma {:induction false} BurnFields(e: Entry, n: nat, error: Option<Rejection>, lastDaa: nat)
    requires n > 0 && RejectedFor(error, Burn)
    ensures EntryAnswered(e, AnswerEntry(e, n, VerdictOf(error), lastDaa), n, error, lastDaa)
  {
  }

  lemma {:induction false} UnrecognisedFields(e: Entry, n: nat, error: Option<Rejection>, lastDaa: nat)
    requires n > 0 && RejectedFor(error, Unrecognised)
    ensures EntryAnswered(e, AnswerEntry(e, n, VerdictOf(error), lastDaa), n, error, lastDaa)
  {
  }

  lemma {:induction false} AnswerFields(e: Entry, n: nat, error: Option<Rejection>, lastDaa: nat)
    requires n > 0
    ensures EntryAnswered(e, AnswerEntry(e, n, VerdictOf(error), lastDaa), n, error, lastDaa)
  {
    if Paid(error) {
      AcceptedFields(e, n, error, lastDaa);
    } else if RejectedFor(error, Orphan) {
      OrphanFields(e, n, error, lastDaa);
    } else if RejectedFor(error, Unrecognised) {
      UnrecognisedFields(e, n, error, lastDaa);
    } else if RejectedFor(error, SequenceLock) {
      SequenceLockFields(e, n, error, lastDaa);
    } else {
      BurnFields(e, n, error, lastDaa);
    }
  }

  /** The claim with txid `t` is the one this response is about: the response names it, or names no claim and
  its error text does. */
  predicate About(w: Watcher, txid: string, error: Option<Rejection>, t: string) {
    t in w.inFlight && (t == txid || (txid !in w.inFlight && error.Some? && t in error.value.mentions))
  }

  /** Some entry before `i` has its outpoint. */
  predicate HasTwinBefore(es: seq<Entry>, i: nat)
    requires i < |es|
  {
    exists j :: 0 <= j < i && es[j].Outpoint() == es[i].Outpoint()
  }

  /** Exactly the first entry of each outpoint of the claim is answered. */
  ghost predicate EntriesAnswered(es: seq<Entry>, es': seq<Entry>, inputs: seq<Entry>, error: Option<Rejection>,
      lastDaa: nat)
  {
    && |es'| == |es|
    && forall i | 0 <= i < |es| ::
      if !HasTwinBefore(es, i) && exists e :: e in inputs && e.Outpoint() == es[i].Outpoint() then
        EntryAnswered(es[i], es'[i], |inputs|, error, lastDaa)
      else es'[i] == es[i]
  }

  /** A response about nobody's claim changes nothing; one about a claim settles it and nothing else. */
  ghost predicate ResponseLaw(w: Watcher, ev: Event, w': Watcher)
    requires ev.Response?
  {
    if !exists t :: About(w, ev.responseTxid, ev.error, t) && (t == ev.responseTxid || t == ev.pick) then w' == w
    else
      && (exists t ::
            && About(w, ev.responseTxid, ev.error, t) && (t == ev.responseTxid || t == ev.pick)
            && w'.inFlight == w.inFlight - {t}
            && EntriesAnswered(w.entries, w'.entries, w.inFlight[t].inputs, ev.error, w.lastDaa))
      && w'.tracked == w.tracked && w'.lastDaa == w.lastDaa
      && w'.validationPending == w.validationPending && w'.blocksSinceCompact == w.blocksSinceCompact
  }

  lemma {:induction false} MatchedIsAbout(w: Watcher, txid: string, error: Option<Rejection>, pick: string)
    ensures forall t ::
      Matched(w, txid, error, pick) == Some(t) <==> (About(w, txid, error, t) && (t == txid || t == pick))
  {
  }

  lemma {:induction false} AnsweredList(env: Env, w: Watcher, ev: Event)
    requires Inv(env, w) && ev.Response? && Answered(w, ev).Some?
    ensures EntriesAnswered(w.entries, Step(env, w, ev).entries, Answered(w, ev).value, ev.error, w.lastDaa)
  {
    var inputs, es' := Answered(w, ev).value, Step(env, w, ev).entries;
    if w.entries == [] {
      EmptyStaysEmpty(env, w, ev);
    }
    var t := Matched(w, ev.responseTxid, ev.error, ev.pick).value;
    assert ClaimOk(w.inFlight[t], t, env.txid);
    forall i | 0 <= i < |w.entries|
      ensures |es'| == |w.entries|
      ensures if !HasTwinBefore(w.entries, i) && exists e :: e in inputs && e.Outpoint() == w.entries[i].Outpoint() then
          EntryAnswered(w.entries[i], es'[i], |inputs|, ev.error, w.lastDaa)
        else es'[i] == w.entries[i]
    {
      ResponseAt(env, w, ev, i);
      assert First(w.entries, i) <==> !HasTwinBefore(w.entries, i);
      assert w.entries[i].Outpoint() in Outpoints(inputs)
        <==> exists e :: e in inputs && e.Outpoint() == w.entries[i].Outpoint();
      AnswerFields(w.entries[i], |inputs|, ev.error, w.lastDaa);
    }
  }

  lemma {:induction false} ResponseLawful(env: Env, w: Watcher, ev: Event)
    requires Inv(env, w) && ev.Response?
    ensures ResponseLaw(w, ev, Step(env, w, ev))
  {
    MatchedIsAbout(w, ev.responseTxid, ev.error, ev.pick);
    var m := Matched(w, ev.responseTxid, ev.error, ev.pick);
    if m.Some? {
      AnsweredList(env, w, ev);
      ResponseBooks(env, w, ev);
      var inputs := w.inFlight[m.value].inputs;
      AnswerAllFrame(Unclaim(w, m.value), inputs, |inputs|, VerdictOf(ev.error));
      FlushFrame(OnSubmitResponse(w, ev.responseTxid, ev.error, ev.pick), ev.clock);
      assert About(w, ev.responseTxid, ev.error, m.value);
    }
  }

  // ---------------------------------------------------------------- blocks that leave the chain

  /** Everything but the list, what is tracked, the journal and the files. */
  ghost predicate SameRest(w: Watcher, w': Watcher) {
    && w'.inFlight == w.inFlight && w'.busy == w.busy && w'.lastDaa == w.lastDaa
    && w'.blocksSinceCompact == w.blocksSinceCompact
  }

  /** A live entry that came with one of the blocks. */
  ghost predicate CameWith(e: Entry, hashes: seq<string>) {
    !e.claimed && !e.slashed && e.blockHash != "" && e.blockHash in hashes
  }

  /** Exactly the live entries of the blocks are slashed. */
  ghost predicate SlashedWith(es: seq<Entry>, es': seq<Entry>, hashes: seq<string>) {
    |es'| == |es|
    && forall i | 0 <= i < |es| :: es'[i] == if CameWith(es[i], hashes) then es[i].(slashed := true) else es[i]
  }

  /** A reorganisation slashes the live entries of the removed blocks and releases their outpoints, so that
  they can be tracked afresh; nothing else changes. */
  ghost predicate RemovedLaw(w: Watcher, hashes: seq<string>, w': Watcher) {
    && SlashedWith(w.entries, w'.entries, hashes)
    && (forall o :: o in w'.tracked
          <==> (o in w.tracked && forall e | e in w.entries && CameWith(e, hashes) :: e.Outpoint() != o))
    && SameRest(w, w') && w'.validationPending == w.validationPending
  }

  /** Some entry of `o` died between the two lists. */
  ghost predicate Died(es: seq<Entry>, es': seq<Entry>, o: Outpoint) {
    exists i :: 0 <= i < |es| && i < |es'| && es[i].Outpoint() == o && es[i].Live() && !es'[i].Live()
  }

  lemma {:induction false} DiedSince(a: seq<Entry>, b: seq<Entry>, c: seq<Entry>, o: Outpoint)
    requires EntriesEvolve(a, b) && EntriesEvolve(b, c)
    ensures Died(a, c, o) <==> Died(a, b, o) || Died(b, c, o)
  {
    forall i | 0 <= i < |a|
      ensures b[i].Outpoint() == a[i].Outpoint()
      ensures a[i].Live() && !c[i].Live() <==> (a[i].Live() && !b[i].Live()) || (b[i].Live() && !c[i].Live())
    {
      assert Evolves(a[i], b[i]) && Evolves(b[i], c[i]);
    }
    if i :| 0 <= i < |a| && a[i].Outpoint() == o && a[i].Live() && !c[i].Live() {
      assert (a[i].Live() && !b[i].Live()) || (b[i].Live() && !c[i].Live());
    }
  }

  lemma {:induction false} EntryReleases(w: Watcher, i: nat, o: Outpoint)
    ensures var w' := PurgeEntry(w, i, Reorg);
      EntriesEvolve(w.entries, w'.entries) && (o in w'.tracked <==> o in w.tracked && !Died(w.entries, w'.entries, o))
  {
    var w' := PurgeEntry(w, i, Reorg);
    if i < |w.entries| && w.entries[i].Live() && w.entries[i].Outpoint() == o {
      assert !w'.entries[i].Live();
    }
  }

  lemma {:induction false} IndicesRelease(w: Watcher, indices: seq<nat>, o: Outpoint)
    ensures var w' := PurgeIndices(w, indices, Reorg);
      EntriesEvolve(w.entries, w'.entries) && (o in w'.tracked <==> o in w.tracked && !Died(w.entries, w'.entries, o))
    decreases |indices|
  {
    if indices != [] {
      var w1 := PurgeEntry(w, indices[0], Reorg);
      EntryReleases(w, indices[0], o);
      IndicesRelease(w1, indices[1..], o);
      DiedSince(w.entries, w1.entries, PurgeIndices(w, indices, Reorg).entries, o);
    }
  }

  lemma {:induction false} BlocksRelease(w: Watcher, hashes: seq<string>, o: Outpoint)
    ensures var w' := PurgeBlocks(w, hashes, Reorg);
      EntriesEvolve(w.entries, w'.entries) && (o in w'.tracked <==> o in w.tracked && !Died(w.entries, w'.entries, o))
    decreases |hashes|
  {
    if hashes != [] {
      var w1 := PurgeBlock(w, hashes[0], Reorg);
      if hashes[0] in w.blockIndex {
        IndicesRelease(w, w.blockIndex[hashes[0]], o);
      }
      BlocksRelease(w1, hashes[1..], o);
      DiedSince(w.entries, w1.entries, PurgeBlocks(w, hashes, Reorg).entries, o);
    }
  }

  lemma {:induction false} PurgedIsSlashed(es: seq<Entry>, es': seq<Entry>, hashes: seq<string>, how: Purge)
    requires |es'| == |es| && how != Red
    requires forall i: nat | i < |es| :: es'[i] == PurgedWith(es[i], hashes, how)
    ensures SlashedWith(es, es', hashes)
    ensures forall o :: Died(es, es', o) <==> exists e :: e in es && CameWith(e, hashes) && e.Outpoint() == o
  {
    forall o ensures Died(es, es', o) <==> exists e :: e in es && CameWith(e, hashes) && e.Outpoint() == o {
      if e :| e in es && CameWith(e, hashes) && e.Outpoint() == o {
        var i :| 0 <= i < |es| && es[i] == e;
        assert !es'[i].Live();
      }
    }
  }

  lemma {:induction false} RemovedLawful(env: Env, w: Watcher, ev: Event)
    requires Inv(env, w) && ev.ChainRemoved?
    ensures RemovedLaw(w, ev.hashes, Step(env, w, ev))
  {
    var w1 := PurgeBlocks(w, ev.hashes, Reorg);
    PurgeBlocksCoherent(w, ev.hashes, Reorg);
    PurgeBlocksFrame(w, ev.hashes, Reorg);
    PurgedIsSlashed(w.entries, w1.entries, ev.hashes, Reorg);
    forall o
      ensures o in w1.tracked
        <==> (o in w.tracked && forall e | e in w.entries && CameWith(e, ev.hashes) :: e.Outpoint() != o)
    {
      BlocksRelease(w, ev.hashes, o);
    }
    FlushFrame(w1, ev.clock);
  }

  // ---------------------------------------------------------------- validation

  /** A pending block that is answered is ticked off and, if it is not on the chain, takes its live entries
  with it; an answer nobody waits for changes nothing. */
  ghost predicate ValidatedLaw(w: Watcher, hash: string, onChain: bool, w': Watcher) {
    if hash !in w.validationPending then w' == w
    else
      && SlashedWith(w.entries, w'.entries, if onChain then [] else [hash])
      && w'.validationPending == w.validationPending - {hash}
      && w'.tracked == w.tracked && SameRest(w, w')
  }

  lemma {:induction false} GhostTracked(w: Watcher, indices: seq<nat>)
    ensures PurgeIndices(w, indices, Ghost).tracked == w.tracked
    decreases |indices|
  {
    if indices != [] {
      GhostTracked(PurgeEntry(w, indices[0], Ghost), indices[1..]);
    }
  }

  lemma {:induction false} ValidatedLawful(env: Env, w: Watcher, ev: Event)
    requires Inv(env, w) && ev.Validated?
    ensures ValidatedLaw(w, ev.hash, ev.onChain, Step(env, w, ev))
  {
    if ev.hash in w.validationPending {
      var w1 := w.(validationPending := w.validationPending - {ev.hash});
      SameIndexesCoherent(w, w1);
      if !ev.onChain {
        PurgeBlockExact(w1, ev.hash, Ghost);
        PurgedIsSlashed(w1.entries, PurgeBlock(w1, ev.hash, Ghost).entries, [ev.hash], Ghost);
        if ev.hash in w1.blockIndex {
          GhostTracked(w1, w1.blockIndex[ev.hash]);
          PurgeIndicesFrame(w1, w1.blockIndex[ev.hash], Ghost);
        }
      }
      FlushFrame(OnBlockValidated(w, ev.hash, ev.onChain), ev.clock);
    }
  }

  /** The node does not know the block: it is ticked off and its entries stay. */
  ghost predicate UnknownLaw(w: Watcher, hash: string, w': Watcher) {
    && w'.entries == w.entries && w'.tracked == w.tracked && SameRest(w, w')
    && w'.validationPending == w.validationPending - {hash}
  }

  /** Validation asks about exactly the blocks live entries came with. */
  ghost predicate StartedLaw(w: Watcher, w': Watcher) {
    && w' == w.(validationPending := w'.validationPending)
    && forall h :: h in w'.validationPending <==> h != "" && AskedAbout(w.entries, h)
  }

  ghost predicate AskedAbout(es: seq<Entry>, hash: string) {
    exists e :: e in es && !e.claimed && !e.slashed && e.blockHash == hash
  }

  // ---------------------------------------------------------------- inferences

  /** An inference escrow is tracked once, as output 1 of its request, with the old window and no block. */
  ghost predicate InferenceLaw(w: Watcher, txid: string, daa: nat, amount: nat, w': Watcher) {
    if amount == 0 || (txid, 1) in w.tracked then w' == w
    else
      && w'.entries == w.entries
        + [Entry(txid, "", daa, amount, 1, false, false, false, 0, None, 0, 0, 0, true, 36_000)]
      && w'.tracked == w.tracked + {(txid, 1)} && SameRest(w, w') && w'.validationPending == w.validationPending
  }

  // ---------------------------------------------------------------- all events

  /** What each event does, whatever the state. */
  ghost predicate Lawful(env: Env, w: Watcher, ev: Event, w': Watcher) {
    match ev
    case BlockSeen(_, _, _, _) => BlockLaw(env, w, ev, w')
    case Inference(txid, daa, amount, _) => InferenceLaw(w, txid, daa, amount, w')
    case Response(_, _, _, _) => ResponseLaw(w, ev, w')
    case ChainRemoved(hashes, _) => RemovedLaw(w, hashes, w')
    case ValidationStarted => StartedLaw(w, w')
    case Validated(hash, onChain, _) => ValidatedLaw(w, hash, onChain, w')
    case Unknown(hash, _) => UnknownLaw(w, hash, w')
    case Shutdown(_) =>
      w'.entries == w.entries && w'.tracked == w.tracked && SameRest(w, w')
      && w'.validationPending == w.validationPending
  }

  /** Every event of every reachable state does what its law says. */
  lemma {:induction false} StepLawful(env: Env, w: Watcher, ev: Event)
    requires Inv(env, w) && Injective(env.txid) && StepOk(env, w, ev)
    ensures Lawful(env, w, ev, Step(env, w, ev))
  {
    match ev
    case BlockSeen(_, _, _, _) => BlockLawful(env, w, ev);
    case Inference(txid, daa, amount, clock) => FlushFrame(TrackInference(w, txid, daa, amount), clock);
    case Response(_, _, _, _) => ResponseLawful(env, w, ev);
    case ChainRemoved(_, _) => RemovedLawful(env, w, ev);
    case ValidationStarted =>
    case Validated(_, _, _) => ValidatedLawful(env, w, ev);
    case Unknown(hash, clock) => FlushFrame(OnBlockUnknown(w, hash), clock);
    case Shutdown(_) => FlushFrame(w, ClockOf(ev));
  }
}
