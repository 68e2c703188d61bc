/** The escrow watcher as the object it is: its methods update entries, indexes, claims and the pending
journal in place (src/escrow.rs:354-1222). Each is proved against the transition of `EscrowModel`, so
everything shown of that model's runs holds of the object. */
module EscrowWatchers {
  import opened Outcomes
  import opened EscrowEntries
  import opened EscrowModel
  import opened EscrowIndexes
  import opened EscrowClaims
  import opened EscrowSteps
  import opened EscrowJournal
  import opened EscrowReplay
  import opened EscrowChoice
  import opened EscrowBlocks
  import opened EscrowVerdicts
  import opened EscrowFiles

  /** Result of matching a response. */
  datatype SubmitResponseOutcome =
    | NotOurs
    | Handled
    | ClaimAccepted(outputs: nat, amount: nat)

  /** Sum of what has been claimed. */
  ghost function TotalClaimed(es: seq<Entry>): nat {
    if es == [] then 0
    else TotalClaimed(es[..|es| - 1]) + (if es[|es| - 1].claimed then es[|es| - 1].amount else 0)
  }

  lemma {:induction false} ClaimingAdds(es: seq<Entry>, i: nat)
    requires i < |es|
    ensures TotalClaimed(es[i := es[i].(claimed := true)])
      == TotalClaimed(es) + (if es[i].claimed then 0 else es[i].amount)
    decreases |es|
  {
    var n := |es| - 1;
    var es' := es[i := es[i].(claimed := true)];
    if i == n {
      assert es'[..n] == es[..n];
    } else {
      ClaimingAdds(es[..n], i);
      assert es'[..n] == es[..n][i := es[..n][i].(claimed := true)];
    }
  }

  class EscrowWatcher {
    var entries: seq<Entry>
    var journalSeq: nat
    var pending: seq<Line>
    var inFlight: map<string, Claim>
    var busy: set<Outpoint>
    var lastDaa: nat
    var tracked: set<Outpoint>
    var blockIndex: map<string, seq<nat>>
    var snapshotDue: bool
    var linesSinceSnapshot: nat
    var blocksSinceCompact: nat
    var validationPending: set<string>
    var disk: Disk
    const gate: nat
    const txid: TxidOf

    ghost function Model(): Watcher
      reads this
    {
      Watcher(entries, journalSeq, pending, inFlight, busy, lastDaa, tracked, blockIndex,
        snapshotDue, linesSinceSnapshot, blocksSinceCompact, validationPending, disk)
    }

    ghost function Environment(): Env {
      Env(gate, txid)
    }

    ghost predicate Valid()
      reads this
    {
      Inv(Environment(), Model())
    }

    /** Load snapshot and journal, then rebuild the indexes. */
    constructor (disk: Disk, gate: nat, txid: TxidOf)
      requires LiveLast(disk.snapshot)
      ensures Valid() && this.gate == gate && this.txid == txid
      ensures Recovered(AsMap(entries), journalSeq) == Recover(disk)
      ensures Model() == Loaded(entries, journalSeq, disk) && LoadsFrom(disk.snapshot, entries)
      ensures Newest(disk, journalSeq) && forall e :: InList(entries, e) <==> Found(disk, e)
      ensures this.disk == disk && pending == [] && inFlight == map[] && busy == {} && validationPending == {}
        && lastDaa == 0 && linesSinceSnapshot == 0 && blocksSinceCompact == 0 && !snapshotDue
      ensures forall o :: o in tracked <==> exists e :: e in entries && e.Outpoint() == o
      ensures forall h, i: nat :: (h in blockIndex && i in blockIndex[h]) <==> CameIn(entries, h, i)
    {
      var loaded, s := ReplayJournal(disk);
      entries, journalSeq, pending, inFlight, busy, lastDaa := loaded, s, [], map[], {}, 0;
      tracked, blockIndex, snapshotDue, linesSinceSnapshot := {}, map[], false, 0;
      blocksSinceCompact, validationPending := 0, {};
      this.disk, this.gate, this.txid := disk, gate, txid;
      new;
      RebuildIndexes();
      RebuildCoherent(Watcher(loaded, s, [], map[], {}, 0, {}, map[], false, 0, 0, {}, disk));
      assert AllOutpoints(map[]) == {};
      LoadedList(loaded, s, disk);
      LoadedIndexes(loaded, s, disk);
    }

    method AppendJournalLine(e: Entry)
      modifies this`journalSeq, this`pending
      ensures Model() == Journal(old(Model()), e)
    {
      journalSeq := journalSeq + 1;
      pending := pending + [Line(journalSeq, e)];
    }

    method PutEntry(i: nat, e: Entry)
      requires i < |entries|
      modifies this
      ensures Model() == Put(old(Model()), i, e)
    {
      entries := entries[i := e];
      AppendJournalLine(e);
    }

    method PushEntry(e: Entry)
      modifies this
      ensures Model() == Push(old(Model()), e)
    {
      var idx := |entries|;
      entries := entries + [e];
      tracked := tracked + {e.Outpoint()};
      if e.blockHash != "" {
        var row := if e.blockHash in blockIndex then blockIndex[e.blockHash] else [];
        blockIndex := blockIndex[e.blockHash := row + [idx]];
      }
      AppendJournalLine(e);
    }

    method RebuildIndexes()
      modifies this`tracked, this`blockIndex
      ensures Model() == EscrowModel.RebuildIndexes(old(Model()))
    {
      tracked, blockIndex := {}, map[];
      for i := 0 to |entries|
        invariant tracked == OutpointsOf(entries[..i]) && blockIndex == IndexOfBlocks(entries[..i])
      {
        var e := entries[i];
        IndexesAppend(entries, i);
        tracked := tracked + {e.Outpoint()};
        if e.blockHash != "" {
          var row := if e.blockHash in blockIndex then blockIndex[e.blockHash] else [];
          blockIndex := blockIndex[e.blockHash := row + [i]];
        }
      }
      assert entries[..|entries|] == entries;
    }

    method Compact()
      modifies this`entries, this`tracked, this`blockIndex, this`snapshotDue
      ensures Model() == EscrowModel.Compact(old(Model()))
    {
      var kept: seq<Entry> := [];
      for i := 0 to |entries|
        invariant kept == Living(entries[..i])
      {
        assert entries[..i + 1][..i] == entries[..i];
        if entries[i].Live() {
          kept := kept + [entries[i]];
        }
      }
      assert entries[..|entries|] == entries;
      if |kept| != |entries| {
        entries := kept;
        RebuildIndexes();
        snapshotDue := true;
      }
    }

    /** Give up the live entries of one index row. */
    method PurgeRow(indices: seq<nat>, how: Purge)
      modifies this
      ensures Model() == PurgeIndices(old(Model()), indices, how)
    {
      for k := 0 to |indices|
        invariant PurgeIndices(Model(), indices[k..], how) == PurgeIndices(old(Model()), indices, how)
      {
        var i := indices[k];
        assert indices[k..][0] == i && indices[k..][1..] == indices[k + 1..];
        if i < |entries| && Purgeable(entries[i], how) {
          var e := entries[i];
          if how == Reorg {
            tracked := tracked - {e.Outpoint()};
          }
          PutEntry(i, e.(slashed := true));
        }
      }
    }

    method PurgeHash(hash: string, how: Purge)
      modifies this
      ensures Model() == PurgeBlock(old(Model()), hash, how)
    {
      if hash in blockIndex {
        PurgeRow(blockIndex[hash], how);
        if how == Reorg {
          blockIndex := blockIndex - {hash};
        }
      }
    }

    method PurgeHashes(hashes: seq<string>, how: Purge)
      modifies this
      ensures Model() == PurgeBlocks(old(Model()), hashes, how)
    {
      for k := 0 to |hashes|
        invariant PurgeBlocks(Model(), hashes[k..], how) == PurgeBlocks(old(Model()), hashes, how)
      {
        assert hashes[k..][0] == hashes[k] && hashes[k..][1..] == hashes[k + 1..];
        PurgeHash(hashes[k], how);
      }
    }

    /** Purge the entries of blocks that left the selected chain and release their outpoints. */
    method OnChainBlocksRemoved(hashes: seq<string>, clock: Clock)
      requires Valid() && Injective(txid)
      modifies this
      ensures Valid() && Model() == Step(Environment(), old(Model()), ChainRemoved(hashes, clock))
      ensures Meets(Environment(), old(Model()), ChainRemoved(hashes, clock), Model())
    {
      ghost var before := Model();
      StepMeets(Environment(), before, ChainRemoved(hashes, clock));
      var s := journalSeq;
      PurgeHashes(hashes, Reorg);
      if journalSeq != s {
        MaybeFlush(clock);
      }
    }

    method TrackBlockEscrows(cb: Coinbase, hash: string, daa: nat)
      modifies this
      ensures Model() == TrackOutputs(old(Model()), cb, hash, daa, 0)
      ensures TracksExactly(old(Model()), Model(), cb, hash, daa, 0)
    {
      TrackOutputsExact(Model(), cb, hash, daa, 0);
      for k := 0 to |cb.outputs|
        invariant TrackOutputs(Model(), cb, hash, daa, k) == TrackOutputs(old(Model()), cb, hash, daa, 0)
      {
        var out := cb.outputs[k];
        if out.window.Some? && (cb.txid, k) !in tracked {
          PushEntry(FreshEntry(cb.txid, hash, daa, out.amount, k, false, out.window.value));
        }
      }
    }

    method TrackInferenceEscrow(aiTxid: string, daa: nat, amount: nat, clock: Clock)
      requires Valid() && Injective(txid)
      modifies this
      ensures Valid() && Model() == Step(Environment(), old(Model()), Inference(aiTxid, daa, amount, clock))
      ensures Meets(Environment(), old(Model()), Inference(aiTxid, daa, amount, clock), Model())
    {
      StepMeets(Environment(), Model(), Inference(aiTxid, daa, amount, clock));
      if amount == 0 || (aiTxid, 1) in tracked {
        return;
      }
      PushEntry(FreshEntry(aiTxid, "", daa, amount, 1, true, CHALLENGE_WINDOW_BLOCKS));
      MaybeFlush(clock);
    }

    /** Release claims whose response never came. */
    method ExpireInFlight(daa: nat)
      modifies this`inFlight, this`busy
      ensures Model() == EscrowModel.ExpireInFlight(old(Model()), daa)
    {
      var expired := set t | t in inFlight && Expired(inFlight[t], daa);
      while expired != {}
        invariant expired == set t | t in inFlight && Expired(inFlight[t], daa)
        invariant EscrowModel.ExpireInFlight(Model(), daa) == EscrowModel.ExpireInFlight(old(Model()), daa)
        decreases |expired|
      {
        var t :| t in expired;
        ExpireOne(Model(), t, daa);
        busy := busy - Outpoints(inFlight[t].inputs);
        inFlight := inFlight - {t};
        expired := expired - {t};
      }
      assert forall t | t in inFlight :: t !in expired;
      NothingExpired(Model(), daa);
    }

    /** Let stale caps and orphan verdicts expire. */
    method HealEntries(daa: nat)
      modifies this
      ensures Model() == Heal(old(Model()), daa, 0)
    {
      var n := |entries|;
      for i := 0 to n
        invariant |entries| == n
        invariant Heal(Model(), daa, i) == Heal(old(Model()), daa, 0)
      {
        var e := entries[i];
        var healed := false;
        if e.batchCap != 0 && daa >= e.capSetDaa + CAP_EXPIRY_DAA {
          e := e.(batchCap := 0);
          healed := true;
        }
        if e.orphanSlashed {
          var holdoff := CAP_EXPIRY_DAA * Halving.Pow2(Halving.Min(e.orphanRetries, 10));
          if e.retryAfterDaa.None? || daa >= e.retryAfterDaa.value + holdoff {
            e := e.(orphanSlashed := false);
            healed := true;
          }
        }
        assert e == HealEntry(entries[i], daa) && (healed <==> e != entries[i]);
        if healed {
          PutEntry(i, e);
        }
      }
    }

    /** Pick a batch and register its claim. `canBuild` says whether the transaction could be built. */
    method FindClaim(daa: nat, canBuild: bool)
      returns (claim: Option<seq<Entry>>, ghost batch': seq<nat>, ghost built: Option<string>)
      modifies this
      ensures MayClaim(old(Model())) ==>
        var healed := Heal(old(Model()), daa, 0);
        && GoodBatch(SelectionView(healed, gate, daa), batch') && InRange(healed, batch')
        && (built.Some? ==> built.value == txid(Inputs(healed, batch')))
        && claim == (if batch' != [] && canBuild then Some(Inputs(healed, batch')) else None)
      ensures !MayClaim(old(Model())) ==> claim == None
      ensures inFlight == Registered(old(inFlight), claim, daa)
      ensures Model() == EscrowModel.FindClaim(old(Model()), daa, batch', built)
    {
      batch', built, claim := [], None, None;
      if |inFlight| >= MAX_IN_FLIGHT_CLAIMS {
        return;
      }
      if validationPending != {} {
        return;
      }
      HealCoherent(Model(), daa, 0);
      HealEntries(daa);
      ghost var healed := Model();
      var batch := SelectClaimBatch(View(entries, daa, busy, CsvWindowForDaa(gate, daa)));
      batch' := batch;
      GoodBatchInRange(SelectionView(healed, gate, daa), batch);
      if batch == [] || !canBuild {
        return;
      }
      built := Some(txid(Inputs(healed, batch)));
      var inputs := RegisterClaim(batch, daa);
      claim := Some(inputs);
    }

    /** Build the claim of `batch`: its outputs are busy until it is answered. */
    method RegisterClaim(batch: seq<nat>, daa: nat) returns (inputs: seq<Entry>)
      requires InRange(Model(), batch)
      modifies this`busy, this`inFlight
      ensures inputs == Inputs(old(Model()), batch)
      ensures Model() == AddClaim(old(Model()), txid(inputs), inputs, daa)
    {
      var es := entries;
      inputs := seq(|batch|, a requires 0 <= a < |batch| && batch[a] < |es| => es[batch[a]]);
      assert inputs == Inputs(Model(), batch);
      busy := busy + Outpoints(inputs);
      inFlight := inFlight[txid(inputs) := Claim(inputs, daa)];
    }

    /** The claims in flight once `claim` is registered. */
    ghost function Registered(m: map<string, Claim>, claim: Option<seq<Entry>>, daa: nat): map<string, Claim> {
      match claim
      case None => m
      case Some(inputs) => m[txid(inputs) := Claim(inputs, daa)]
    }

    /** A block: release, compact, purge reds, track, claim, flush. The claim handed out is the batch of the
    step, and exactly what joins the claims that have not timed out. */
    method HandleBlock(b: Block, canBuild: bool, clock: Clock) returns (claim: Option<seq<Entry>>, ghost ev: Event)
      requires Valid() && Injective(txid)
      modifies this
      ensures ev.BlockSeen? && ev.b == b && ev.clock == clock && StepOk(Environment(), old(Model()), ev)
      ensures Valid() && Model() == Step(Environment(), old(Model()), ev)
      ensures Meets(Environment(), old(Model()), ev, Model())
      ensures claim.Some? <==> Looks(old(Model()), b.daa) && ev.batch != [] && canBuild
      ensures claim.Some? ==> BatchOf(entries, ev.batch, claim.value)
      ensures inFlight == Registered(Unexpired(old(inFlight), b.daa), claim, b.daa)
    {
      ghost var before, batch, built := Model(), [], None;
      claim, batch, built := TakeBlock(b, canBuild, clock);
      ev := BlockSeen(b, batch, built, clock);
      BlockBooks(before, b);
      StepMeets(Environment(), before, ev);
    }

    /** Bookkeeping, a claim if there is one to send, and the flush. */
    method TakeBlock(b: Block, canBuild: bool, clock: Clock)
      returns (claim: Option<seq<Entry>>, ghost batch': seq<nat>, ghost built: Option<string>)
      modifies this
      ensures var w := BeforeClaim(old(Model()), b);
        && (MayClaim(w) ==>
              var healed := Heal(w, b.daa, 0);
              && GoodBatch(SelectionView(healed, gate, b.daa), batch') && InRange(healed, batch')
              && (built.Some? ==> built.value == txid(Inputs(healed, batch'))))
        && (claim.Some? <==> MayClaim(w) && batch' != [] && canBuild)
        && (claim.Some? ==> BatchOf(entries, batch', claim.value))
        && inFlight == Registered(w.inFlight, claim, b.daa)
        && Model() == EscrowModel.MaybeFlush(EscrowModel.FindClaim(w, b.daa, batch', built), clock)
    {
      BeforeBlockClaim(b);
      ghost var w := Model();
      claim, batch', built := FindClaim(b.daa, canBuild);
      FindClaimLaw(w, b.daa, batch', built);
      MaybeFlush(clock);
    }

    method BeforeBlockClaim(b: Block)
      modifies this
      ensures Model() == BeforeClaim(old(Model()), b)
    {
      lastDaa := b.daa;
      ExpireInFlight(b.daa);
      blocksSinceCompact := blocksSinceCompact + 1;
      if blocksSinceCompact >= COMPACT_EVERY_BLOCKS {
        blocksSinceCompact := 0;
        Compact();
      }
      PurgeHashes(b.reds, Red);
      if b.isChain && b.coinbase.Some? {
        TrackBlockEscrows(b.coinbase.value, b.hash, b.daa);
      }
    }

    /** Apply a verdict to the claim's outputs; an accepted claim adds exactly its new amounts. */
    method AnswerClaim(inputs: seq<Entry>, n: nat, v: Verdict) returns (amount: nat)
      modifies this
      ensures Model() == AnswerAll(old(Model()), inputs, n, v)
      ensures v.Accepted? ==> TotalClaimed(entries) == TotalClaimed(old(entries)) + amount
    {
      amount := 0;
      for k := 0 to |inputs|
        invariant AnswerAll(Model(), inputs[k..], n, v) == AnswerAll(old(Model()), inputs, n, v)
        invariant v.Accepted? ==> TotalClaimed(entries) == TotalClaimed(old(entries)) + amount
      {
        assert inputs[k..][0] == inputs[k] && inputs[k..][1..] == inputs[k + 1..];
        match FirstMatch(entries, inputs[k].Outpoint())
        case None =>
        case Some(i) =>
          var e := entries[i];
          if v.Accepted? && !e.claimed {
            amount := amount + e.amount;
          }
          ClaimingAdds(entries, i);
          PutEntry(i, AnswerEntry(e, n, v, lastDaa));
      }
    }

    /** The claim a response belongs to: by txid, else any claim its error text mentions. */
    method MatchResponse(responseTxid: string, error: Option<Rejection>)
      returns (matched: Option<string>, ghost pick: string)
      ensures matched == Matched(Model(), responseTxid, error, pick)
      ensures matched.None? <==>
        responseTxid !in inFlight && (error.None? || inFlight.Keys * error.value.mentions == {})
    {
      pick := responseTxid;
      if responseTxid in inFlight {
        return Some(responseTxid), pick;
      }
      if error.None? || inFlight.Keys * error.value.mentions == {} {
        return None, pick;
      }
      var t :| t in inFlight.Keys * error.value.mentions;
      return Some(t), t;
    }

    /** Settle a matched claim. */
    method SettleClaim(t: string, error: Option<Rejection>) returns (outcome: SubmitResponseOutcome)
      requires t in inFlight
      modifies this
      ensures Model()
        == AnswerAll(Unclaim(old(Model()), t), old(inFlight)[t].inputs, |old(inFlight)[t].inputs|, VerdictOf(error))
      ensures outcome != NotOurs && (outcome.ClaimAccepted? <==> Paid(error))
      ensures outcome.ClaimAccepted? ==> outcome.outputs == |old(inFlight)[t].inputs|
      ensures outcome.ClaimAccepted? ==> TotalClaimed(entries) == TotalClaimed(old(entries)) + outcome.amount
    {
      var inputs := inFlight[t].inputs;
      busy := busy - Outpoints(inputs);
      inFlight := inFlight - {t};
      var v := if error.None? || error.value.duplicate then Accepted else Rejected(error.value);
      var amount := AnswerClaim(inputs, |inputs|, v);
      outcome := if v.Accepted? then ClaimAccepted(|inputs|, amount) else Handled;
    }

    /** Find the claim, settle it, flush. */
    method AnswerResponse(responseTxid: string, error: Option<Rejection>, clock: Clock)
      returns (outcome: SubmitResponseOutcome, ghost pick: string)
      modifies this
      ensures var w, m := old(Model()), Matched(old(Model()), responseTxid, error, pick);
        var settled := EscrowModel.OnSubmitResponse(w, responseTxid, error, pick);
        && Model() == (if m.None? then w else EscrowModel.MaybeFlush(settled, clock))
        && (outcome == NotOurs <==> m.None?)
        && (outcome.ClaimAccepted? <==> m.Some? && Paid(error))
        && (outcome.ClaimAccepted? ==> outcome.outputs == |w.inFlight[m.value].inputs|)
      ensures outcome == NotOurs <==>
        responseTxid !in old(inFlight) && (error.None? || old(inFlight).Keys * error.value.mentions == {})
      ensures outcome.ClaimAccepted? ==> TotalClaimed(entries) == TotalClaimed(old(entries)) + outcome.amount
    {
      var matched;
      matched, pick := MatchResponse(responseTxid, error);
      if matched.None? {
        return NotOurs, pick;
      }
      outcome := SettleClaim(matched.value, error);
      MaybeFlush(clock);
    }

    /** A response: settled if it is about one of our claims, and reported with what it brought. */
    method OnSubmitResponse(responseTxid: string, error: Option<Rejection>, clock: Clock)
      returns (outcome: SubmitResponseOutcome, ghost pick: string)
      requires Valid() && Injective(txid)
      modifies this
      ensures Valid() && Model() == Step(Environment(), old(Model()), Response(responseTxid, error, pick, clock))
      ensures Meets(Environment(), old(Model()), Response(responseTxid, error, pick, clock), Model())
      ensures outcome == NotOurs <==>
        responseTxid !in old(inFlight) && (error.None? || old(inFlight).Keys * error.value.mentions == {})
      ensures outcome.ClaimAccepted? <==> outcome != NotOurs && Paid(error)
      ensures outcome.ClaimAccepted? ==>
        && TotalClaimed(entries) == TotalClaimed(old(entries)) + outcome.amount
        && exists t :: About(old(Model()), responseTxid, error, t) && outcome.outputs == |old(inFlight)[t].inputs|
    {
      ghost var before := Model();
      outcome, pick := AnswerResponse(responseTxid, error, clock);
      StepMeets(Environment(), before, Response(responseTxid, error, pick, clock));
      MatchedIsAbout(before, responseTxid, error, pick);
    }

    /** Hashes to ask the node about before anything is claimed. */
    method StartStateValidation() returns (hashes: set<string>)
      requires Valid() && Injective(txid)
      modifies this`validationPending
      ensures Valid() && Model() == Step(Environment(), old(Model()), ValidationStarted)
      ensures Meets(Environment(), old(Model()), ValidationStarted, Model())
      ensures hashes == validationPending
    {
      StepMeets(Environment(), Model(), ValidationStarted);
      hashes := CollectHashes();
      validationPending := hashes;
    }

    method CollectHashes() returns (hashes: set<string>)
      ensures hashes == LiveHashes(entries)
    {
      hashes := {};
      for i := 0 to |entries|
        invariant hashes == LiveHashes(entries[..i])
      {
        LiveHashesAppend(entries, i);
        if entries[i].Live() && entries[i].blockHash != "" {
          hashes := hashes + {entries[i].blockHash};
        }
      }
      assert entries[..|entries|] == entries;
    }

    method OnBlockValidated(hash: string, onChain: bool, clock: Clock)
      requires Valid() && Injective(txid)
      modifies this
      ensures Valid() && Model() == Step(Environment(), old(Model()), Validated(hash, onChain, clock))
      ensures Meets(Environment(), old(Model()), Validated(hash, onChain, clock), Model())
    {
      StepMeets(Environment(), Model(), Validated(hash, onChain, clock));
      if hash !in validationPending {
        return;
      }
      validationPending := validationPending - {hash};
      if !onChain {
        PurgeFrame(Model(), hash, Ghost);
        PurgeHash(hash, Ghost);
      }
      if validationPending == {} {
        MaybeFlush(clock);
      }
    }

    /** A block the node cannot return is ticked off; its entries stay. */
    method OnBlockValidationError(hash: string, clock: Clock) returns (consumed: bool)
      requires Valid() && Injective(txid)
      modifies this
      ensures Valid() && Model() == Step(Environment(), old(Model()), Unknown(hash, clock))
      ensures Meets(Environment(), old(Model()), Unknown(hash, clock), Model())
      ensures entries == old(entries) && (consumed <==> hash in old(validationPending))
    {
      StepMeets(Environment(), Model(), Unknown(hash, clock));
      consumed := hash in validationPending;
      validationPending := validationPending - {hash};
      if consumed && validationPending == {} {
        MaybeFlush(clock);
      }
    }

    /** Append the unwritten lines. A restart right after a successful write loads what files and lines
    together stood for; a failed one loses nothing. */
    method WriteJournal(outcome: WriteOutcome)
      modifies this`disk, this`linesSinceSnapshot, this`pending
      ensures Model() == EscrowModel.WriteJournal(old(Model()), outcome)
      ensures old(Journaled(Model())) ==> Journaled(Model())
      ensures old(Journaled(Model())) && outcome == Written ==> Recover(disk) == old(RecoverAll(Model()))
    {
      ghost var before := Model();
      if Journaled(before) {
        WriteJournalJournaled(before, outcome);
      }
      if outcome == Written {
        disk := disk.(journal := disk.journal + Records(pending));
        linesSinceSnapshot := linesSinceSnapshot + |pending|;
        pending := [];
      }
    }

    /** Replace the snapshot, then empty the journal; either write may be the last to succeed. As soon as
    the first has, a restart loads the memory it was taken of. */
    method WriteSnapshot(outcome: WriteOutcome)
      modifies this`disk, this`linesSinceSnapshot, this`pending, this`snapshotDue
      ensures Model() == EscrowModel.WriteSnapshot(old(Model()), outcome)
      ensures old(Journaled(Model())) ==> Journaled(Model())
      ensures old(Journaled(Model())) && outcome != Failed ==> Recover(disk) == Recovered(AsMap(entries), journalSeq)
    {
      ghost var before := Model();
      if Journaled(before) {
        SnapshotJournaled(before, outcome);
      }
      if outcome == Failed {
        return;
      }
      disk := disk.(snapshot := entries, snapshotSeq := journalSeq);
      if outcome == SnapshotOnly {
        return;
      }
      disk := disk.(journal := []);
      pending, linesSinceSnapshot, snapshotDue := [], 0, false;
    }

    /** Flush if it is time to. If the files change at all, a restart loads exactly the live entries in
    memory. */
    method MaybeFlush(clock: Clock)
      modifies this`disk, this`linesSinceSnapshot, this`pending, this`snapshotDue
      ensures Model() == EscrowModel.MaybeFlush(old(Model()), clock)
      ensures old(Journaled(Model())) ==> Journaled(Model())
      ensures old(Journaled(Model())) ==> disk == old(disk) || Mirrors(Recover(disk).table, entries)
    {
      ghost var before := Model();
      if Journaled(before) {
        FlushJournaled(before, clock);
      }
      var grown := linesSinceSnapshot + |pending|;
      if snapshotDue || clock.journalBig || (grown > 0 && clock.snapshotElapsed) {
        WriteSnapshot(clock.outcome);
      } else if pending != [] && clock.journalElapsed {
        WriteJournal(clock.outcome);
      }
    }

    /** Write a snapshot if anything is not in one yet. A restart then loads exactly the live entries in
    memory, unless there was something to write and the write failed. */
    method SnapshotIfDue(outcome: WriteOutcome) returns (ok: bool)
      modifies this`disk, this`linesSinceSnapshot, this`pending, this`snapshotDue
      ensures Model() == EscrowModel.FlushState(old(Model()), outcome)
      ensures old(Journaled(Model())) ==> Journaled(Model()) && (ok ==> Mirrors(Recover(disk).table, entries))
      ensures outcome == Written ==> ok
    {
      ghost var before := Model();
      if Journaled(before) {
        ShutdownMirrors(before, outcome);
      }
      ok := true;
      if snapshotDue || linesSinceSnapshot > 0 || pending != [] {
        WriteSnapshot(outcome);
        ok := outcome == Written;
      }
    }

    /** The last flush, by hand or when the watcher is dropped. */
    method FlushState(outcome: WriteOutcome) returns (ok: bool)
      requires Valid() && Injective(txid)
      modifies this
      ensures Valid() && Model() == Step(Environment(), old(Model()), Shutdown(outcome))
      ensures Meets(Environment(), old(Model()), Shutdown(outcome), Model())
      ensures old(Journaled(Model())) && ok ==> Mirrors(Recover(disk).table, entries)
      ensures outcome == Written ==> ok
    {
      ShutdownKeeps(Environment(), Model(), outcome);
      StepMeets(Environment(), Model(), Shutdown(outcome));
      ok := SnapshotIfDue(outcome);
    }
  }

  lemma {:induction false} LiveHashesAppend(es: seq<Entry>, i: nat)
    requires i < |es|
    ensures LiveHashes(es[..i + 1])
      == LiveHashes(es[..i]) + if es[i].Live() && es[i].blockHash != "" then {es[i].blockHash} else {}
  {
    assert es[..i + 1] == es[..i] + [es[i]];
  }

  /** The claim's members are the entries of the batch. */
  ghost predicate BatchOf(es: seq<Entry>, batch: seq<nat>, inputs: seq<Entry>) {
    |inputs| == |batch| && forall a | 0 <= a < |batch| :: batch[a] < |es| && inputs[a] == es[batch[a]]
  }

  /** Until a claim is looked for, a block only releases claims that timed out. */
  lemma {:induction false} BlockBooks(w: Watcher, b: Block)
    ensures BeforeClaim(w, b).inFlight == Unexpired(w.inFlight, b.daa)
    ensures MayClaim(BeforeClaim(w, b)) <==> Looks(w, b.daa)
  {
    var w2 := Pruned(w, b);
    PrunedFrame(w, b);
    PurgeBlocksFrame(w2, b.reds, Red);
    if b.isChain && b.coinbase.Some? {
      TrackOutputsFrame(PurgeBlocks(w2, b.reds, Red), b.coinbase.value, b.hash, b.daa, 0);
    }
  }

  lemma {:induction false} ShutdownKeeps(env: Env, w: Watcher, outcome: WriteOutcome)
    requires Inv(env, w)
    ensures Step(env, w, Shutdown(outcome)) == EscrowModel.FlushState(w, outcome)
    ensures Inv(env, EscrowModel.FlushState(w, outcome))
  {
    FlushKeeps(env, w, ClockOf(Shutdown(outcome)));
  }

  lemma {:induction false} PurgeFrame(w: Watcher, hash: string, how: Purge)
    ensures PurgeBlock(w, hash, how).validationPending == w.validationPending
  {
    if hash in w.blockIndex {
      PurgeIndicesFrame(w, w.blockIndex[hash], how);
    }
  }

  lemma {:induction false} ExpireOne(w: Watcher, t: string, daa: nat)
    requires t in w.inFlight && Expired(w.inFlight[t], daa)
    ensures EscrowModel.ExpireInFlight(Unclaim(w, t), daa) == EscrowModel.ExpireInFlight(w, daa)
  {
    var u := Unclaim(w, t);
    var all, own, rest := ExpiredOutpoints(w.inFlight, daa), Outpoints(w.inFlight[t].inputs),
      ExpiredOutpoints(u.inFlight, daa);
    forall o | o in all ensures o in own + rest {
      var x :| x in w.inFlight && Expired(w.inFlight[x], daa) && o in Outpoints(w.inFlight[x].inputs);
      assert x != t ==> x in u.inFlight && u.inFlight[x] == w.inFlight[x];
    }
    assert all == own + rest;
  }

  lemma {:induction false} NothingExpired(w: Watcher, daa: nat)
    requires forall t | t in w.inFlight :: !Expired(w.inFlight[t], daa)
    ensures EscrowModel.ExpireInFlight(w, daa) == w
  {
    assert ExpiredOutpoints(w.inFlight, daa) == {};
  }

  lemma {:induction false} GoodBatchInRange(v: View, batch: seq<nat>)
    requires GoodBatch(v, batch)
    ensures forall a | 0 <= a < |batch| :: batch[a] < |v.entries|
  {
    if batch != [] {
      var pass: nat, window: nat :| pass <= 3 && Selected(v, pass, window, batch);
      forall a | 0 <= a < |batch| ensures batch[a] < |v.entries| {
        assert Candidate(v, pass, batch[a]);
      }
    }
  }
}
