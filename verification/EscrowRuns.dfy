/** What a run of events does to one output: bisection, orphan counting and slashing
(src/escrow.rs:178-190, 845-867, 942-1035, 1065-1077).

What a response does to each entry is stated for every reachable state. Counting, caps and slashing are
about runs in which no outpoint is carried twice in the entry list (`DistinctRun`). */
module EscrowRuns {
  import opened Outcomes
  import opened EscrowEntries
  import opened EscrowModel
  import opened EscrowIndexes
  import opened EscrowClaims
  import opened EscrowSteps
  import opened EscrowJournal

  function FindEntry(es: seq<Entry>, o: Outpoint): Option<Entry> {
    match FirstMatch(es, o)
    case None => None
    case Some(i) => Some(es[i])
  }

  lemma {:induction false} FoundAt(es: seq<Entry>, i: nat)
    requires DistinctOutpoints(es) && i < |es|
    ensures FindEntry(es, es[i].Outpoint()) == Some(es[i])
  {
    var m := FirstMatch(es, es[i].Outpoint());
    assert m.Some?;
  }

  // ---------------------------------------------------------------- steps without a response

  /** Nobody but a response counts an orphan or lowers a cap; a cap may expire. */
  ghost predicate Quiet(e: Entry, e': Entry) {
    Evolves(e, e') && e'.orphanRetries == e.orphanRetries && (e'.batchCap == e.batchCap || e'.batchCap == 0)
  }

  ghost predicate QuietList(a: seq<Entry>, b: seq<Entry>) {
    |b| == |a| && forall i | 0 <= i < |a| :: Quiet(a[i], b[i])
  }

  ghost predicate IsFresh(e: Entry) {
    e.Live() && e.orphanRetries == 0 && e.batchCap == 0
  }

  /** Survivors carried on quietly, new entries behind them. */
  ghost predicate QuietGrowth(a: seq<Entry>, b: seq<Entry>) {
    |a| <= |b| && QuietList(a, b[..|a|]) && forall i | |a| <= i < |b| :: IsFresh(b[i])
  }

  lemma {:induction false} QuietTransitive(a: seq<Entry>, b: seq<Entry>, c: seq<Entry>)
    requires QuietList(a, b) && QuietList(b, c)
    ensures QuietList(a, c)
  {
    forall i | 0 <= i < |a| ensures Quiet(a[i], c[i]) {
      assert Quiet(a[i], b[i]) && Quiet(b[i], c[i]);
    }
  }

  lemma {:induction false} PurgeIndicesQuiet(w: Watcher, indices: seq<nat>, how: Purge)
    ensures QuietList(w.entries, PurgeIndices(w, indices, how).entries)
    decreases |indices|
  {
    if indices != [] {
      var w1 := PurgeEntry(w, indices[0], how);
      PurgeIndicesQuiet(w1, indices[1..], how);
      QuietTransitive(w.entries, w1.entries, PurgeIndices(w, indices, how).entries);
    }
  }

  lemma {:induction false} PurgeBlocksQuiet(w: Watcher, hashes: seq<string>, how: Purge)
    ensures QuietList(w.entries, PurgeBlocks(w, hashes, how).entries)
    decreases |hashes|
  {
    if hashes != [] {
      var w1 := PurgeBlock(w, hashes[0], how);
      if hashes[0] in w.blockIndex {
        PurgeIndicesQuiet(w, w.blockIndex[hashes[0]], how);
      }
      PurgeBlocksQuiet(w1, hashes[1..], how);
      QuietTransitive(w.entries, w1.entries, PurgeBlocks(w, hashes, how).entries);
    }
  }

  lemma {:induction false} TrackOutputsFresh(w: Watcher, cb: Coinbase, hash: string, daa: nat, k: nat)
    requires k <= |cb.outputs|
    ensures var es := TrackOutputs(w, cb, hash, daa, k).entries;
      w.entries <= es && forall i | |w.entries| <= i < |es| :: IsFresh(es[i])
    decreases |cb.outputs| - k
  {
    if k < |cb.outputs| {
      TrackOutputsFresh(TrackOutput(w, cb, hash, daa, k), cb, hash, daa, k + 1);
    }
  }

  /** Entries a step starts from: a block may compact the list first. */
  ghost function Survivors(w: Watcher, ev: Event): seq<Entry> {
    if ev.BlockSeen? then Pruned(w, ev.b).entries else w.entries
  }

  lemma {:induction false} SurvivorsAreEntries(w: Watcher, ev: Event)
    ensures forall e | e in Survivors(w, ev) :: e in w.entries
  {
    LivingKeeps(w.entries);
  }

  lemma {:induction false} BlockQuiet(w: Watcher, b: Block, batch: seq<nat>, built: Option<string>)
    requires MayClaim(BeforeClaim(w, b)) ==> InRange(Heal(BeforeClaim(w, b), b.daa, 0), batch)
    ensures QuietGrowth(Pruned(w, b).entries, FindClaim(BeforeClaim(w, b), b.daa, batch, built).entries)
  {
    var w2 := Pruned(w, b);
    PurgeBlocksQuiet(w2, b.reds, Red);
    var w3, w4 := PurgeBlocks(w2, b.reds, Red), BeforeClaim(w, b);
    if b.isChain && b.coinbase.Some? {
      TrackOutputsFresh(w3, b.coinbase.value, b.hash, b.daa, 0);
    }
    assert w3.entries <= w4.entries && forall i | |w3.entries| <= i < |w4.entries| :: IsFresh(w4.entries[i]);
    HealCoherent(w4, b.daa, 0);
    var es := FindClaim(w4, b.daa, batch, built).entries;
    HealedGrowth(w2.entries, w3.entries, w4.entries, es);
  }

  lemma {:induction false} HealedGrowth(a: seq<Entry>, b: seq<Entry>, c: seq<Entry>, d: seq<Entry>)
    requires QuietList(a, b) && b <= c && (forall i | |b| <= i < |c| :: IsFresh(c[i]))
    requires |d| == |c| && forall i | 0 <= i < |c| :: d[i] == c[i] || exists daa :: d[i] == HealEntry(c[i], daa)
    ensures QuietGrowth(a, d)
  {
    forall i | 0 <= i < |a| ensures Quiet(a[i], d[..|a|][i]) {
      assert Quiet(a[i], b[i]) && c[i] == b[i];
    }
    forall i | |a| <= i < |d| ensures IsFresh(d[i]) {
      assert IsFresh(c[i]);
    }
  }

  lemma {:induction false} ValidatedQuiet(w: Watcher, h: string, onChain: bool)
    ensures QuietList(w.entries, OnBlockValidated(w, h, onChain).entries)
  {
    var w1 := w.(validationPending := w.validationPending - {h});
    if h in w1.blockIndex {
      PurgeIndicesQuiet(w1, w1.blockIndex[h], Ghost);
    }
  }

  lemma {:induction false} QuietIsGrowth(a: seq<Entry>, b: seq<Entry>)
    requires QuietList(a, b)
    ensures QuietGrowth(a, b)
  {
    assert b[..|a|] == b;
  }

  lemma {:induction false} InferenceQuiet(w: Watcher, txid: string, daa: nat, amount: nat, clock: Clock)
    ensures QuietGrowth(w.entries, TrackInference(w, txid, daa, amount).entries)
    ensures QuietGrowth(w.entries, MaybeFlush(TrackInference(w, txid, daa, amount), clock).entries)
  {
    FlushFrame(TrackInference(w, txid, daa, amount), clock);
  }

  lemma {:induction false} StepQuiet(env: Env, w: Watcher, ev: Event)
    requires StepOk(env, w, ev) && !ev.Response?
    ensures QuietGrowth(Survivors(w, ev), Step(env, w, ev).entries)
  {
    match ev
    case BlockSeen(b, batch, built, clock) =>
      BlockQuiet(w, b, batch, built);
      FlushFrame(FindClaim(BeforeClaim(w, b), b.daa, batch, built), clock);
    case Inference(txid, daa, amount, clock) => InferenceQuiet(w, txid, daa, amount, clock);
    case ChainRemoved(hashes, clock) =>
      PurgeBlocksQuiet(w, hashes, Reorg);
      FlushFrame(PurgeBlocks(w, hashes, Reorg), clock);
      QuietIsGrowth(w.entries, Step(env, w, ev).entries);
    case ValidationStarted => QuietIsGrowth(w.entries, Step(env, w, ev).entries);
    case Validated(h, onChain, clock) =>
      ValidatedQuiet(w, h, onChain);
      FlushFrame(OnBlockValidated(w, h, onChain), clock);
      QuietIsGrowth(w.entries, Step(env, w, ev).entries);
    case Unknown(h, clock) =>
      FlushFrame(OnBlockUnknown(w, h), clock);
      QuietIsGrowth(w.entries, Step(env, w, ev).entries);
    case Shutdown(outcome) =>
      FlushFrame(w, ClockOf(ev));
      QuietIsGrowth(w.entries, Step(env, w, ev).entries);
  }

  // ---------------------------------------------------------------- responses

  /** The claim a response answers, if any. */
  ghost function Answered(w: Watcher, ev: Event): Option<seq<Entry>> {
    if ev.Response? && Matched(w, ev.responseTxid, ev.error, ev.pick).Some? then
      Some(w.inFlight[Matched(w, ev.responseTxid, ev.error, ev.pick).value].inputs)
    else None
  }

  /** An entry after a response: answered if its output was in the claim. */
  ghost function AnsweredEntry(w: Watcher, ev: Event, e: Entry): Entry
    requires ev.Response?
  {
    match Answered(w, ev)
    case None => e
    case Some(inputs) =>
      if e.Outpoint() in Outpoints(inputs) then AnswerEntry(e, |inputs|, VerdictOf(ev.error), w.lastDaa) else e
  }

  /** No earlier entry has the outpoint of entry `i`. */
  predicate First(es: seq<Entry>, i: nat)
    requires i < |es|
  {
    forall j | 0 <= j < i :: es[j].Outpoint() != es[i].Outpoint()
  }

  /** The search stops at the first entry of an outpoint. */
  lemma {:induction false} FirstMatchLeast(es: seq<Entry>, o: Outpoint)
    ensures FirstMatch(es, o).Some? ==> forall j | 0 <= j < FirstMatch(es, o).value :: es[j].Outpoint() != o
    decreases |es|
  {
    if es != [] && es[0].Outpoint() != o {
      FirstMatchLeast(es[1..], o);
      assert forall j | 0 < j < |es| :: es[j] == es[1..][j - 1];
    }
  }

  lemma {:induction false} FirstMatchIffFirst(es: seq<Entry>, i: nat)
    requires i < |es|
    ensures FirstMatch(es, es[i].Outpoint()) == Some(i) <==> First(es, i)
  {
    FirstMatchLeast(es, es[i].Outpoint());
  }

  /** A verdict reaches, exactly once, the first entry of each claimed outpoint and no other entry,
  whatever the size of the claim, whatever the verdict, and however often outpoints repeat. */
  lemma {:induction false} AnswerAllAt(w: Watcher, inputs: seq<Entry>, n: nat, v: Verdict, i: nat)
    requires DistinctOutpoints(inputs) && i < |w.entries|
    ensures |AnswerAll(w, inputs, n, v).entries| == |w.entries|
    ensures AnswerAll(w, inputs, n, v).entries[i] ==
      if w.entries[i].Outpoint() in Outpoints(inputs) && First(w.entries, i) then
        AnswerEntry(w.entries[i], n, v, w.lastDaa)
      else w.entries[i]
    decreases |inputs|
  {
    if inputs != [] {
      var o, rest := inputs[0].Outpoint(), inputs[1..];
      RestOutpoints(inputs);
      match FirstMatch(w.entries, o)
      case None => AnswerAllAt(w, rest, n, v, i);
      case Some(k) =>
        FirstMatchIffFirst(w.entries, i);
        AnswerEvolves(w.entries[k], n, v, w.lastDaa);
        var w1 := Put(w, k, AnswerEntry(w.entries[k], n, v, w.lastDaa));
        SameFirst(w.entries, w1.entries, i);
        AnswerAllAt(w1, rest, n, v, i);
    }
  }

  lemma {:induction false} SameFirst(a: seq<Entry>, b: seq<Entry>, i: nat)
    requires |a| == |b| && i < |a| && forall j | 0 <= j < |a| :: b[j].Outpoint() == a[j].Outpoint()
    ensures First(b, i) <==> First(a, i)
  {
  }

  /** What a response does to every entry of any reachable state. */
  lemma {:induction false} ResponseAt(env: Env, w: Watcher, ev: Event, i: nat)
    requires ev.Response? && Inv(env, w) && i < |w.entries|
    ensures |Step(env, w, ev).entries| == |w.entries|
    ensures Step(env, w, ev).entries[i]
      == if First(w.entries, i) then AnsweredEntry(w, ev, w.entries[i]) else w.entries[i]
  {
    var m := Matched(w, ev.responseTxid, ev.error, ev.pick);
    if m.Some? {
      var inputs := w.inFlight[m.value].inputs;
      assert ClaimOk(w.inFlight[m.value], m.value, env.txid);
      AnswerAllAt(Unclaim(w, m.value), inputs, |inputs|, VerdictOf(ev.error), i);
      FlushFrame(OnSubmitResponse(w, ev.responseTxid, ev.error, ev.pick), ev.clock);
    }
  }

  // ---------------------------------------------------------------- one output along a run

  /** Where the entry of an output comes from in one step. */
  lemma {:induction false} StepOrigin(env: Env, w: Watcher, ev: Event, o: Outpoint)
    requires Inv(env, w) && StepOk(env, w, ev)
    requires DistinctOutpoints(w.entries) && DistinctOutpoints(Step(env, w, ev).entries)
    requires FindEntry(Step(env, w, ev).entries, o).Some?
    ensures var e', before := FindEntry(Step(env, w, ev).entries, o).value, FindEntry(Survivors(w, ev), o);
      && (before.None? ==> !ev.Response? && IsFresh(e'))
      && (before.Some? ==> FindEntry(w.entries, o) == before && (!ev.Response? ==> Quiet(before.value, e')))
      && (ev.Response? ==> before.Some? && e' == AnsweredEntry(w, ev, before.value))
  {
    var w' := Step(env, w, ev);
    var i := FirstMatch(w'.entries, o).value;
    if ev.Response? {
      if |w.entries| > 0 {
        ResponseAt(env, w, ev, 0);
      } else {
        EmptyStaysEmpty(env, w, ev);
      }
      ResponseAt(env, w, ev, i);
      AnswerKeepsOutpoint(w.entries[i], ev);
      FoundAt(w.entries, i);
    } else {
      StepQuiet(env, w, ev);
      QuietOrigin(w, ev, w'.entries, o, i);
    }
  }

  lemma {:induction false} EmptyStaysEmpty(env: Env, w: Watcher, ev: Event)
    requires ev.Response? && Inv(env, w) && w.entries == []
    ensures Step(env, w, ev).entries == []
  {
    ResponseKeeps(env, w, ev.responseTxid, ev.error, ev.pick);
    var m := Matched(w, ev.responseTxid, ev.error, ev.pick);
    if m.Some? {
      var inputs := w.inFlight[m.value].inputs;
      SameIndexesCoherent(w, Unclaim(w, m.value));
      AnswerAllCoherent(Unclaim(w, m.value), inputs, |inputs|, VerdictOf(ev.error));
      FlushFrame(OnSubmitResponse(w, ev.responseTxid, ev.error, ev.pick), ev.clock);
    }
  }

  lemma {:induction false} AnswerKeepsOutpoint(e: Entry, ev: Event)
    requires ev.Response?
    ensures forall n: nat, daa: nat :: AnswerEntry(e, n, VerdictOf(ev.error), daa).Outpoint() == e.Outpoint()
  {
    forall n: nat, daa: nat ensures AnswerEntry(e, n, VerdictOf(ev.error), daa).Outpoint() == e.Outpoint() {
      AnswerEvolves(e, n, VerdictOf(ev.error), daa);
    }
  }

  lemma {:induction false} QuietOrigin(w: Watcher, ev: Event, es: seq<Entry>, o: Outpoint, i: nat)
    requires DistinctOutpoints(w.entries) && DistinctOutpoints(es) && QuietGrowth(Survivors(w, ev), es)
    requires i < |es| && es[i].Outpoint() == o
    ensures var before := FindEntry(Survivors(w, ev), o);
      && (before.None? ==> IsFresh(es[i]))
      && (before.Some? ==> FindEntry(w.entries, o) == before && Quiet(before.value, es[i]))
  {
    var s := Survivors(w, ev);
    SurvivorsAreEntries(w, ev);
    assert forall j | 0 <= j < |s| :: Quiet(s[j], es[..|s|][j]);
    var m := FirstMatch(s, o);
    if m.Some? {
      var k := m.value;
      assert Quiet(s[k], es[..|s|][k]) && es[k].Outpoint() == o;
      assert k == i;
      assert s[k] in w.entries;
      var j :| 0 <= j < |w.entries| && w.entries[j] == s[k];
      FoundAt(w.entries, j);
    }
  }

  // ---------------------------------------------------------------- caps of claims in flight

  /** No claim in flight is larger than any of its members' current caps. */
  ghost predicate CapsHold(w: Watcher) {
    forall t, i | t in w.inFlight && 0 <= i < |w.entries|
      && w.entries[i].Outpoint() in Outpoints(w.inFlight[t].inputs) ::
      |w.inFlight[t].inputs| <= Cap(w.entries[i])
  }

  /** One claim's caps hold over a list. */
  ghost predicate ClaimCaps(c: Claim, es: seq<Entry>) {
    forall i | 0 <= i < |es| && es[i].Outpoint() in Outpoints(c.inputs) :: |c.inputs| <= Cap(es[i])
  }

  lemma {:induction false} QuietCaps(c: Claim, a: seq<Entry>, b: seq<Entry>)
    requires ClaimCaps(c, a) && QuietGrowth(a, b) && |c.inputs| <= MAX_CLAIM_BATCH
    ensures ClaimCaps(c, b)
  {
    forall i | 0 <= i < |b| && b[i].Outpoint() in Outpoints(c.inputs) ensures |c.inputs| <= Cap(b[i]) {
      if i < |a| {
        assert Quiet(a[i], b[..|a|][i]);
      } else {
        assert IsFresh(b[i]);
      }
    }
  }

  lemma {:induction false} SubsetCaps(c: Claim, a: seq<Entry>, b: seq<Entry>)
    requires ClaimCaps(c, a) && forall e | e in b :: e in a
    ensures ClaimCaps(c, b)
  {
    forall i | 0 <= i < |b| && b[i].Outpoint() in Outpoints(c.inputs) ensures |c.inputs| <= Cap(b[i]) {
      assert b[i] in b;
      var j :| 0 <= j < |a| && a[j] == b[i];
    }
  }

  lemma {:induction false} OldClaimCaps(env: Env, w: Watcher, ev: Event, c: Claim)
    requires StepOk(env, w, ev) && !ev.Response? && ClaimCaps(c, w.entries) && |c.inputs| <= MAX_CLAIM_BATCH
    ensures ClaimCaps(c, Step(env, w, ev).entries)
  {
    SurvivorsAreEntries(w, ev);
    SubsetCaps(c, w.entries, Survivors(w, ev));
    StepQuiet(env, w, ev);
    QuietCaps(c, Survivors(w, ev), Step(env, w, ev).entries);
  }

  /** Before a new claim is looked for, claims only go. */
  lemma {:induction false} BeforeClaimBooks(w: Watcher, b: Block)
    ensures var m := BeforeClaim(w, b).inFlight;
      forall t | t in m :: t in w.inFlight && m[t] == w.inFlight[t]
  {
    var w2 := Pruned(w, b);
    PurgeBlocksFrame(w2, b.reds, Red);
    if b.isChain && b.coinbase.Some? {
      TrackOutputsFrame(PurgeBlocks(w2, b.reds, Red), b.coinbase.value, b.hash, b.daa, 0);
    }
    assert BeforeClaim(w, b).inFlight == w2.inFlight;
  }

  lemma {:induction false} FindClaimBooks(w: Watcher, daa: nat, batch: seq<nat>, built: Option<string>, t: string)
    requires MayClaim(w) ==> InRange(Heal(w, daa, 0), batch)
    requires t in FindClaim(w, daa, batch, built).inFlight
    ensures var c := FindClaim(w, daa, batch, built).inFlight[t];
      || (t in w.inFlight && w.inFlight[t] == c)
      || (MayClaim(w) && batch != [] && c.inputs == Inputs(Heal(w, daa, 0), batch))
  {
    HealCoherent(w, daa, 0);
  }

  lemma {:induction false} BlockClaims(w: Watcher, b: Block, batch: seq<nat>, built: Option<string>, t: string)
    requires MayClaim(BeforeClaim(w, b)) ==> InRange(Heal(BeforeClaim(w, b), b.daa, 0), batch)
    requires t in FindClaim(BeforeClaim(w, b), b.daa, batch, built).inFlight
    ensures var c := FindClaim(BeforeClaim(w, b), b.daa, batch, built).inFlight[t];
      || (t in w.inFlight && w.inFlight[t] == c)
      || (MayClaim(BeforeClaim(w, b)) && batch != [] && c.inputs == Inputs(Heal(BeforeClaim(w, b), b.daa, 0), batch))
  {
    var w1 := BeforeClaim(w, b);
    FindClaimBooks(w1, b.daa, batch, built, t);
    BeforeClaimBooks(w, b);
  }

  /** Claims after a step without a response: old ones, and at most one made of the healed list. */
  lemma {:induction false} ClaimsAfter(env: Env, w: Watcher, ev: Event, t: string)
    requires StepOk(env, w, ev) && !ev.Response? && t in Step(env, w, ev).inFlight
    ensures var c := Step(env, w, ev).inFlight[t];
      || (t in w.inFlight && w.inFlight[t] == c)
      || (ev.BlockSeen? && MayClaim(BeforeClaim(w, ev.b)) && ev.batch != []
        && c.inputs == Inputs(Heal(BeforeClaim(w, ev.b), ev.b.daa, 0), ev.batch))
  {
    match ev
    case BlockSeen(b, batch, built, clock) =>
      FlushFrame(FindClaim(BeforeClaim(w, b), b.daa, batch, built), clock);
      BlockClaims(w, b, batch, built, t);
    case Inference(txid, daa, amount, clock) => FlushFrame(TrackInference(w, txid, daa, amount), clock);
    case ChainRemoved(hashes, clock) =>
      PurgeBlocksFrame(w, hashes, Reorg);
      FlushFrame(PurgeBlocks(w, hashes, Reorg), clock);
    case ValidationStarted =>
    case Validated(h, onChain, clock) =>
      var w1 := w.(validationPending := w.validationPending - {h});
      if h in w1.blockIndex {
        PurgeIndicesFrame(w1, w1.blockIndex[h], Ghost);
      }
      FlushFrame(OnBlockValidated(w, h, onChain), clock);
    case Unknown(h, clock) => FlushFrame(OnBlockUnknown(w, h), clock);
    case Shutdown(outcome) => FlushFrame(w, ClockOf(ev));
  }

  lemma {:induction false} NewClaimCaps(env: Env, w: Watcher, ev: Event)
    requires Inv(env, w) && StepOk(env, w, ev) && ev.BlockSeen? && MayClaim(BeforeClaim(w, ev.b)) && ev.batch != []
    requires DistinctOutpoints(Step(env, w, ev).entries)
    ensures ClaimCaps(Claim(Inputs(Heal(BeforeClaim(w, ev.b), ev.b.daa, 0), ev.batch), ev.b.daa),
      Step(env, w, ev).entries)
  {
    BeforeClaimKeeps(env, w, ev.b);
    var w1 := BeforeClaim(w, ev.b);
    HealCoherent(w1, ev.b.daa, 0);
    var healed := Heal(w1, ev.b.daa, 0);
    var inputs, es := Inputs(healed, ev.batch), Step(env, w, ev).entries;
    FlushFrame(FindClaim(w1, ev.b.daa, ev.batch, ev.built), ev.clock);
    assert es == healed.entries;
    SelectedCaps(healed, SelectionView(healed, env.gate, ev.b.daa), ev.batch);
  }

  lemma {:induction false} SelectedCaps(w: Watcher, v: View, batch: seq<nat>)
    requires v.entries == w.entries && GoodBatch(v, batch) && InRange(w, batch) && DistinctOutpoints(w.entries)
    ensures forall i | 0 <= i < |w.entries|
      && w.entries[i].Outpoint() in Outpoints(Inputs(w, batch)) :: |batch| <= Cap(w.entries[i])
  {
    var inputs, es := Inputs(w, batch), w.entries;
    forall i | 0 <= i < |es| && es[i].Outpoint() in Outpoints(inputs) ensures |batch| <= Cap(es[i]) {
      var e :| e in inputs && e.Outpoint() == es[i].Outpoint();
      var a :| 0 <= a < |inputs| && inputs[a] == e;
      assert es[batch[a]] == e;
      assert i == batch[a];
    }
  }

  /** Every watcher starts out with what the run theorems ask for. */
  lemma {:induction false} LoadedStarts(env: Env, entries: seq<Entry>, s: nat, disk: Disk)
    requires LiveLast(entries) && LiveLast(disk.snapshot)
    ensures Inv(env, Loaded(entries, s, disk)) && CapsHold(Loaded(entries, s, disk))
  {
    RebuildCoherent(Watcher(entries, s, [], map[], {}, 0, {}, map[], false, 0, 0, {}, disk));
    assert AllOutpoints(map[]) == {};
  }

  lemma {:induction false} CapsHoldFor(w: Watcher, t: string)
    requires CapsHold(w) && t in w.inFlight
    ensures ClaimCaps(w.inFlight[t], w.entries)
  {
  }

  lemma {:induction false} QuietStepCaps(env: Env, w: Watcher, ev: Event)
    requires Inv(env, w) && CapsHold(w) && StepOk(env, w, ev) && !ev.Response?
    requires DistinctOutpoints(Step(env, w, ev).entries)
    ensures CapsHold(Step(env, w, ev))
  {
    var w' := Step(env, w, ev);
    forall t | t in w'.inFlight ensures ClaimCaps(w'.inFlight[t], w'.entries) {
      ClaimsAfter(env, w, ev, t);
      if t in w.inFlight && w.inFlight[t] == w'.inFlight[t] {
        assert ClaimOk(w.inFlight[t], t, env.txid);
        CapsHoldFor(w, t);
        OldClaimCaps(env, w, ev, w.inFlight[t]);
      } else {
        NewClaimCaps(env, w, ev);
      }
    }
  }

  /** A response takes its claim out of the books and leaves the others. */
  lemma {:induction false} ResponseBooks(env: Env, w: Watcher, ev: Event)
    requires ev.Response? && Matched(w, ev.responseTxid, ev.error, ev.pick).Some?
    ensures Step(env, w, ev).inFlight == w.inFlight - {Matched(w, ev.responseTxid, ev.error, ev.pick).value}
  {
    var t := Matched(w, ev.responseTxid, ev.error, ev.pick).value;
    var inputs := w.inFlight[t].inputs;
    AnswerAllFrame(Unclaim(w, t), inputs, |inputs|, VerdictOf(ev.error));
    FlushFrame(OnSubmitResponse(w, ev.responseTxid, ev.error, ev.pick), ev.clock);
  }

  /** An output of another claim is not answered. */
  lemma {:induction false} OthersUnanswered(env: Env, w: Watcher, ev: Event, t: string, i: nat)
    requires Inv(env, w) && ev.Response? && i < |w.entries|
    requires var m := Matched(w, ev.responseTxid, ev.error, ev.pick);
      m.Some? && t in w.inFlight && t != m.value
    ensures |Step(env, w, ev).entries| == |w.entries|
    ensures Step(env, w, ev).entries[i].Outpoint() == w.entries[i].Outpoint()
    ensures w.entries[i].Outpoint() in Outpoints(w.inFlight[t].inputs) ==> Step(env, w, ev).entries[i] == w.entries[i]
  {
    var t0 := Matched(w, ev.responseTxid, ev.error, ev.pick).value;
    ResponseAt(env, w, ev, i);
    AnswerEvolves(w.entries[i], |w.inFlight[t0].inputs|, VerdictOf(ev.error), w.lastDaa);
    assert Separate(w.inFlight, t, t0);
  }

  lemma {:induction false} ResponseCaps(env: Env, w: Watcher, ev: Event)
    requires Inv(env, w) && CapsHold(w) && ev.Response?
    ensures CapsHold(Step(env, w, ev))
  {
    var w', m := Step(env, w, ev), Matched(w, ev.responseTxid, ev.error, ev.pick);
    if m.Some? && w.entries != [] {
      ResponseAt(env, w, ev, 0);
      ResponseBooks(env, w, ev);
      forall t, i | t in w'.inFlight && 0 <= i < |w'.entries|
        && w'.entries[i].Outpoint() in Outpoints(w'.inFlight[t].inputs)
        ensures |w'.inFlight[t].inputs| <= Cap(w'.entries[i])
      {
        OthersUnanswered(env, w, ev, t, i);
      }
    } else if m.Some? {
      EmptyStaysEmpty(env, w, ev);
    }
  }

  lemma {:induction false} RunCaps(env: Env, w: Watcher, evs: seq<Event>)
    requires Inv(env, w) && Injective(env.txid) && CapsHold(w) && Runs(env, w, evs) && DistinctRun(env, w, evs)
    ensures CapsHold(After(env, w, evs))
    decreases |evs|
  {
    if evs != [] {
      var n := |evs| - 1;
      RunCaps(env, w, evs[..n]);
      RunKeeps(env, w, evs[..n]);
      var w1 := After(env, w, evs[..n]);
      assert DistinctRun(env, w, evs[..n]);
      if evs[n].Response? {
        ResponseCaps(env, w1, evs[n]);
      } else {
        QuietStepCaps(env, w1, evs[n]);
      }
    }
  }

  // ---------------------------------------------------------------- orphan counting and slashing

  /** The event is an orphan rejection of a claim of this output alone. */
  ghost predicate SoloOrphan(w: Watcher, ev: Event, o: Outpoint) {
    && ev.Response? && Answered(w, ev).Some? && o in Outpoints(Answered(w, ev).value) && |Answered(w, ev).value| == 1
    && VerdictOf(ev.error).Rejected? && VerdictOf(ev.error).why.orphan
  }

  /** Solo orphan rejections of an output since it was last tracked, on top of what it started with. */
  ghost function SoloOrphans(env: Env, w: Watcher, evs: seq<Event>, o: Outpoint): nat
    requires Runs(env, w, evs)
    decreases |evs|
  {
    if evs == [] then (if FindEntry(w.entries, o).Some? then FindEntry(w.entries, o).value.orphanRetries else 0)
    else
      var n := |evs| - 1;
      var w1 := After(env, w, evs[..n]);
      if FindEntry(Survivors(w1, evs[n]), o).None? then 0
      else SoloOrphans(env, w, evs[..n], o) + (if SoloOrphan(w1, evs[n], o) then 1 else 0)
  }

  lemma {:induction false} RejectCounts(e: Entry, n: nat, r: Rejection, daa: nat)
    ensures RejectEntry(e, n, r, daa).orphanRetries == e.orphanRetries + (if r.orphan && n <= 1 then 1 else 0)
  {
  }

  lemma {:induction false} AnswerCounts(w: Watcher, ev: Event, e: Entry)
    requires ev.Response? && (Answered(w, ev).Some? ==> |Answered(w, ev).value| >= 1)
    ensures AnsweredEntry(w, ev, e).orphanRetries
      == e.orphanRetries + (if SoloOrphan(w, ev, e.Outpoint()) then 1 else 0)
  {
    if Answered(w, ev).Some? && VerdictOf(ev.error).Rejected? {
      RejectCounts(e, |Answered(w, ev).value|, VerdictOf(ev.error).why, w.lastDaa);
    }
  }

  lemma {:induction false} AnsweredNonEmpty(env: Env, w: Watcher, ev: Event)
    requires Inv(env, w) && ev.Response? && Answered(w, ev).Some?
    ensures 1 <= |Answered(w, ev).value| <= MAX_CLAIM_BATCH
  {
    var t := Matched(w, ev.responseTxid, ev.error, ev.pick).value;
    assert ClaimOk(w.inFlight[t], t, env.txid);
  }

  /** One step's effect on the count. */
  lemma {:induction false} StepRetries(env: Env, w: Watcher, ev: Event, o: Outpoint)
    requires Inv(env, w) && StepOk(env, w, ev)
    requires DistinctOutpoints(w.entries) && DistinctOutpoints(Step(env, w, ev).entries)
    requires FindEntry(Step(env, w, ev).entries, o).Some?
    ensures var e', before := FindEntry(Step(env, w, ev).entries, o).value, FindEntry(Survivors(w, ev), o);
      && (before.None? ==> e'.orphanRetries == 0)
      && (before.Some? ==> FindEntry(w.entries, o).Some?)
      && (before.Some? ==>
        e'.orphanRetries == FindEntry(w.entries, o).value.orphanRetries + (if SoloOrphan(w, ev, o) then 1 else 0))
  {
    StepOrigin(env, w, ev, o);
    var before := FindEntry(Survivors(w, ev), o);
    if before.Some? && ev.Response? {
      if Answered(w, ev).Some? { AnsweredNonEmpty(env, w, ev); }
      AnswerCounts(w, ev, before.value);
    }
  }

  /** Over any run, `orphanRetries` is exactly the number of solo orphan rejections: batch rejections and
  other reasons never count, and forgiveness never takes one back. */
  lemma {:induction false} RetriesCountSoloOrphans(env: Env, w: Watcher, evs: seq<Event>, o: Outpoint)
    requires Inv(env, w) && Injective(env.txid) && Runs(env, w, evs) && DistinctRun(env, w, evs)
    requires FindEntry(After(env, w, evs).entries, o).Some?
    ensures FindEntry(After(env, w, evs).entries, o).value.orphanRetries == SoloOrphans(env, w, evs, o)
    decreases |evs|
  {
    if evs != [] {
      var n := |evs| - 1;
      RunKeeps(env, w, evs[..n]);
      StepRetries(env, After(env, w, evs[..n]), evs[n], o);
      if FindEntry(Survivors(After(env, w, evs[..n]), evs[n]), o).Some? {
        RetriesCountSoloOrphans(env, w, evs[..n], o);
      }
    }
  }

  /** The three ways a response slashes an entry. */
  ghost predicate SlashReason(w: Watcher, ev: Event, e: Entry)
    requires ev.Response?
  {
    && Answered(w, ev).Some? && e.Outpoint() in Outpoints(Answered(w, ev).value) && VerdictOf(ev.error).Rejected?
    && var r, n := VerdictOf(ev.error).why, |Answered(w, ev).value|;
      || (r.orphan && n == 1 && e.orphanRetries + 1 >= MAX_ORPHAN_RETRIES)
      || (!r.orphan && !r.seqLock && r.burned && (Lower(e.txid), e.outputIndex) in r.burnedSet)
      || (!r.orphan && !r.seqLock && r.burned && r.burnedSet == {} && n == 1)
  }

  lemma {:induction false} AnswerSlashes(w: Watcher, ev: Event, e: Entry)
    requires ev.Response? && !e.slashed && (Answered(w, ev).Some? ==> |Answered(w, ev).value| >= 1)
    ensures AnsweredEntry(w, ev, e).slashed <==> SlashReason(w, ev, e)
  {
  }

  /** No slash by association: over any run, a response slashes an output exactly when that output
  itself has now been rejected alone as an orphan for the tenth time, is on the node's burned list, or
  was burned in a claim of its own. Nothing a fellow member did can slash it. */
  lemma {:induction false} NoSlashByAssociation(env: Env, w: Watcher, evs: seq<Event>, o: Outpoint)
    requires Inv(env, w) && Injective(env.txid) && Runs(env, w, evs) && DistinctRun(env, w, evs)
    requires evs != [] && evs[|evs| - 1].Response?
    requires FindEntry(After(env, w, evs[..|evs| - 1]).entries, o).Some?
      && !FindEntry(After(env, w, evs[..|evs| - 1]).entries, o).value.slashed
    requires FindEntry(After(env, w, evs).entries, o).Some?
    ensures var w1, ev := After(env, w, evs[..|evs| - 1]), evs[|evs| - 1]; var e := FindEntry(w1.entries, o).value;
      && e.Outpoint() == o
      && (FindEntry(After(env, w, evs).entries, o).value.slashed <==> SlashReason(w1, ev, e))
      && (SlashReason(w1, ev, e) && VerdictOf(ev.error).why.orphan ==>
        SoloOrphans(env, w, evs, o) >= MAX_ORPHAN_RETRIES)
  {
    var n := |evs| - 1;
    var w1, ev := After(env, w, evs[..n]), evs[n];
    RunKeeps(env, w, evs[..n]);
    StepOrigin(env, w1, ev, o);
    var e := FindEntry(w1.entries, o).value;
    if Answered(w1, ev).Some? { AnsweredNonEmpty(env, w1, ev); }
    AnswerSlashes(w1, ev, e);
    RetriesCountSoloOrphans(env, w, evs[..n], o);
  }

  // ---------------------------------------------------------------- bisection

  /** Rejections that halve a batch: orphan, unrecognised, or burned without a list. */
  predicate Bisecting(r: Rejection) {
    r.orphan || (!r.seqLock && (r.burned ==> r.burnedSet == {}))
  }

  ghost predicate Bisects(w: Watcher, ev: Event, o: Outpoint) {
    && ev.Response? && Answered(w, ev).Some? && o in Outpoints(Answered(w, ev).value) && |Answered(w, ev).value| > 1
    && VerdictOf(ev.error).Rejected? && Bisecting(VerdictOf(ev.error).why)
  }

  /** The count after one more event, which leaves the output's entry as `after`. */
  ghost function NextCount(w: Watcher, ev: Event, o: Outpoint, after: Option<Entry>, r: nat): nat {
    if FindEntry(Survivors(w, ev), o).None? || (after.Some? && after.value.batchCap == 0) then 0
    else if Bisects(w, ev, o) then r + 1
    else r
  }

  /** Bisecting rejections of an output since it was last uncapped. */
  ghost function Bisections(env: Env, w: Watcher, evs: seq<Event>, o: Outpoint): nat
    requires Runs(env, w, evs)
    decreases |evs|
  {
    if evs == [] then 0
    else
      var n := |evs| - 1;
      NextCount(After(env, w, evs[..n]), evs[n], o, FindEntry(After(env, w, evs).entries, o),
        Bisections(env, w, evs[..n], o))
  }

  /** 87 halved `r` times, never below one. */
  function HalvedBy(r: nat): (cap: nat)
    ensures 1 <= cap <= MAX_CLAIM_BATCH
  {
    if r == 0 then MAX_CLAIM_BATCH
    else if HalvedBy(r - 1) / 2 < 1 then 1 else HalvedBy(r - 1) / 2
  }

  lemma {:induction false} AnswerHalves(w: Watcher, ev: Event, e: Entry, r: nat)
    requires ev.Response? && Cap(e) <= HalvedBy(r)
    requires Answered(w, ev).Some? && e.Outpoint() in Outpoints(Answered(w, ev).value) ==>
      1 <= |Answered(w, ev).value| <= Cap(e)
    ensures var e' := AnsweredEntry(w, ev, e);
      && (Bisects(w, ev, e.Outpoint()) ==> e'.batchCap == |Answered(w, ev).value| / 2 && Cap(e') <= HalvedBy(r + 1))
      && (!Bisects(w, ev, e.Outpoint()) ==> e'.batchCap == e.batchCap)
  {
  }

  /** One step's effect on the cap. */
  lemma {:induction false} StepCap(env: Env, w: Watcher, ev: Event, o: Outpoint, r: nat)
    requires Inv(env, w) && StepOk(env, w, ev) && CapsHold(w)
    requires DistinctOutpoints(w.entries) && DistinctOutpoints(Step(env, w, ev).entries)
    requires FindEntry(Step(env, w, ev).entries, o).Some?
    requires FindEntry(w.entries, o).Some? ==> Cap(FindEntry(w.entries, o).value) <= HalvedBy(r)
    ensures var after := FindEntry(Step(env, w, ev).entries, o);
      Cap(after.value) <= HalvedBy(NextCount(w, ev, o, after, r))
  {
    var before, after := FindEntry(Survivors(w, ev), o), FindEntry(Step(env, w, ev).entries, o);
    StepOrigin(env, w, ev, o);
    if before.Some? {
      FoundOutpoint(w.entries, o);
      if ev.Response? {
        AnsweredWithinCap(env, w, ev, o);
        AnswerHalves(w, ev, before.value, r);
      }
    }
  }

  lemma {:induction false} FoundOutpoint(es: seq<Entry>, o: Outpoint)
    requires FindEntry(es, o).Some?
    ensures FindEntry(es, o).value.Outpoint() == o
  {
  }

  /** Bisection: after `r` bisecting rejections with no expiry an output's cap is at most 87 halved `r`
  times, because every claim it was in respected the cap it had. */
  lemma {:induction false} CapHalves(env: Env, w: Watcher, evs: seq<Event>, o: Outpoint)
    requires Inv(env, w) && Injective(env.txid) && CapsHold(w) && Runs(env, w, evs) && DistinctRun(env, w, evs)
    requires FindEntry(After(env, w, evs).entries, o).Some?
    ensures Cap(FindEntry(After(env, w, evs).entries, o).value) <= HalvedBy(Bisections(env, w, evs, o))
    decreases |evs|
  {
    if evs != [] {
      var n := |evs| - 1;
      var w1 := After(env, w, evs[..n]);
      RunKeeps(env, w, evs[..n]);
      RunCaps(env, w, evs[..n]);
      if FindEntry(w1.entries, o).Some? {
        CapHalves(env, w, evs[..n], o);
      }
      StepCap(env, w1, evs[n], o, Bisections(env, w, evs[..n], o));
    }
  }

  lemma {:induction false} AnsweredWithinCap(env: Env, w: Watcher, ev: Event, o: Outpoint)
    requires Inv(env, w) && CapsHold(w) && ev.Response? && FindEntry(w.entries, o).Some?
    ensures Answered(w, ev).Some? && o in Outpoints(Answered(w, ev).value) ==>
      1 <= |Answered(w, ev).value| <= Cap(FindEntry(w.entries, o).value)
  {
    if Answered(w, ev).Some? {
      AnsweredNonEmpty(env, w, ev);
      var t := Matched(w, ev.responseTxid, ev.error, ev.pick).value;
      CapsHoldFor(w, t);
    }
  }

  lemma {:induction false} SixHalvings(r: nat)
    requires r >= 6
    ensures HalvedBy(r) == 1
  {
    if r > 6 {
      SixHalvings(r - 1);
    } else {
      assert HalvedBy(1) == 43 && HalvedBy(2) == 21 && HalvedBy(3) == 10;
      assert HalvedBy(4) == 5 && HalvedBy(5) == 2;
    }
  }

  /** Bisection converges: with six bisecting rejections since it was last uncapped, an output is only
  ever claimed alone. */
  lemma {:induction false} SixRejectionsIsolate(env: Env, w: Watcher, evs: seq<Event>, o: Outpoint, t: string)
    requires Inv(env, w) && Injective(env.txid) && CapsHold(w) && Runs(env, w, evs) && DistinctRun(env, w, evs)
    requires FindEntry(After(env, w, evs).entries, o).Some? && Bisections(env, w, evs, o) >= 6
    requires t in After(env, w, evs).inFlight && o in Outpoints(After(env, w, evs).inFlight[t].inputs)
    ensures |After(env, w, evs).inFlight[t].inputs| == 1
  {
    var w' := After(env, w, evs);
    CapHalves(env, w, evs, o);
    SixHalvings(Bisections(env, w, evs, o));
    RunCaps(env, w, evs);
    RunKeeps(env, w, evs);
    CapsHoldFor(w', t);
    assert ClaimOk(w'.inFlight[t], t, env.txid);
  }
}
