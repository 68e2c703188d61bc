/** What a block does to the watcher, field by field (src/escrow.rs:529-603, 828-897). Nothing here goes
through the transitions: each clause says when one field of one entry changes, and to what. */
module EscrowBlocks {
  import opened Halving
  import opened Outcomes
  import opened EscrowEntries
  import opened EscrowChoice
  import opened EscrowModel
  import opened EscrowIndexes
  import opened EscrowClaims
  import opened EscrowSteps
  import opened EscrowLives

  // ---------------------------------------------------------------- claims that timed out

  /** The claims sent less than 600 scores ago. */
  ghost function Unexpired(m: map<string, Claim>, daa: nat): map<string, Claim> {
    map t | t in m && daa < m[t].submitDaa + 600 :: m[t]
  }

  /** Claims are looked for while fewer than four are unanswered and no block awaits validation. */
  ghost predicate Looks(w: Watcher, daa: nat) {
    |Unexpired(w.inFlight, daa)| < 4 && w.validationPending == {}
  }

  // ---------------------------------------------------------------- entries carried on

  /** Every 2000th block drops the dead entries. */
  ghost predicate Drops(w: Watcher) {
    w.blocksSinceCompact + 1 >= 2_000
  }

  /** `kept` holds the live entries of `es` and no others, in their order. */
  ghost predicate LivingInOrder(es: seq<Entry>, kept: seq<Entry>) {
    exists at :: KeptAt(es, kept, at)
  }

  ghost predicate KeptAt(es: seq<Entry>, kept: seq<Entry>, at: seq<nat>) {
    && |at| == |kept|
    && (forall k | 0 <= k < |at| :: at[k] < |es| && kept[k] == es[at[k]])
    && (forall j, k | 0 <= j < k < |at| :: at[j] < at[k])
    && (forall i: nat | i < |es| :: es[i].Live() <==> i in at)
  }

  ghost predicate CarriedOver(w: Watcher, s: seq<Entry>) {
    if Drops(w) then LivingInOrder(w.entries, s) else s == w.entries
  }

  /** The orphan verdict has not been confirmed for 36000 scores, doubled with every solo rejection up to
  the tenth. */
  ghost predicate Forgiven(e: Entry, daa: nat) {
    var doublings := if e.orphanRetries < 10 then e.orphanRetries else 10;
    e.retryAfterDaa.None? || daa >= e.retryAfterDaa.value + 36_000 * Pow2(doublings)
  }

  ghost predicate SameOutput(e: Entry, e': Entry) {
    && e'.txid == e.txid && e'.blockHash == e.blockHash && e'.confirmDaa == e.confirmDaa && e'.amount == e.amount
    && e'.outputIndex == e.outputIndex && e'.isInference == e.isInference && e'.csvWindow == e.csvWindow
  }

  /** An entry carried over a block: slashed exactly if it is a live coinbase entry of a block the new one
  calls red; cap and orphan verdict expire exactly when claims are looked for and their time is up. */
  ghost predicate EntryAfterBlock(e: Entry, e': Entry, b: Block, looks: bool) {
    && SameOutput(e, e') && e'.claimed == e.claimed
    && e'.orphanRetries == e.orphanRetries && e'.retryAfterDaa == e.retryAfterDaa
    && e'.submitRetries == e.submitRetries && e'.capSetDaa == e.capSetDaa
    && (e'.slashed <==> e.slashed || (!e.claimed && !e.isInference && e.blockHash != "" && e.blockHash in b.reds))
    && e'.batchCap == (if looks && b.daa >= e.capSetDaa + 36_000 then 0 else e.batchCap)
    && (e'.orphanSlashed <==> e.orphanSlashed && !(looks && Forgiven(e, b.daa)))
  }

  // ---------------------------------------------------------------- entries that join

  /** A fresh entry for output `x` of the coinbase. */
  ghost predicate FreshOutput(e: Entry, cb: Coinbase, x: nat, hash: string, daa: nat) {
    && x < |cb.outputs| && cb.outputs[x].window == Some(e.csvWindow)
    && e.txid == cb.txid && e.outputIndex == x && e.amount == cb.outputs[x].amount
    && e.blockHash == hash && e.confirmDaa == daa
    && !e.claimed && !e.slashed && !e.orphanSlashed && !e.isInference
    && e.orphanRetries == 0 && e.submitRetries == 0 && e.batchCap == 0 && e.capSetDaa == 0 && e.retryAfterDaa.None?
  }

  /** The outpoint of output `x` pays us and is not tracked. */
  ghost predicate Joins(cb: Coinbase, tracked: set<Outpoint>, x: nat) {
    x < |cb.outputs| && cb.outputs[x].window.Some? && (cb.txid, x) !in tracked
  }

  /** Behind the carried entries, in output order, one fresh entry for each output of a chain block that joins;
  their outpoints are tracked from then on. */
  ghost predicate EntriesJoined(tracked: set<Outpoint>, b: Block, n: nat, es: seq<Entry>, tracked': set<Outpoint>) {
    if b.isChain && b.coinbase.Some? then
      var cb := b.coinbase.value;
      && n <= |es|
      && (forall i | n <= i < |es| :: Joined(cb, tracked, es[i], b.hash, b.daa))
      && (forall i, j | n <= i < j < |es| :: es[i].outputIndex < es[j].outputIndex)
      && (forall x | Joins(cb, tracked, x) :: exists i :: n <= i < |es| && es[i].outputIndex == x)
      && (forall o :: o in tracked' <==> o in tracked || (o.0 == cb.txid && Joins(cb, tracked, o.1)))
    else |es| == n && tracked' == tracked
  }

  ghost predicate Joined(cb: Coinbase, tracked: set<Outpoint>, e: Entry, hash: string, daa: nat) {
    Joins(cb, tracked, e.outputIndex) && FreshOutput(e, cb, e.outputIndex, hash, daa)
  }

  /** What is tracked once the dead are dropped: the outpoints of the living, if any was dropped. */
  ghost predicate TrackedFrom(w: Watcher, s: seq<Entry>, tracked: set<Outpoint>) {
    if Drops(w) && exists e :: e in w.entries && !e.Live() then
      forall o :: o in tracked <==> exists e :: e in s && e.Outpoint() == o
    else tracked == w.tracked
  }

  // ---------------------------------------------------------------- the claim

  /** The window coinbases mint at score `daa`. */
  ghost function WindowAt(gate: nat, daa: nat): nat {
    if daa < gate then 36_000 else 792_000
  }

  /** The claim a block may leave: the members of the selected batch, all spendable and of one window. */
  ghost predicate ClaimOf(env: Env, es: seq<Entry>, daa: nat, busy: set<Outpoint>, batch: seq<nat>,
      inputs: seq<Entry>)
  {
    && ChosenFairly(View(es, daa, busy, WindowAt(env.gate, daa)), batch)
    && |inputs| == |batch| <= 87
    && (forall a | 0 <= a < |batch| :: batch[a] < |es| && inputs[a] == es[batch[a]])
    && (forall a | 0 <= a < |inputs| :: Spendable(inputs[a], daa, busy) && inputs[a].csvWindow == inputs[0].csvWindow)
    && (forall i, j | 0 <= i < j < |inputs| :: inputs[i].Outpoint() != inputs[j].Outpoint())
  }

  /** A claim is sent exactly when one is looked for, something is selected and it can be built; it joins the
  unanswered ones under its own txid. */
  ghost predicate ClaimMade(env: Env, kept: map<string, Claim>, looks: bool, es: seq<Entry>, daa: nat,
      batch: seq<nat>, built: Option<string>, inFlight: map<string, Claim>)
  {
    if looks && batch != [] then
      exists inputs ::
        && ClaimOf(env, es, daa, AllOutpoints(kept), batch, inputs)
        && (built.Some? ==> built.value == env.txid(inputs) && built.value !in kept)
        && inFlight == if built.Some? then kept[built.value := Claim(inputs, daa)] else kept
    else
      inFlight == kept && (looks ==> NothingWorthSending(View(es, daa, AllOutpoints(kept), WindowAt(env.gate, daa))))
  }

  /** The whole block: timed-out claims go, the dead are dropped when due, red blocks lose their entries,
  escrow outputs join, verdicts expire, and at most one claim is sent. */
  ghost predicate BlockLaw(env: Env, w: Watcher, ev: Event, w': Watcher)
    requires ev.BlockSeen?
  {
    && (exists s, tracked ::
          && CarriedOver(w, s) && TrackedFrom(w, s, tracked)
          && |s| <= |w'.entries|
          && (forall i | 0 <= i < |s| :: EntryAfterBlock(s[i], w'.entries[i], ev.b, Looks(w, ev.b.daa)))
          && EntriesJoined(tracked, ev.b, |s|, w'.entries, w'.tracked))
    && ClaimMade(env, Unexpired(w.inFlight, ev.b.daa), Looks(w, ev.b.daa), w'.entries, ev.b.daa, ev.batch, ev.built,
      w'.inFlight)
    && w'.lastDaa == ev.b.daa && w'.validationPending == w.validationPending
    && w'.blocksSinceCompact == (if Drops(w) then 0 else w.blocksSinceCompact + 1)
  }

  // ---------------------------------------------------------------- proofs: the list

  lemma {:induction false} LivingOrdered(es: seq<Entry>) returns (at: seq<nat>)
    ensures KeptAt(es, Living(es), at)
    decreases |es|
  {
    if es == [] {
      at := [];
    } else {
      var before := LivingOrdered(es[..|es| - 1]);
      at := before + if es[|es| - 1].Live() then [|es| - 1] else [];
      OneMoreKept(es, Living(es[..|es| - 1]), before, Living(es), at);
    }
  }

  lemma {:induction false} OneMoreKept(es: seq<Entry>, before: seq<Entry>, was: seq<nat>, kept: seq<Entry>,
      at: seq<nat>)
    requires es != [] && KeptAt(es[..|es| - 1], before, was)
    requires var n := |es| - 1;
      && kept == before + (if es[n].Live() then [es[n]] else [])
      && at == was + if es[n].Live() then [n] else []
    ensures KeptAt(es, kept, at)
  {
    var n := |es| - 1;
    assert forall i: nat | i < n :: es[..n][i] == es[i];
    forall i: nat | i < |es| ensures es[i].Live() <==> i in at {
      assert i < n ==> (i in at <==> i in was);
      assert i == n ==> i !in was;
    }
  }

  lemma {:induction false} PrunedCarries(w: Watcher, b: Block)
    ensures CarriedOver(w, Pruned(w, b).entries) && TrackedFrom(w, Pruned(w, b).entries, Pruned(w, b).tracked)
  {
    LivingKeeps(w.entries);
    if Drops(w) {
      var at := LivingOrdered(w.entries);
      if forall e | e in w.entries :: e.Live() {
        LivingAll(w.entries);
      }
    }
  }

  /** What else compaction leaves alone. */
  lemma {:induction false} PrunedFrame(w: Watcher, b: Block)
    ensures var w2 := Pruned(w, b);
      && w2.inFlight == Unexpired(w.inFlight, b.daa) && w2.lastDaa == b.daa
      && w2.validationPending == w.validationPending
      && w2.blocksSinceCompact == (if Drops(w) then 0 else w.blocksSinceCompact + 1)
  {
  }

  lemma {:induction false} BeforeClaimLaw(env: Env, w: Watcher, b: Block)
    requires Inv(env, w)
    ensures var w2, w4 := Pruned(w, b), BeforeClaim(w, b);
      && |w2.entries| <= |w4.entries|
      && (forall i | 0 <= i < |w2.entries| :: w4.entries[i] == PurgedWith(w2.entries[i], b.reds, Red))
      && EntriesJoined(w2.tracked, b, |w2.entries|, w4.entries, w4.tracked)
      && w4.inFlight == w2.inFlight && w4.lastDaa == b.daa && w4.validationPending == w.validationPending
      && w4.blocksSinceCompact == (if Drops(w) then 0 else w.blocksSinceCompact + 1)
  {
    var w2 := Pruned(w, b);
    PrunedFrame(w, b);
    PrunedKeeps(env, w, b);
    PurgeBlocksCoherent(w2, b.reds, Red);
    PurgeBlocksFrame(w2, b.reds, Red);
    PurgeBlocksTracked(w2, b.reds, Red);
    if b.isChain && b.coinbase.Some? {
      var w3, cb := PurgeBlocks(w2, b.reds, Red), b.coinbase.value;
      TrackOutputsFrame(w3, cb, b.hash, b.daa, 0);
      TrackOutputsExact(w3, cb, b.hash, b.daa, 0);
      TrackedJoin(w3, BeforeClaim(w, b), b);
    }
  }

  lemma {:induction false} TrackedJoin(w3: Watcher, w4: Watcher, b: Block)
    requires b.isChain && b.coinbase.Some? && TracksExactly(w3, w4, b.coinbase.value, b.hash, b.daa, 0)
    ensures EntriesJoined(w3.tracked, b, |w3.entries|, w4.entries, w4.tracked)
  {
    var cb := b.coinbase.value;
    forall i | |w3.entries| <= i < |w4.entries| ensures Joined(cb, w3.tracked, w4.entries[i], b.hash, b.daa) {
      assert NewlyTracked(w3, w4.entries[i], cb, b.hash, b.daa, 0);
    }
    forall x | Joins(cb, w3.tracked, x)
      ensures exists i :: |w3.entries| <= i < |w4.entries| && w4.entries[i].outputIndex == x {
      assert Trackable(w3, cb, x);
    }
    forall o ensures o in w4.tracked <==> o in w3.tracked || (o.0 == cb.txid && Joins(cb, w3.tracked, o.1)) {
      assert Trackable(w3, cb, o.1) <==> Joins(cb, w3.tracked, o.1);
    }
  }

  /** Expiry of caps and verdicts, in fields. */
  lemma {:induction false} HealedEntry(e: Entry, b: Block, looks: bool)
    ensures var p := PurgedWith(e, b.reds, Red);
      EntryAfterBlock(e, if looks then HealEntry(p, b.daa) else p, b, looks)
  {
    HealedFields(PurgedWith(e, b.reds, Red), b.daa);
  }

  lemma {:induction false} HealedFields(e: Entry, daa: nat)
    ensures HealEntry(e, daa) == e.(
      batchCap := if daa >= e.capSetDaa + 36_000 then 0 else e.batchCap,
      orphanSlashed := e.orphanSlashed && !Forgiven(e, daa))
  {
  }

  lemma {:induction false} FreshStays(e: Entry, cb: Coinbase, tracked: set<Outpoint>, hash: string, daa: nat)
    requires Joined(cb, tracked, e, hash, daa)
    ensures HealEntry(e, daa) == e
  {
  }

  /** The list and the indexes after a claim was looked for. */
  lemma {:induction false} FindClaimLaw(w: Watcher, daa: nat, batch: seq<nat>, built: Option<string>)
    requires MayClaim(w) ==> InRange(Heal(w, daa, 0), batch)
    ensures var w' := FindClaim(w, daa, batch, built);
      && |w'.entries| == |w.entries|
      && (forall i | 0 <= i < |w.entries| ::
            w'.entries[i] == if MayClaim(w) then HealEntry(w.entries[i], daa) else w.entries[i])
      && w'.tracked == w.tracked && w'.lastDaa == w.lastDaa && w'.validationPending == w.validationPending
      && w'.blocksSinceCompact == w.blocksSinceCompact
      && (MayClaim(w) ==> w'.entries == Heal(w, daa, 0).entries)
  {
    HealCoherent(w, daa, 0);
  }

  /** The list a block leaves behind. */
  lemma {:induction false} ListLaw(env: Env, w: Watcher, ev: Event)
    requires Inv(env, w) && ev.BlockSeen? && StepOk(env, w, ev)
    ensures var s, w' := Pruned(w, ev.b).entries, FindClaim(BeforeClaim(w, ev.b), ev.b.daa, ev.batch, ev.built);
      && |s| <= |w'.entries|
      && (forall i | 0 <= i < |s| :: EntryAfterBlock(s[i], w'.entries[i], ev.b, Looks(w, ev.b.daa)))
      && EntriesJoined(Pruned(w, ev.b).tracked, ev.b, |s|, w'.entries, w'.tracked)
  {
    var b, w2, w4 := ev.b, Pruned(w, ev.b), BeforeClaim(w, ev.b);
    PrunedFrame(w, b);
    BeforeClaimLaw(env, w, b);
    FindClaimLaw(w4, b.daa, ev.batch, ev.built);
    var es := FindClaim(w4, b.daa, ev.batch, ev.built).entries;
    forall i | 0 <= i < |w2.entries| ensures EntryAfterBlock(w2.entries[i], es[i], b, Looks(w, b.daa)) {
      HealedEntry(w2.entries[i], b, Looks(w, b.daa));
    }
    JoinedStay(w2.tracked, b, |w2.entries|, w4.entries, es, w4.tracked);
  }

  /** Fresh entries have nothing to heal. */
  lemma {:induction false} JoinedStay(tracked: set<Outpoint>, b: Block, n: nat, es: seq<Entry>, es': seq<Entry>,
      tracked': set<Outpoint>)
    requires EntriesJoined(tracked, b, n, es, tracked') && n <= |es| == |es'|
    requires forall i | 0 <= i < |es| :: es'[i] == es[i] || es'[i] == HealEntry(es[i], b.daa)
    ensures EntriesJoined(tracked, b, n, es', tracked')
  {
    if b.isChain && b.coinbase.Some? {
      var cb := b.coinbase.value;
      forall i | n <= i < |es| ensures es'[i] == es[i] {
        assert Joined(cb, tracked, es[i], b.hash, b.daa);
        FreshStays(es[i], cb, tracked, b.hash, b.daa);
      }
      forall x | Joins(cb, tracked, x) ensures exists i :: n <= i < |es'| && es'[i].outputIndex == x {
        var i :| n <= i < |es| && es[i].outputIndex == x;
        assert es'[i].outputIndex == x;
      }
    }
  }

  // ---------------------------------------------------------------- proofs: the claim

  lemma {:induction false} BatchIsClaim(env: Env, w: Watcher, daa: nat, batch: seq<nat>)
    requires Coherent(w) && batch != [] && InRange(w, batch)
    requires GoodBatch(View(w.entries, daa, w.busy, WindowAt(env.gate, daa)), batch)
    ensures ClaimOf(env, w.entries, daa, w.busy, batch, Inputs(w, batch))
  {
    var v := View(w.entries, daa, w.busy, WindowAt(env.gate, daa));
    var inputs := Inputs(w, batch);
    BatchInputs(w, v, batch);
    var pass: nat, window: nat :| pass <= 3 && Selected(v, pass, window, batch);
    SelectionIsFair(v, batch);
    forall a | 0 <= a < |inputs|
      ensures Spendable(inputs[a], daa, w.busy) && inputs[a].csvWindow == window
    {
      assert Candidate(v, pass, batch[a]);
      CandidateIs(v, pass, batch[a]);
    }
  }

  /** A watcher about to look for a claim, and the batch it picks. */
  ghost predicate Picks(env: Env, w: Watcher, daa: nat, batch: seq<nat>, built: Option<string>) {
    MayClaim(w) ==>
      var healed := Heal(w, daa, 0);
      && GoodBatch(SelectionView(healed, env.gate, daa), batch) && InRange(healed, batch)
      && (built.Some? && batch != [] ==> built.value == env.txid(Inputs(healed, batch)))
  }

  lemma {:induction false} NothingPicked(env: Env, w: Watcher, daa: nat, built: Option<string>)
    requires Inv(env, w) && Picks(env, w, daa, [], built)
    ensures var w' := FindClaim(w, daa, [], built);
      ClaimMade(env, w.inFlight, MayClaim(w), w'.entries, daa, [], built, w'.inFlight)
  {
    HealCoherent(w, daa, 0);
    if MayClaim(w) {
      SelectionIsFair(SelectionView(Heal(w, daa, 0), env.gate, daa), []);
    }
  }

  lemma {:induction false} SomethingPicked(env: Env, w: Watcher, daa: nat, batch: seq<nat>, built: Option<string>)
    requires Inv(env, w) && Injective(env.txid) && batch != [] && MayClaim(w) && Picks(env, w, daa, batch, built)
    ensures var w' := FindClaim(w, daa, batch, built);
      ClaimMade(env, w.inFlight, true, w'.entries, daa, batch, built, w'.inFlight)
  {
    HealCoherent(w, daa, 0);
    var healed := Heal(w, daa, 0);
    var inputs := Inputs(healed, batch);
    BatchIsClaim(env, healed, daa, batch);
    BatchInputs(healed, SelectionView(healed, env.gate, daa), batch);
    FreshTxid(healed, inputs, env.txid);
    assert ClaimOf(env, healed.entries, daa, AllOutpoints(w.inFlight), batch, inputs);
  }

  lemma {:induction false} ClaimLaw(env: Env, w: Watcher, daa: nat, batch: seq<nat>, built: Option<string>)
    requires Inv(env, w) && Injective(env.txid) && Picks(env, w, daa, batch, built)
    ensures var w' := FindClaim(w, daa, batch, built);
      ClaimMade(env, w.inFlight, MayClaim(w), w'.entries, daa, batch, built, w'.inFlight)
  {
    if batch == [] {
      NothingPicked(env, w, daa, built);
    } else if MayClaim(w) {
      SomethingPicked(env, w, daa, batch, built);
    }
  }

  // ---------------------------------------------------------------- the law

  /** Every block, in every reachable state. */
  lemma {:induction false} BlockLawful(env: Env, w: Watcher, ev: Event)
    requires Inv(env, w) && Injective(env.txid) && ev.BlockSeen? && StepOk(env, w, ev)
    ensures BlockLaw(env, w, ev, Step(env, w, ev))
  {
    var w5 := FindClaim(BeforeClaim(w, ev.b), ev.b.daa, ev.batch, ev.built);
    PrunedFrame(w, ev.b);
    PrunedCarries(w, ev.b);
    BeforeClaimLaw(env, w, ev.b);
    FindClaimLaw(BeforeClaim(w, ev.b), ev.b.daa, ev.batch, ev.built);
    BeforeClaimKeeps(env, w, ev.b);
    ListLaw(env, w, ev);
    ClaimLaw(env, BeforeClaim(w, ev.b), ev.b.daa, ev.batch, ev.built);
    FlushFrame(w5, ev.clock);
  }
}
