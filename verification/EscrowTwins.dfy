/** Two entries for one output (src/escrow.rs:630-657, 755-768, 836-868, 971, 1068).

A block that leaves the chain and comes back leaves a dead entry in front of a live one of the same
outpoint until compaction. Every reachable state keeps the live one last (`Coherent`), so responses,
which take the first match, answer the dead one, and every line written for the dead one hides the
live one from a restart. */
module EscrowTwins {
  import opened Outcomes
  import opened EscrowEntries
  import opened EscrowModel
  import opened EscrowIndexes
  import opened EscrowClaims
  import opened EscrowSteps
  import opened EscrowJournal
  import opened EscrowRuns

  // ---------------------------------------------------------------- responses

  /** Exactly when a claimed output's live entry gets the answer, in every reachable state, for every
  claim and every verdict: when no dead entry of its outpoint is left in the list. */
  lemma {:induction false} LiveAnsweredIff(env: Env, w: Watcher, ev: Event, i: nat)
    requires Inv(env, w) && ev.Response? && i < |w.entries| && w.entries[i].Live()
    requires AnsweredEntry(w, ev, w.entries[i]) != w.entries[i]
    ensures |Step(env, w, ev).entries| == |w.entries|
    ensures Step(env, w, ev).entries[i] == AnsweredEntry(w, ev, w.entries[i])
      <==> forall j | 0 <= j < |w.entries| && j != i :: w.entries[j].Outpoint() != w.entries[i].Outpoint()
  {
    ResponseAt(env, w, ev, i);
    assert forall j: nat | i < j < |w.entries| :: Apart(w.entries[i], w.entries[j]);
  }

  // ---------------------------------------------------------------- restarts

  /** No line is newer than the sequence number. */
  ghost predicate LinesOld(w: Watcher) {
    && RecordsOld(w.disk.journal, w.journalSeq) && RecordsOld(Records(w.pending), w.journalSeq)
    && RecoverAll(w).s <= w.journalSeq
  }

  /** Files and unwritten lines recover every live entry, whether or not outpoints repeat. */
  ghost predicate LiveRecovered(w: Watcher) {
    LinesOld(w) && forall j | 0 <= j < |w.entries| && w.entries[j].Live() :: Holds(RecoverAll(w).table, w.entries[j])
  }

  /** A change to one entry keeps the live entries recoverable exactly when no other live entry has its
  outpoint: the line it writes replaces whatever the table held for that outpoint. */
  lemma {:induction false} PutRecoversLive(w: Watcher, i: nat, e: Entry)
    requires LiveRecovered(w) && i < |w.entries| && Evolves(w.entries[i], e)
    ensures LiveRecovered(Put(w, i, e)) <==>
      forall j | 0 <= j < |w.entries| && j != i && w.entries[j].Live() ::
        w.entries[j].Outpoint() != e.Outpoint() || w.entries[j] == e
  {
    PutTable(w, i, e);
    var w', t, t' := Put(w, i, e), RecoverAll(w).table, RecoverAll(Put(w, i, e)).table;
    forall j | 0 <= j < |w.entries| && j != i && w.entries[j].Live()
      ensures Holds(t', w'.entries[j]) <==> w.entries[j].Outpoint() != e.Outpoint() || w.entries[j] == e
    {
      assert w'.entries[j] == w.entries[j] && Holds(t, w.entries[j]);
    }
    assert Holds(t', w'.entries[i]);
  }

  lemma {:induction false} PutTable(w: Watcher, i: nat, e: Entry)
    requires LinesOld(w) && i < |w.entries|
    ensures LinesOld(Put(w, i, e)) && RecoverAll(Put(w, i, e)).table == RecoverAll(w).table[e.Outpoint() := e]
  {
    var bare := w.(entries := w.entries[i := e]);
    assert RecoverAll(bare) == RecoverAll(w);
    JournalLine(bare, e);
  }

  // ---------------------------------------------------------------- a whole answer

  lemma {:induction false} AnswerLinesOld(w: Watcher, inputs: seq<Entry>, n: nat, v: Verdict)
    requires LinesOld(w)
    ensures LinesOld(AnswerAll(w, inputs, n, v))
    decreases |inputs|
  {
    if inputs != [] {
      match FirstMatch(w.entries, inputs[0].Outpoint())
      case None => AnswerLinesOld(w, inputs[1..], n, v);
      case Some(k) =>
        var e := AnswerEntry(w.entries[k], n, v, w.lastDaa);
        PutTable(w, k, e);
        AnswerLinesOld(Put(w, k, e), inputs[1..], n, v);
    }
  }

  /** An answer writes no line for an output it is not about. */
  lemma {:induction false} AnswerUntouched(w: Watcher, inputs: seq<Entry>, n: nat, v: Verdict, j: nat)
    requires LinesOld(w) && j < |w.entries| && w.entries[j].Outpoint() !in Outpoints(inputs)
    ensures var w' := AnswerAll(w, inputs, n, v);
      && |w'.entries| == |w.entries| && w'.entries[j] == w.entries[j]
      && (Holds(RecoverAll(w').table, w.entries[j]) <==> Holds(RecoverAll(w).table, w.entries[j]))
    decreases |inputs|
  {
    if inputs != [] {
      assert inputs[0] in inputs && forall e | e in inputs[1..] :: e in inputs;
      match FirstMatch(w.entries, inputs[0].Outpoint())
      case None => AnswerUntouched(w, inputs[1..], n, v, j);
      case Some(k) =>
        var e := AnswerEntry(w.entries[k], n, v, w.lastDaa);
        AnswerEvolves(w.entries[k], n, v, w.lastDaa);
        PutTable(w, k, e);
        AnswerUntouched(Put(w, k, e), inputs[1..], n, v, j);
    }
  }

  /** A claimed output's live entry is recovered after the answer exactly if it is the one answered. */
  lemma {:induction false} AnswerHolds(w: Watcher, inputs: seq<Entry>, n: nat, v: Verdict, j: nat)
    requires LinesOld(w) && LiveLast(w.entries) && DistinctOutpoints(inputs)
    requires j < |w.entries| && w.entries[j].Live() && w.entries[j].Outpoint() in Outpoints(inputs)
    ensures var w' := AnswerAll(w, inputs, n, v);
      |w'.entries| == |w.entries| && (Holds(RecoverAll(w').table, w'.entries[j]) <==> First(w.entries, j))
    decreases |inputs|
  {
    RestOutpoints(inputs);
    match FirstMatch(w.entries, inputs[0].Outpoint())
    case None => AnswerHolds(w, inputs[1..], n, v, j);
    case Some(k) =>
      var w1 := Put(w, k, AnswerEntry(w.entries[k], n, v, w.lastDaa));
      PutAnswer(w, k, n, v, j);
      if k == j || w.entries[j].Outpoint() == inputs[0].Outpoint() {
        AnsweredHolds(w, n, v, j, k);
        AnswerUntouched(w1, inputs[1..], n, v, j);
      } else {
        AnswerHolds(w1, inputs[1..], n, v, j);
      }
  }

  /** One line of an answer, seen from entry `j`. */
  lemma {:induction false} PutAnswer(w: Watcher, k: nat, n: nat, v: Verdict, j: nat)
    requires LinesOld(w) && LiveLast(w.entries) && k < |w.entries| && j < |w.entries|
    ensures var w1 := Put(w, k, AnswerEntry(w.entries[k], n, v, w.lastDaa));
      && LinesOld(w1) && LiveLast(w1.entries) && |w1.entries| == |w.entries|
      && w1.entries[j].Outpoint() == w.entries[j].Outpoint() && (k != j ==> w1.entries[j] == w.entries[j])
      && (First(w1.entries, j) <==> First(w.entries, j))
  {
    var e := AnswerEntry(w.entries[k], n, v, w.lastDaa);
    AnswerEvolves(w.entries[k], n, v, w.lastDaa);
    PutTable(w, k, e);
    var a, b := w.entries, Put(w, k, e).entries;
    SameFirst(a, b, j);
    forall x: nat, y: nat | x < y < |b| ensures Apart(b[x], b[y]) {
      assert Apart(a[x], a[y]);
    }
  }

  /** The one line of the answer that is about the output of entry `j`. */
  lemma {:induction false} AnsweredHolds(w: Watcher, n: nat, v: Verdict, j: nat, k: nat)
    requires LinesOld(w) && LiveLast(w.entries) && j < |w.entries| && w.entries[j].Live()
    requires FirstMatch(w.entries, w.entries[j].Outpoint()) == Some(k)
    ensures var w1 := Put(w, k, AnswerEntry(w.entries[k], n, v, w.lastDaa));
      Holds(RecoverAll(w1).table, w1.entries[j]) <==> First(w.entries, j)
  {
    var e := AnswerEntry(w.entries[k], n, v, w.lastDaa);
    FirstMatchIffFirst(w.entries, j);
    AnswerEvolves(w.entries[k], n, v, w.lastDaa);
    PutTable(w, k, e);
    if k != j {
      TwinsComeFirst(w.entries, k, j);
    }
  }

  /** An answer keeps the live entries recoverable if and only if every live entry of a claimed outpoint is
  the first of it. */
  lemma {:induction false} AnswerRecoversLive(w: Watcher, inputs: seq<Entry>, n: nat, v: Verdict)
    requires LiveRecovered(w) && LiveLast(w.entries) && DistinctOutpoints(inputs)
    ensures LiveRecovered(AnswerAll(w, inputs, n, v)) <==> LiveAreFirst(w.entries, Outpoints(inputs))
  {
    var w' := AnswerAll(w, inputs, n, v);
    AnswerLinesOld(w, inputs, n, v);
    AnswerLength(w, inputs, n, v);
    forall j | 0 <= j < |w.entries|
      ensures w'.entries[j].Live() ==> w.entries[j].Live()
      ensures w.entries[j].Live() && (w.entries[j].Outpoint() in Outpoints(inputs) && !First(w.entries, j)) ==>
        w'.entries[j].Live() && !Holds(RecoverAll(w').table, w'.entries[j])
      ensures w.entries[j].Live() && (w.entries[j].Outpoint() in Outpoints(inputs) ==> First(w.entries, j)) ==>
        Holds(RecoverAll(w').table, w'.entries[j])
    {
      AnswerAllAt(w, inputs, n, v, j);
      AnswerEvolves(w.entries[j], n, v, w.lastDaa);
      if w.entries[j].Live() {
        if w.entries[j].Outpoint() in Outpoints(inputs) {
          AnswerHolds(w, inputs, n, v, j);
        } else {
          AnswerUntouched(w, inputs, n, v, j);
        }
      }
    }
  }

  ghost predicate LiveAreFirst(es: seq<Entry>, outputs: set<Outpoint>) {
    forall j | 0 <= j < |es| && es[j].Live() && es[j].Outpoint() in outputs :: First(es, j)
  }

  lemma {:induction false} AnswerLength(w: Watcher, inputs: seq<Entry>, n: nat, v: Verdict)
    ensures |AnswerAll(w, inputs, n, v).entries| == |w.entries|
    decreases |inputs|
  {
    if inputs != [] {
      match FirstMatch(w.entries, inputs[0].Outpoint())
      case None => AnswerLength(w, inputs[1..], n, v);
      case Some(k) => AnswerLength(Put(w, k, AnswerEntry(w.entries[k], n, v, w.lastDaa)), inputs[1..], n, v);
    }
  }

  /** The flush replaces the snapshot. */
  predicate TakesSnapshot(w: Watcher, c: Clock) {
    && (w.snapshotDue || c.journalBig || (w.linesSinceSnapshot + |w.pending| > 0 && c.snapshotElapsed))
    && c.outcome != Failed
  }

  /** A snapshot brings hidden live entries back, because the last entry of an outpoint wins; nothing else
  a flush does changes what is recovered. */
  lemma {:induction false} FlushRecoversLive(w: Watcher, c: Clock)
    requires LinesOld(w) && LiveLast(w.entries)
    ensures LiveRecovered(MaybeFlush(w, c)) <==> LiveRecovered(w) || TakesSnapshot(w, c)
  {
    var w' := MaybeFlush(w, c);
    FlushFrame(w, c);
    assert Records([]) == [];
    if TakesSnapshot(w, c) {
      var r := Recovered(AsMap(w.entries), w.journalSeq);
      StaleReplay(r, w.disk.journal);
      StaleReplay(r, Records(w.pending));
      assert RecoverAll(w') == r;
      forall j | 0 <= j < |w.entries| && w.entries[j].Live() ensures Holds(r.table, w.entries[j]) {
        assert forall i: nat | j < i < |w.entries| :: Apart(w.entries[j], w.entries[i]);
        AsMapAt(w.entries, j);
      }
    } else if w' != w {
      ReplaySplit(Recovered(AsMap(w.disk.snapshot), w.disk.snapshotSeq), w.disk.journal, Records(w.pending));
      assert RecoverAll(w') == RecoverAll(w);
    }
  }

  /** A response leaves every live entry recoverable if and only if its flush takes a snapshot or every live
  entry of the claim is the first of its outpoint. */
  lemma {:induction false} ResponseRecoversLive(env: Env, w: Watcher, ev: Event)
    requires Inv(env, w) && LiveRecovered(w) && ev.Response? && Answered(w, ev).Some?
    ensures LiveRecovered(Step(env, w, ev)) <==>
      || TakesSnapshot(OnSubmitResponse(w, ev.responseTxid, ev.error, ev.pick), ev.clock)
      || LiveAreFirst(w.entries, Outpoints(Answered(w, ev).value))
  {
    var t := Matched(w, ev.responseTxid, ev.error, ev.pick).value;
    var inputs, w1 := w.inFlight[t].inputs, Unclaim(w, t);
    assert ClaimOk(w.inFlight[t], t, env.txid);
    assert RecoverAll(w1) == RecoverAll(w);
    AnswerRecoversLive(w1, inputs, |inputs|, VerdictOf(ev.error));
    AnswerLinesOld(w1, inputs, |inputs|, VerdictOf(ev.error));
    ResponseKeeps(env, w, ev.responseTxid, ev.error, ev.pick);
    FlushRecoversLive(OnSubmitResponse(w, ev.responseTxid, ev.error, ev.pick), ev.clock);
  }

  // ---------------------------------------------------------------- healing

  ghost predicate NoTwinHeals(es: seq<Entry>, daa: nat, k: nat, j: nat)
    requires j < |es|
  {
    forall i | k <= i < |es| && i != j && es[i].Outpoint() == es[j].Outpoint() :: !Heals(es[i], daa)
  }

  /** Entry `j` will be recovered once entries from `k` on have healed: a line for it is still to come, or
  it is recovered now and no line for its outpoint is to come. */
  ghost predicate StaysRecovered(w: Watcher, daa: nat, k: nat, j: nat)
    requires j < |w.entries|
  {
    || (k <= j && Heals(w.entries[j], daa))
    || (Holds(RecoverAll(w).table, w.entries[j]) && NoTwinHeals(w.entries, daa, k, j))
  }

  lemma {:induction false} HealHolds(w: Watcher, daa: nat, k: nat, j: nat)
    requires LinesOld(w) && LiveLast(w.entries) && k <= |w.entries| && j < |w.entries| && w.entries[j].Live()
    ensures |Heal(w, daa, k).entries| == |w.entries|
    ensures Holds(RecoverAll(Heal(w, daa, k)).table, Heal(w, daa, k).entries[j]) <==> StaysRecovered(w, daa, k, j)
    decreases |w.entries| - k
  {
    if k < |w.entries| {
      HealOneLists(w, daa, k);
      HealHolds(HealOne(w, daa, k), daa, k + 1, j);
      HealOneStays(w, daa, k, j);
    }
  }

  lemma {:induction false} HealOneStays(w: Watcher, daa: nat, k: nat, j: nat)
    requires LinesOld(w) && LiveLast(w.entries) && k < |w.entries| && j < |w.entries| && w.entries[j].Live()
    ensures |HealOne(w, daa, k).entries| == |w.entries|
    ensures StaysRecovered(HealOne(w, daa, k), daa, k + 1, j) <==> StaysRecovered(w, daa, k, j)
  {
    if Heals(w.entries[k], daa) {
      PutTable(w, k, HealEntry(w.entries[k], daa));
      HealOneLists(w, daa, k);
      if k == j {
        HealedIsRecovered(w, daa, j);
      } else if w.entries[k].Outpoint() == w.entries[j].Outpoint() {
        TwinsComeFirst(w.entries, k, j);
      } else {
        OtherOutpointHeals(w.entries, HealEntry(w.entries[k], daa), daa, k, j);
      }
    }
  }

  lemma {:induction false} TwinsComeFirst(es: seq<Entry>, k: nat, j: nat)
    requires LiveLast(es) && k < |es| && j < |es| && k != j && es[j].Live() && es[k].Outpoint() == es[j].Outpoint()
    ensures k < j && !es[k].Live()
  {
    if k < j {
      assert Apart(es[k], es[j]);
    }
  }

  lemma {:induction false} OtherOutpointHeals(es: seq<Entry>, e: Entry, daa: nat, k: nat, j: nat)
    requires k < |es| && j < |es| && k != j && es[k].Outpoint() != es[j].Outpoint()
    ensures NoTwinHeals(es[k := e], daa, k + 1, j) <==> NoTwinHeals(es, daa, k, j)
  {
    var es1 := es[k := e];
    assert es1[j] == es[j] && forall i | k < i < |es| :: es1[i] == es[i];
    if NoTwinHeals(es1, daa, k + 1, j) {
      forall i | k <= i < |es| && i != j && es[i].Outpoint() == es[j].Outpoint() ensures !Heals(es[i], daa) {
        assert es1[i] == es[i];
      }
    }
  }

  /** The line a live entry writes for itself is the last one for its outpoint. */
  lemma {:induction false} HealedIsRecovered(w: Watcher, daa: nat, j: nat)
    requires LinesOld(w) && LiveLast(w.entries) && j < |w.entries| && w.entries[j].Live() && Heals(w.entries[j], daa)
    ensures |HealOne(w, daa, j).entries| == |w.entries| && StaysRecovered(HealOne(w, daa, j), daa, j + 1, j)
  {
    PutTable(w, j, HealEntry(w.entries[j], daa));
    HealOneLists(w, daa, j);
    assert forall i: nat | j < i < |w.entries| :: Apart(w.entries[j], w.entries[i]);
  }

  lemma {:induction false} HealOneLists(w: Watcher, daa: nat, k: nat)
    requires k < |w.entries| && LinesOld(w) && LiveLast(w.entries)
    ensures var w1, e := HealOne(w, daa, k), HealEntry(w.entries[k], daa);
      && w1.entries == w.entries[k := e] && LinesOld(w1) && LiveLast(w1.entries)
      && e.Outpoint() == w.entries[k].Outpoint() && (e.Live() <==> w.entries[k].Live())
  {
    var w1, e := HealOne(w, daa, k), HealEntry(w.entries[k], daa);
    PutTable(w, k, e);
    forall i: nat, j: nat | i < j < |w1.entries| ensures Apart(w1.entries[i], w1.entries[j]) {
      assert Apart(w.entries[i], w.entries[j]);
    }
  }

  /** Healing keeps the live entries recoverable if and only if wherever a dead entry in front of a live
  one of the same outpoint heals, the live one heals too. */
  lemma {:induction false} HealRecoversLive(w: Watcher, daa: nat)
    requires LiveRecovered(w) && LiveLast(w.entries)
    ensures LiveRecovered(Heal(w, daa, 0)) <==>
      forall i, j | 0 <= i < |w.entries| && 0 <= j < |w.entries| && i != j && w.entries[j].Live()
        && w.entries[i].Outpoint() == w.entries[j].Outpoint() && Heals(w.entries[i], daa) :: Heals(w.entries[j], daa)
  {
    var w' := Heal(w, daa, 0);
    HealCoherent(w, daa, 0);
    if |w.entries| == 0 {
      assert w' == w;
    }
    forall j | 0 <= j < |w.entries|
      ensures w'.entries[j].Live() <==> w.entries[j].Live()
      ensures w.entries[j].Live() ==>
        (Holds(RecoverAll(w').table, w'.entries[j]) <==> Heals(w.entries[j], daa) || NoTwinHeals(w.entries, daa, 0, j))
    {
      HealEvolves(w.entries[j], daa);
      if w.entries[j].Live() {
        HealHolds(w, daa, 0, j);
      }
    }
    HealLinesOld(w, daa, 0);
  }

  lemma {:induction false} HealLinesOld(w: Watcher, daa: nat, k: nat)
    requires LinesOld(w) && LiveLast(w.entries) && k <= |w.entries|
    ensures LinesOld(Heal(w, daa, k))
    decreases |w.entries| - k
  {
    if k < |w.entries| {
      HealOneLists(w, daa, k);
      HealLinesOld(HealOne(w, daa, k), daa, k + 1);
    }
  }

  // ---------------------------------------------------------------- a run that gets there

  const EMPTY_DISK: Disk := Disk([], 0, [])

  function Coin(): Coinbase {
    Coinbase("t", [Output(Some(CHALLENGE_WINDOW_BLOCKS), 1)])
  }

  /** The entry of the one escrow output, as tracked at score `d`. */
  function Minted(d: nat): Entry {
    FreshEntry("t", "h", d, 1, 0, false, CHALLENGE_WINDOW_BLOCKS)
  }

  /** Score at which it has matured. */
  function Mature(d: nat): nat {
    d + CHALLENGE_WINDOW_BLOCKS + MATURITY_MARGIN
  }

  /** Tracked, reorganised out, tracked again, claimed, answered. */
  function TwinRun(env: Env, error: Option<Rejection>): seq<Event> {
    var d := env.gate;
    var mint := BlockSeen(Block(d, "h", [], true, Some(Coin())), [], None, NO_FLUSH);
    var id := env.txid([Minted(d)]);
    [mint, ChainRemoved(["h"], NO_FLUSH), mint,
     BlockSeen(Block(Mature(d), "g", [], true, None), [1], Some(id), NO_FLUSH),
     Response(id, error, "", NO_FLUSH)]
  }

  /** The states along that run. */
  function TwinState(env: Env, step: nat): Watcher
    requires step <= 4
  {
    var d, live, o := env.gate, Minted(env.gate), ("t", 0);
    var dead := live.(slashed := true);
    var lines := [Line(1, live), Line(2, dead), Line(3, live)];
    if step == 0 then Loaded([], 0, EMPTY_DISK)
    else if step == 1 then
      Watcher([live], 1, lines[..1], map[], {}, d, {o}, map["h" := [0]], false, 0, 1, {}, EMPTY_DISK)
    else if step == 2 then Watcher([dead], 2, lines[..2], map[], {}, d, {}, map[], false, 0, 1, {}, EMPTY_DISK)
    else if step == 3 then
      Watcher([dead, live], 3, lines, map[], {}, d, {o}, map["h" := [1]], false, 0, 2, {}, EMPTY_DISK)
    else
      Watcher([dead, live], 3, lines, map[env.txid([live]) := Claim([live], Mature(d))], {o}, Mature(d), {o},
        map["h" := [1]], false, 0, 3, {}, EMPTY_DISK)
  }

  lemma {:induction false} OneOutpoint(e: Entry)
    ensures Outpoints([e]) == {e.Outpoint()}
  {
    assert e in [e];
  }

  lemma {:induction false} TwinMint(env: Env, step: nat)
    requires step == 0 || step == 2
    ensures var ev := TwinRun(env, None)[step];
      StepOk(env, TwinState(env, step), ev) && Step(env, TwinState(env, step), ev) == TwinState(env, step + 1)
  {
    var w, w', ev := TwinState(env, step), TwinState(env, step + 1), TwinRun(env, None)[step];
    var d, cb := env.gate, Coin();
    assert OutpointsOf([]) == {};
    NoClaimsExpire(w.(lastDaa := d), d);
    var w2 := w.(lastDaa := d, blocksSinceCompact := w.blocksSinceCompact + 1);
    assert PurgeBlocks(w2, [], Red) == w2;
    assert TrackOutputs(w2, cb, "h", d, 0) == TrackOutputs(TrackOutput(w2, cb, "h", d, 0), cb, "h", d, 1);
    assert TrackOutput(w2, cb, "h", d, 0) == w' by {
      assert w2.tracked == {} && w2.blockIndex == map[] && w2.tracked + {("t", 0)} == w'.tracked;
      assert w2.entries + [Minted(d)] == w'.entries;
      var empty: seq<nat> := [];
      assert empty + [|w2.entries|] == [|w2.entries|] && Indexed(w2.blockIndex, "h", |w2.entries|) == w'.blockIndex;
      assert w2.pending + [Line(step + 1, Minted(d))] == w'.pending;
    }
    assert BeforeClaim(w, ev.b) == w';
    HealNothing(w', d, 0);
    NothingMature(w', env.gate, d);
  }

  lemma {:induction false} TwinReorg(env: Env)
    ensures var ev := TwinRun(env, None)[1];
      StepOk(env, TwinState(env, 1), ev) && Step(env, TwinState(env, 1), ev) == TwinState(env, 2)
  {
    var w, w' := TwinState(env, 1), TwinState(env, 2);
    var w1 := PurgeEntry(w, 0, Reorg);
    assert [0][1..] == [] && ["h"][1..] == [];
    assert PurgeIndices(w, [0], Reorg) == w1;
    assert w1.blockIndex - {"h"} == map[];
    assert PurgeBlocks(w, ["h"], Reorg) == w';
  }

  lemma {:induction false} TwinMatured(env: Env)
    ensures var w, ev := TwinState(env, 3), TwinRun(env, None)[3];
      BeforeClaim(w, ev.b) == w.(lastDaa := Mature(env.gate), blocksSinceCompact := 3)
  {
    NoClaimsExpire(TwinState(env, 3).(lastDaa := Mature(env.gate)), Mature(env.gate));
  }

  /** The claim of the live twin is registered. */
  lemma {:induction false} TwinHealed(env: Env, w: Watcher)
    requires w.entries == TwinState(env, 3).entries
    ensures Heal(w, Mature(env.gate), 0) == w && Inputs(w, [1]) == [Minted(env.gate)]
  {
    HealNothing(w, Mature(env.gate), 0);
  }

  lemma {:induction false} TwinRegistered(env: Env, w: Watcher)
    requires w == TwinState(env, 3).(lastDaa := Mature(env.gate), blocksSinceCompact := 3)
    ensures Heal(w, Mature(env.gate), 0) == w && Inputs(w, [1]) == [Minted(env.gate)]
    ensures FindClaim(w, Mature(env.gate), [1], Some(env.txid([Minted(env.gate)]))) == TwinState(env, 4)
  {
    TwinHealed(env, w);
    OneOutpoint(Minted(env.gate));
  }

  lemma {:induction false} TwinClaim(env: Env)
    ensures var ev := TwinRun(env, None)[3];
      StepOk(env, TwinState(env, 3), ev) && Step(env, TwinState(env, 3), ev) == TwinState(env, 4)
  {
    var w1 := TwinState(env, 3).(lastDaa := Mature(env.gate), blocksSinceCompact := 3);
    TwinMatured(env);
    TwinRegistered(env, w1);
    TwinSelected(env, w1);
  }

  /** The live twin drains alone: its window is not the current one. */
  lemma {:induction false} TwinSelected(env: Env, w: Watcher)
    requires w.entries == TwinState(env, 3).entries && w.busy == {}
    ensures GoodBatch(SelectionView(w, env.gate, Mature(env.gate)), [1])
  {
    var v := SelectionView(w, env.gate, Mature(env.gate));
    forall x: nat ensures |Nominal(v, x)| < MAX_CLAIM_BATCH {
      SubsetCount(Nominal(v, x), {0, 1});
    }
    assert Candidate(v, 2, 1);
    assert Selected(v, 2, CHALLENGE_WINDOW_BLOCKS, [1]);
  }

  lemma {:induction false} TwinStep(env: Env, error: Option<Rejection>, k: nat)
    requires k < 4
    ensures var ev := TwinRun(env, error)[k];
      StepOk(env, TwinState(env, k), ev) && Step(env, TwinState(env, k), ev) == TwinState(env, k + 1)
  {
    assert TwinRun(env, error)[k] == TwinRun(env, None)[k];
    if k == 1 {
      TwinReorg(env);
    } else if k == 3 {
      TwinClaim(env);
    } else {
      TwinMint(env, k);
    }
  }

  lemma {:induction false} TwinPrefix(env: Env, error: Option<Rejection>, k: nat)
    requires k <= 4
    ensures var w, evs := TwinState(env, 0), TwinRun(env, error)[..k];
      Runs(env, w, evs) && After(env, w, evs) == TwinState(env, k)
  {
    if k > 0 {
      TwinPrefix(env, error, k - 1);
      TwinStep(env, error, k - 1);
      PrefixSnoc(env, TwinState(env, 0), TwinRun(env, error), k - 1);
    }
  }

  /** The failing state is reachable under every gate and every txid function, and every answer, accepted
  or rejected, goes to the dead entry: the live one comes out of its claim unchanged and free. */
  lemma {:induction false} TwinReached(env: Env, error: Option<Rejection>)
    ensures var w, evs := Loaded([], 0, EMPTY_DISK), TwinRun(env, error);
      && Runs(env, w, evs)
      && After(env, w, evs).entries
         == [AnswerEntry(Minted(env.gate).(slashed := true), 1, VerdictOf(error), Mature(env.gate)), Minted(env.gate)]
      && After(env, w, evs).busy == {}
      && !LiveRecovered(After(env, w, evs))
  {
    var w, evs := Loaded([], 0, EMPTY_DISK), TwinRun(env, error);
    TwinPrefix(env, error, 4);
    assert evs == evs[..4] + [evs[4]];
    RunSnoc(env, w, evs[..4], evs[4]);
    TwinAnswered(env, error);
  }

  lemma {:induction false} TwinAnswered(env: Env, error: Option<Rejection>)
    ensures var w', ev := Step(env, TwinState(env, 4), TwinRun(env, error)[4]), TwinRun(env, error)[4];
      && w'.entries
        == [AnswerEntry(Minted(env.gate).(slashed := true), 1, VerdictOf(error), Mature(env.gate)), Minted(env.gate)]
      && w'.busy == {} && !LiveRecovered(w')
  {
    var w, live := TwinState(env, 4), Minted(env.gate);
    var w1, e := Unclaim(w, env.txid([live])), AnswerEntry(w.entries[0], 1, VerdictOf(error), w.lastDaa);
    assert [live][1..] == [] && FirstMatch(w.entries, live.Outpoint()) == Some(0);
    OneOutpoint(live);
    assert AnswerAll(w1, [live], 1, VerdictOf(error)) == Put(w1, 0, e);
    TwinRecovered(env, w1);
    AnswerEvolves(w.entries[0], 1, VerdictOf(error), w.lastDaa);
    PutRecoversLive(w1, 0, e);
    assert w1.entries[1] == live && live != e;
  }

  lemma {:induction false} TwinRecovered(env: Env, w: Watcher)
    requires w.entries == TwinState(env, 3).entries && w.pending == TwinState(env, 3).pending
    requires w.disk == EMPTY_DISK && w.journalSeq == 3
    ensures LiveRecovered(w)
  {
    var lines, r0 := Records(w.pending), Recovered(map[], 0);
    assert Recover(w.disk) == r0;
    assert lines[..2][..1][..0] == [] && lines[..2][..1] == lines[..1] && lines[..1][..0] == [];
    assert ReplayAll(r0, lines[..1]) == ApplyRecord(r0, lines[0]);
    assert ReplayAll(r0, lines[..2]) == ApplyRecord(ReplayAll(r0, lines[..1]), lines[1]);
    assert ReplayAll(r0, lines) == ApplyRecord(ReplayAll(r0, lines[..2]), lines[2]);
  }
}
