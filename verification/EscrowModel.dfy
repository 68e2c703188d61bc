/** The escrow claim machine as pure transitions (src/escrow.rs:205-1222).

`Watcher` holds what the original object holds, plus the two files it writes. Every change of an entry
goes through `Put` or `Push`, which also append the journal line the original appends. Rejection texts
are the facts the original reads off them; clocks and write results are parameters. */
module EscrowModel {
  import opened Halving
  import opened Outcomes
  import opened EscrowEntries

  const MAX_IN_FLIGHT_CLAIMS: nat := 4
  const CLAIM_RESPONSE_TIMEOUT_DAA: nat := 600
  const CAP_EXPIRY_DAA: nat := 36_000
  const COMPACT_EVERY_BLOCKS: nat := 2_000
  const ORPHAN_RETRY_COOLDOWN_BLOCKS: nat := 100
  const SEQ_LOCK_RETRY_COOLDOWN_BLOCKS: nat := 20
  const MAX_ORPHAN_RETRIES: nat := 10
  const UNKNOWN_RETRY_BASE_COOLDOWN_DAA: nat := 100
  const UNKNOWN_RETRY_MAX_COOLDOWN_DAA: nat := 50_000

  /** A journal line: the whole entry after a change, with its sequence number. */
  datatype Line = Line(s: nat, e: Entry)

  /** A line as found on disk: whole, or cut short and unreadable. */
  datatype Record = Whole(line: Line) | Torn

  datatype Disk = Disk(snapshot: seq<Entry>, snapshotSeq: nat, journal: seq<Record>)

  /** A submitted claim: the entries it spends and when it was sent. */
  datatype Claim = Claim(inputs: seq<Entry>, submitDaa: nat)

  datatype Watcher = Watcher(
    entries: seq<Entry>,
    journalSeq: nat,
    pending: seq<Line>,
    inFlight: map<string, Claim>,
    busy: set<Outpoint>,
    lastDaa: nat,
    tracked: set<Outpoint>,
    blockIndex: map<string, seq<nat>>,
    snapshotDue: bool,
    linesSinceSnapshot: nat,
    blocksSinceCompact: nat,
    validationPending: set<string>,
    disk: Disk)

  // ---------------------------------------------------------------- primitives

  function Journal(w: Watcher, e: Entry): Watcher {
    w.(journalSeq := w.journalSeq + 1, pending := w.pending + [Line(w.journalSeq + 1, e)])
  }

  function Put(w: Watcher, i: nat, e: Entry): Watcher
    requires i < |w.entries|
  {
    Journal(w.(entries := w.entries[i := e]), e)
  }

  /** `block_index` with one more index under `hash`; blocks without a hash are not indexed. */
  function Indexed(index: map<string, seq<nat>>, hash: string, i: nat): map<string, seq<nat>> {
    if hash == "" then index
    else index[hash := (if hash in index then index[hash] else []) + [i]]
  }

  function Push(w: Watcher, e: Entry): Watcher {
    Journal(w.(
      entries := w.entries + [e],
      tracked := w.tracked + {e.Outpoint()},
      blockIndex := Indexed(w.blockIndex, e.blockHash, |w.entries|)), e)
  }

  // ---------------------------------------------------------------- indexes and compaction

  function OutpointsOf(entries: seq<Entry>): set<Outpoint> {
    set e | e in entries :: e.Outpoint()
  }

  function IndexOfBlocks(entries: seq<Entry>): map<string, seq<nat>> {
    if entries == [] then map[]
    else
      var n := |entries| - 1;
      Indexed(IndexOfBlocks(entries[..n]), entries[n].blockHash, n)
  }

  /** The indexes grow by one entry at a time. */
  lemma {:induction false} IndexesAppend(entries: seq<Entry>, i: nat)
    requires i < |entries|
    ensures OutpointsOf(entries[..i + 1]) == OutpointsOf(entries[..i]) + {entries[i].Outpoint()}
    ensures IndexOfBlocks(entries[..i + 1]) == Indexed(IndexOfBlocks(entries[..i]), entries[i].blockHash, i)
  {
    assert entries[..i + 1][..i] == entries[..i];
    assert entries[..i + 1] == entries[..i] + [entries[i]];
  }

  function RebuildIndexes(w: Watcher): Watcher {
    w.(tracked := OutpointsOf(w.entries), blockIndex := IndexOfBlocks(w.entries))
  }

  /** Entries still worth keeping, in order. */
  function Living(entries: seq<Entry>): seq<Entry> {
    if entries == [] then []
    else
      var n := |entries| - 1;
      Living(entries[..n]) + (if entries[n].Live() then [entries[n]] else [])
  }

  function Compact(w: Watcher): Watcher {
    var kept := Living(w.entries);
    if |kept| == |w.entries| then w
    else RebuildIndexes(w.(entries := kept)).(snapshotDue := true)
  }

  // ---------------------------------------------------------------- purging blocks

  /** Why a block's entries are given up: it turned red, the node disowned it at boot, or it was
  reorganised out of the selected chain. */
  datatype Purge = Red | Ghost | Reorg

  predicate Purgeable(e: Entry, how: Purge) {
    e.Live() && (how == Red ==> !e.isInference && e.blockHash != "")
  }

  /** Give up entry `i`. A reorganised entry's outpoint is released so it can be tracked afresh. */
  function PurgeEntry(w: Watcher, i: nat, how: Purge): Watcher {
    if i < |w.entries| && Purgeable(w.entries[i], how) then
      var e := w.entries[i];
      Put(if how == Reorg then w.(tracked := w.tracked - {e.Outpoint()}) else w, i, e.(slashed := true))
    else w
  }

  function PurgeIndices(w: Watcher, indices: seq<nat>, how: Purge): Watcher
    decreases |indices|
  {
    if indices == [] then w else PurgeIndices(PurgeEntry(w, indices[0], how), indices[1..], how)
  }

  function PurgeBlock(w: Watcher, hash: string, how: Purge): Watcher {
    if hash !in w.blockIndex then w
    else
      var done := PurgeIndices(w, w.blockIndex[hash], how);
      if how == Reorg then done.(blockIndex := done.blockIndex - {hash}) else done
  }

  function PurgeBlocks(w: Watcher, hashes: seq<string>, how: Purge): Watcher
    decreases |hashes|
  {
    if hashes == [] then w else PurgeBlocks(PurgeBlock(w, hashes[0], how), hashes[1..], how)
  }

  // ---------------------------------------------------------------- tracking

  /** A coinbase output: the window of our escrow script it pays, if any, and its amount. */
  datatype Output = Output(window: Option<nat>, amount: nat)

  datatype Coinbase = Coinbase(txid: string, outputs: seq<Output>)

  function FreshEntry(txid: string, hash: string, daa: nat, amount: nat, index: nat, inference: bool,
      window: nat): Entry {
    Entry(txid, hash, daa, amount, index, false, false, false, 0, None, 0, 0, 0, inference, window)
  }

  function TrackOutput(w: Watcher, cb: Coinbase, hash: string, daa: nat, k: nat): Watcher
    requires k < |cb.outputs|
  {
    if cb.outputs[k].window.None? || (cb.txid, k) in w.tracked then w
    else Push(w, FreshEntry(cb.txid, hash, daa, cb.outputs[k].amount, k, false, cb.outputs[k].window.value))
  }

  function TrackOutputs(w: Watcher, cb: Coinbase, hash: string, daa: nat, k: nat): Watcher
    requires k <= |cb.outputs|
    decreases |cb.outputs| - k
  {
    if k == |cb.outputs| then w else TrackOutputs(TrackOutput(w, cb, hash, daa, k), cb, hash, daa, k + 1)
  }

  function TrackInference(w: Watcher, txid: string, daa: nat, amount: nat): Watcher {
    if amount == 0 || (txid, 1) in w.tracked then w
    else Push(w, FreshEntry(txid, "", daa, amount, 1, true, CHALLENGE_WINDOW_BLOCKS))
  }

  // ---------------------------------------------------------------- claims

  function Outpoints(inputs: seq<Entry>): set<Outpoint> {
    OutpointsOf(inputs)
  }

  predicate Expired(c: Claim, daa: nat) {
    daa >= c.submitDaa + CLAIM_RESPONSE_TIMEOUT_DAA
  }

  /** Release one claim: its outputs are no longer busy. */
  function Unclaim(w: Watcher, txid: string): Watcher
    requires txid in w.inFlight
  {
    w.(inFlight := w.inFlight - {txid}, busy := w.busy - Outpoints(w.inFlight[txid].inputs))
  }

  function ExpiredOutpoints(inFlight: map<string, Claim>, daa: nat): set<Outpoint> {
    set t, o | t in inFlight && Expired(inFlight[t], daa) && o in Outpoints(inFlight[t].inputs) :: o
  }

  function ExpireInFlight(w: Watcher, daa: nat): Watcher {
    w.(inFlight := map t | t in w.inFlight && !Expired(w.inFlight[t], daa) :: w.inFlight[t],
       busy := w.busy - ExpiredOutpoints(w.inFlight, daa))
  }

  /** A cap or an orphan verdict nobody re-confirmed in time expires. */
  function HealEntry(e: Entry, daa: nat): Entry {
    var e1 := if e.batchCap != 0 && daa >= e.capSetDaa + CAP_EXPIRY_DAA then e.(batchCap := 0) else e;
    var holdoff := CAP_EXPIRY_DAA * Pow2(Min(e.orphanRetries, 10));
    var forgiven := e1.orphanSlashed && (e.retryAfterDaa.Some? ==> daa >= e.retryAfterDaa.value + holdoff);
    if forgiven then e1.(orphanSlashed := false) else e1
  }

  function HealOne(w: Watcher, daa: nat, i: nat): Watcher
    requires i < |w.entries|
  {
    var e := HealEntry(w.entries[i], daa);
    if e != w.entries[i] then Put(w, i, e) else w
  }

  function Heal(w: Watcher, daa: nat, i: nat): Watcher
    requires i <= |w.entries|
    decreases |w.entries| - i
  {
    if i == |w.entries| then w else Heal(HealOne(w, daa, i), daa, i + 1)
  }

  function CsvWindowForDaa(gate: nat, daa: nat): nat {
    if daa >= gate then SERVICE_BOND_CSV_WINDOW_BLOCKS else CHALLENGE_WINDOW_BLOCKS
  }

  function SelectionView(w: Watcher, gate: nat, daa: nat): View {
    View(w.entries, daa, w.busy, CsvWindowForDaa(gate, daa))
  }

  predicate MayClaim(w: Watcher) {
    |w.inFlight| < MAX_IN_FLIGHT_CLAIMS && w.validationPending == {}
  }

  function Inputs(w: Watcher, batch: seq<nat>): (es: seq<Entry>)
    requires forall a | 0 <= a < |batch| :: batch[a] < |w.entries|
    ensures |es| == |batch|
  {
    seq(|batch|, a requires 0 <= a < |batch| => w.entries[batch[a]])
  }

  function AddClaim(w: Watcher, txid: string, inputs: seq<Entry>, daa: nat): Watcher {
    w.(inFlight := w.inFlight[txid := Claim(inputs, daa)], busy := w.busy + Outpoints(inputs))
  }

  /** Build and register a claim of `batch`; `built` is its txid, or None if it could not be built. */
  function FindClaim(w: Watcher, daa: nat, batch: seq<nat>, built: Option<string>): Watcher
    requires MayClaim(w) ==> forall a | 0 <= a < |batch| :: batch[a] < |Heal(w, daa, 0).entries|
  {
    if !MayClaim(w) then w
    else
      var healed := Heal(w, daa, 0);
      if batch == [] || built.None? then healed else AddClaim(healed, built.value, Inputs(healed, batch), daa)
  }

  // ---------------------------------------------------------------- responses

  /** What the original reads off a rejection text. */
  datatype Rejection = Rejection(
    mentions: set<string>,
    duplicate: bool,
    orphan: bool,
    seqLock: bool,
    burned: bool,
    burnedSet: set<Outpoint>)

  function LowerChar(c: char): char {
    if 'A' <= c <= 'Z' then (c as int + 32) as char else c
  }

  function Lower(s: string): string {
    seq(|s|, i requires 0 <= i < |s| => LowerChar(s[i]))
  }

  /** Index of the first entry with that outpoint. */
  function FirstMatch(entries: seq<Entry>, o: Outpoint): (r: Option<nat>)
    ensures r.Some? ==> r.value < |entries| && entries[r.value].Outpoint() == o
    ensures r.None? ==> forall i | 0 <= i < |entries| :: entries[i].Outpoint() != o
  {
    if entries == [] then None
    else if entries[0].Outpoint() == o then Some(0)
    else
      match FirstMatch(entries[1..], o)
      case None =>
        assert forall i | 0 < i < |entries| :: entries[i] == entries[1..][i - 1];
        None
      case Some(i) => Some(i + 1)
  }

  function HalvedCap(n: nat): nat {
    if n / 2 < 1 then 1 else if n / 2 > 255 then 255 else n / 2
  }

  /** One member's entry after its claim of `n` outputs was rejected. */
  function RejectEntry(e: Entry, n: nat, r: Rejection, lastDaa: nat): Entry {
    var halved := e.(batchCap := HalvedCap(n), capSetDaa := lastDaa);
    if r.orphan then
      if n > 1 then halved
      else
        var e1 := e.(orphanRetries := e.orphanRetries + 1);
        if e1.orphanRetries >= MAX_ORPHAN_RETRIES then e1.(orphanSlashed := false, slashed := true)
        else e1.(orphanSlashed := true, retryAfterDaa := Some(lastDaa + ORPHAN_RETRY_COOLDOWN_BLOCKS))
    else if r.seqLock then e.(retryAfterDaa := Some(lastDaa + SEQ_LOCK_RETRY_COOLDOWN_BLOCKS))
    else if r.burned then
      if r.burnedSet != {} then
        if (Lower(e.txid), e.outputIndex) in r.burnedSet then e.(slashed := true) else e
      else if n > 1 then halved
      else e.(slashed := true)
    else
      var e1 := if n > 1 then halved else e;
      var retries := if e.submitRetries >= 255 then 255 else e.submitRetries + 1;
      var cooldown := Min(UNKNOWN_RETRY_BASE_COOLDOWN_DAA * Pow2(Min(retries, 9)), UNKNOWN_RETRY_MAX_COOLDOWN_DAA);
      e1.(submitRetries := retries, retryAfterDaa := Some(lastDaa + cooldown))
  }

  /** A response: accepted, or rejected for reasons. */
  datatype Verdict = Accepted | Rejected(why: Rejection)

  function AnswerEntry(e: Entry, n: nat, v: Verdict, lastDaa: nat): Entry {
    match v
    case Accepted => e.(claimed := true)
    case Rejected(r) => RejectEntry(e, n, r, lastDaa)
  }

  /** Apply a verdict to the first entry of each outpoint of the claim, in order. */
  function AnswerAll(w: Watcher, inputs: seq<Entry>, n: nat, v: Verdict): Watcher
    decreases |inputs|
  {
    if inputs == [] then w
    else
      match FirstMatch(w.entries, inputs[0].Outpoint())
      case None => AnswerAll(w, inputs[1..], n, v)
      case Some(i) => AnswerAll(Put(w, i, AnswerEntry(w.entries[i], n, v, w.lastDaa)), inputs[1..], n, v)
  }

  /** The claim a response belongs to: by its txid, else one whose txid the error text mentions.
  `pick` stands for whichever such claim the unordered map yields first. */
  function Matched(w: Watcher, responseTxid: string, error: Option<Rejection>, pick: string): Option<string> {
    if responseTxid in w.inFlight then Some(responseTxid)
    else if error.Some? && pick in w.inFlight && pick in error.value.mentions then Some(pick)
    else None
  }

  function VerdictOf(error: Option<Rejection>): Verdict {
    if error.None? || error.value.duplicate then Accepted else Rejected(error.value)
  }

  function OnSubmitResponse(w: Watcher, responseTxid: string, error: Option<Rejection>, pick: string): Watcher {
    match Matched(w, responseTxid, error, pick)
    case None => w
    case Some(t) =>
      if t !in w.inFlight then w
      else
        var inputs := w.inFlight[t].inputs;
        AnswerAll(Unclaim(w, t), inputs, |inputs|, VerdictOf(error))
  }

  // ---------------------------------------------------------------- boot validation

  function LiveHashes(entries: seq<Entry>): set<string> {
    set e | e in entries && e.Live() && e.blockHash != "" :: e.blockHash
  }

  function StartValidation(w: Watcher): Watcher {
    w.(validationPending := LiveHashes(w.entries))
  }

  /** A pending hash answered: a block that is not on the chain takes its entries with it. */
  function OnBlockValidated(w: Watcher, hash: string, onChain: bool): Watcher {
    if hash !in w.validationPending then w
    else
      var w1 := w.(validationPending := w.validationPending - {hash});
      if onChain then w1 else PurgeBlock(w1, hash, Ghost)
  }

  /** An unknown block is only ticked off. */
  function OnBlockUnknown(w: Watcher, hash: string): Watcher {
    w.(validationPending := w.validationPending - {hash})
  }

  // ---------------------------------------------------------------- persistence

  /** How a write ends: both files, only the snapshot, or nothing. */
  datatype WriteOutcome = Written | SnapshotOnly | Failed

  datatype Clock = Clock(journalBig: bool, snapshotElapsed: bool, journalElapsed: bool, outcome: WriteOutcome)

  function Records(lines: seq<Line>): (rs: seq<Record>)
    ensures |rs| == |lines|
  {
    seq(|lines|, i requires 0 <= i < |lines| => Whole(lines[i]))
  }

  function WriteSnapshot(w: Watcher, outcome: WriteOutcome): Watcher {
    match outcome
    case Written =>
      w.(disk := Disk(w.entries, w.journalSeq, []), pending := [], linesSinceSnapshot := 0, snapshotDue := false)
    case SnapshotOnly => w.(disk := w.disk.(snapshot := w.entries, snapshotSeq := w.journalSeq))
    case Failed => w
  }

  function WriteJournal(w: Watcher, outcome: WriteOutcome): Watcher {
    if outcome != Written then w
    else
      w.(disk := w.disk.(journal := w.disk.journal + Records(w.pending)),
         linesSinceSnapshot := w.linesSinceSnapshot + |w.pending|,
         pending := [])
  }

  function MaybeFlush(w: Watcher, c: Clock): Watcher {
    var grown := w.linesSinceSnapshot + |w.pending|;
    if w.snapshotDue || c.journalBig || (grown > 0 && c.snapshotElapsed) then WriteSnapshot(w, c.outcome)
    else if w.pending != [] && c.journalElapsed then WriteJournal(w, c.outcome)
    else w
  }

  /** `flush_state`, also run when the watcher is dropped: a snapshot if anything is not in one yet. */
  function FlushState(w: Watcher, outcome: WriteOutcome): Watcher {
    if w.snapshotDue || w.linesSinceSnapshot > 0 || w.pending != [] then WriteSnapshot(w, outcome) else w
  }

  // ---------------------------------------------------------------- blocks

  datatype Block = Block(daa: nat, hash: string, reds: seq<string>, isChain: bool, coinbase: Option<Coinbase>)

  /** What a block does before a claim is looked for. */
  function BeforeClaim(w: Watcher, b: Block): Watcher {
    var w1 := ExpireInFlight(w.(lastDaa := b.daa), b.daa);
    var due := w1.blocksSinceCompact + 1 >= COMPACT_EVERY_BLOCKS;
    var w2 :=
      if due then Compact(w1.(blocksSinceCompact := 0))
      else w1.(blocksSinceCompact := w1.blocksSinceCompact + 1);
    var w3 := PurgeBlocks(w2, b.reds, Red);
    if b.isChain && b.coinbase.Some? then TrackOutputs(w3, b.coinbase.value, b.hash, b.daa, 0) else w3
  }
}
