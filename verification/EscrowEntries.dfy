/** Tracked escrow outputs and the choice of the next claim batch (src/escrow.rs:20-203). */
module EscrowEntries {
  import opened Outcomes

  const CHALLENGE_WINDOW_BLOCKS: nat := 36_000
  const SERVICE_BOND_CSV_WINDOW_BLOCKS: nat := 792_000
  const MAX_CLAIM_BATCH: nat := 87
  const MATURITY_MARGIN: nat := 10

  /** Source transaction and output index: the key of every index of the watcher. */
  type Outpoint = (string, nat)

  datatype Entry = Entry(
    txid: string,
    blockHash: string,
    confirmDaa: nat,
    amount: nat,
    outputIndex: nat,
    claimed: bool,
    slashed: bool,
    orphanSlashed: bool,
    orphanRetries: nat,
    retryAfterDaa: Option<nat>,
    submitRetries: nat,
    batchCap: nat,
    capSetDaa: nat,
    isInference: bool,
    csvWindow: nat)
  {
    function Outpoint(): Outpoint { (txid, outputIndex) }

    predicate Live() { !claimed && !slashed }
  }

  // ---------------------------------------------------------------- claimable entries

  predicate Eligible(e: Entry, daa: nat, busy: set<Outpoint>) {
    && e.Live()
    && daa >= e.confirmDaa + e.csvWindow + MATURITY_MARGIN
    && (e.retryAfterDaa.Some? ==> daa >= e.retryAfterDaa.value)
    && e.Outpoint() !in busy
  }

  /** Nominal, repair, drain and dead-pool passes. */
  predicate InPass(e: Entry, pass: nat, currentWindow: nat) {
    if pass == 0 then e.batchCap == 0 && !e.orphanSlashed
    else if pass == 1 then e.batchCap != 0 && !e.orphanSlashed
    else if pass == 2 then e.batchCap == 0 && !e.orphanSlashed && e.csvWindow != currentWindow
    else e.orphanSlashed
  }

  /** Largest batch an entry may be in. */
  function Cap(e: Entry): (cap: nat)
    ensures 1 <= cap <= MAX_CLAIM_BATCH
  {
    if e.batchCap == 0 || e.batchCap > MAX_CLAIM_BATCH then MAX_CLAIM_BATCH else e.batchCap
  }

  /** What one selection sees. */
  datatype View = View(entries: seq<Entry>, daa: nat, busy: set<Outpoint>, currentWindow: nat)

  predicate Candidate(v: View, pass: nat, i: nat) {
    i < |v.entries| && InPass(v.entries[i], pass, v.currentWindow) && Eligible(v.entries[i], v.daa, v.busy)
  }

  /** Eligible nominal entries of one window. */
  ghost function Nominal(v: View, window: nat): set<nat> {
    set i: nat | i < |v.entries| && Candidate(v, 0, i) && v.entries[i].csvWindow == window
  }

  ghost predicate Distinct(xs: seq<nat>) {
    forall a, b | 0 <= a < b < |xs| :: xs[a] != xs[b]
  }

  /** A batch of one pass and one window, in which no member's cap is exceeded. */
  ghost predicate SafeBatch(v: View, pass: nat, window: nat, batch: seq<nat>) {
    && Distinct(batch)
    && |batch| <= MAX_CLAIM_BATCH
    && forall a | 0 <= a < |batch| ::
      Candidate(v, pass, batch[a]) && v.entries[batch[a]].csvWindow == window && |batch| <= Cap(v.entries[batch[a]])
  }

  /** Nothing is left out that fits: no further entry of the pass and window could join without exceeding
  the batch size, its own cap or a member's. */
  ghost predicate Maximal(v: View, pass: nat, window: nat, batch: seq<nat>) {
    forall i: nat | Candidate(v, pass, i) && v.entries[i].csvWindow == window && i !in batch ::
      !SafeBatch(v, pass, window, batch + [i])
  }

  /** An eligible inference entry is left out of a nominal batch only for 87 other inference entries. */
  ghost predicate InferenceFirst(v: View, window: nat, batch: seq<nat>)
    requires forall a | 0 <= a < |batch| :: batch[a] < |v.entries|
  {
    (exists i :: i in Nominal(v, window) && v.entries[i].isInference && i !in batch) ==>
      forall a | 0 <= a < |batch| :: v.entries[batch[a]].isInference
  }

  ghost predicate NoCandidate(v: View, pass: nat) {
    forall i: nat | i < |v.entries| :: !Candidate(v, pass, i)
  }

  ghost predicate NoFullWindow(v: View) {
    forall w: nat :: |Nominal(v, w)| < MAX_CLAIM_BATCH
  }

  /** Order in which windows are tried: the one coinbases mint now, then the others ascending. */
  predicate Before(a: nat, b: nat, currentWindow: nat) {
    if a == currentWindow then b != currentWindow else b != currentWindow && a < b
  }

  /** The batch is the one the passes put first: full nominal batches, then repair, drain, dead pool. */
  ghost predicate Selected(v: View, pass: nat, window: nat, batch: seq<nat>) {
    && batch != [] && SafeBatch(v, pass, window, batch) && Maximal(v, pass, window, batch)
    && (pass == 0 ==> |batch| == MAX_CLAIM_BATCH && InferenceFirst(v, window, batch))
    && (pass == 0 ==> forall w: nat | Before(w, window, v.currentWindow) :: |Nominal(v, w)| < MAX_CLAIM_BATCH)
    && (pass >= 1 ==> NoFullWindow(v))
    && (pass >= 2 ==> NoCandidate(v, 1))
    && (pass >= 3 ==> NoCandidate(v, 2))
  }

  /** Nothing to ship: fewer than 87 entries are eligible, all uncapped, live and of the current window. */
  ghost predicate NothingToShip(v: View) {
    && (forall i: nat | i < |v.entries| && Eligible(v.entries[i], v.daa, v.busy) ::
          v.entries[i].batchCap == 0 && !v.entries[i].orphanSlashed && v.entries[i].csvWindow == v.currentWindow)
    && |Nominal(v, v.currentWindow)| < MAX_CLAIM_BATCH
  }

  /** What `select_claim_batch` may return. */
  ghost predicate GoodBatch(v: View, batch: seq<nat>) {
    if batch == [] then NothingToShip(v)
    else exists pass: nat, window: nat :: pass <= 3 && Selected(v, pass, window, batch)
  }

  // ---------------------------------------------------------------- iteration orders

  /** Every index once. */
  ghost predicate Covers(order: seq<nat>, n: nat) {
    Distinct(order) && (forall a | 0 <= a < |order| :: order[a] < n) && forall i: nat | i < n :: i in order
  }

  /** Inference entries come before all others. */
  ghost predicate InferenceLeads(entries: seq<Entry>, order: seq<nat>)
    requires forall a | 0 <= a < |order| :: order[a] < |entries|
  {
    forall a, b | 0 <= a < b < |order| :: entries[order[b]].isInference ==> entries[order[a]].isInference
  }

  method PlainOrder(n: nat) returns (order: seq<nat>)
    ensures Covers(order, n)
  {
    order := seq(n, i requires 0 <= i < n => i);
    forall i: nat | i < n ensures i in order {
      assert order[i] == i;
    }
  }

  /** Stable partition: inference entries first, queue order within each kind. */
  method InferenceFirstOrder(entries: seq<Entry>) returns (order: seq<nat>)
    ensures Covers(order, |entries|) && InferenceLeads(entries, order)
  {
    var first := Indices(entries, true);
    var rest := Indices(entries, false);
    order := first + rest;
    forall i: nat | i < |entries| ensures i in order {
      assert i in first || i in rest;
    }
  }

  method Indices(entries: seq<Entry>, inference: bool) returns (out: seq<nat>)
    ensures Distinct(out)
    ensures forall a | 0 <= a < |out| :: out[a] < |entries| && entries[out[a]].isInference == inference
    ensures forall i: nat | i < |entries| && entries[i].isInference == inference :: i in out
  {
    out := [];
    for i := 0 to |entries|
      invariant Distinct(out)
      invariant forall a | 0 <= a < |out| :: out[a] < i && entries[out[a]].isInference == inference
      invariant forall j: nat | j < i && entries[j].isInference == inference :: j in out
    {
      if entries[i].isInference == inference {
        out := out + [i];
      }
    }
  }

  // ---------------------------------------------------------------- one pass

  /** A candidate the pass may still take: of the forced window, if there is one. */
  predicate Wanted(v: View, pass: nat, forced: Option<nat>, i: nat) {
    Candidate(v, pass, i) && (forced.Some? ==> v.entries[i].csvWindow == forced.value)
  }

  /** State of the pass after some of `order`: a safe batch so far, nothing skipped without a reason. */
  ghost predicate Filling(v: View, pass: nat, forced: Option<nat>, done: seq<nat>, batch: seq<nat>, limit: nat,
      window: Option<nat>) {
    && Distinct(batch) && |batch| <= limit && 1 <= limit <= MAX_CLAIM_BATCH
    && (forall a | 0 <= a < |batch| ::
          && batch[a] in done && Wanted(v, pass, forced, batch[a]) && limit <= Cap(v.entries[batch[a]])
          && window == Some(v.entries[batch[a]].csvWindow))
    && (batch == [] ==> window == forced && limit == MAX_CLAIM_BATCH)
    && (batch == [] ==> forall i | i in done :: !Wanted(v, pass, forced, i))
    && (forced.Some? ==> window == forced)
    && (batch != [] ==> exists a :: 0 <= a < |batch| && limit == Cap(v.entries[batch[a]]))
    && (forall i | i in done && Wanted(v, pass, forced, i) && window == Some(v.entries[i].csvWindow) ::
          i in batch || Cap(v.entries[i]) <= |batch|)
    && (pass == 0 && forced.Some? ==>
      limit == MAX_CLAIM_BATCH && forall i | i in done && Wanted(v, pass, forced, i) :: i in batch)
  }

  lemma {:induction false} NextInOrder(order: seq<nat>, k: nat)
    requires Distinct(order) && k < |order|
    ensures order[..k + 1] == order[..k] + [order[k]] && order[k] !in order[..k]
  {
  }

  method FillBatch(v: View, pass: nat, forced: Option<nat>, order: seq<nat>)
    returns (batch: seq<nat>, ghost done: seq<nat>, ghost limit': nat, ghost window': Option<nat>)
    requires Covers(order, |v.entries|)
    ensures done <= order && Filling(v, pass, forced, done, batch, limit', window')
    ensures |batch| < limit' ==> done == order
  {
    batch := [];
    var limit: nat := MAX_CLAIM_BATCH;
    var window := forced;
    var k: nat := 0;
    while k < |order|
      invariant k <= |order|
      invariant Filling(v, pass, forced, order[..k], batch, limit, window)
      invariant |batch| < limit
    {
      var i := order[k];
      var e := v.entries[i];
      ghost var old' := order[..k];
      NextInOrder(order, k);
      k := k + 1;
      if InPass(e, pass, v.currentWindow) && Eligible(e, v.daa, v.busy)
        && !(window.Some? && window.value != e.csvWindow) {
        var cap := Cap(e);
        if (if cap <= limit then cap else limit) >= |batch| + 1 {
          TakeKeeps(v, pass, forced, old', batch, limit, window, i);
          limit := if limit <= cap then limit else cap;
          window := Some(e.csvWindow);
          batch := batch + [i];
          if |batch| >= limit {
            return batch, order[..k], limit, window;
          }
        } else {
          SkipKeeps(v, pass, forced, old', batch, limit, window, i);
        }
      } else {
        SkipKeeps(v, pass, forced, old', batch, limit, window, i);
      }
    }
    return batch, order[..k], limit, window;
  }

  /** A pass that is over has left out only entries that could not join. */
  lemma {:induction false} FilledIsMaximal(v: View, pass: nat, forced: Option<nat>, order: seq<nat>, done: seq<nat>,
      batch: seq<nat>, limit: nat, window: Option<nat>)
    requires Covers(order, |v.entries|) && Filling(v, pass, forced, done, batch, limit, window)
    requires |batch| < limit ==> done == order
    ensures batch != [] ==> Maximal(v, pass, v.entries[batch[0]].csvWindow, batch)
  {
    if batch != [] {
      var w := v.entries[batch[0]].csvWindow;
      forall i: nat | Candidate(v, pass, i) && v.entries[i].csvWindow == w && i !in batch
        ensures !SafeBatch(v, pass, w, batch + [i])
      {
        if |batch| < limit {
          assert i in done && Wanted(v, pass, forced, i);
          assert (batch + [i])[|batch|] == i;
        } else {
          var a :| 0 <= a < |batch| && limit == Cap(v.entries[batch[a]]);
          assert (batch + [i])[a] == batch[a];
        }
      }
    }
  }

  lemma {:induction false} TakeKeeps(v: View, pass: nat, forced: Option<nat>, done: seq<nat>, batch: seq<nat>,
      limit: nat, window: Option<nat>, i: nat)
    requires Filling(v, pass, forced, done, batch, limit, window) && i !in done
    requires Candidate(v, pass, i) && (window.Some? ==> window.value == v.entries[i].csvWindow)
    requires |batch| + 1 <= limit && |batch| + 1 <= Cap(v.entries[i])
    ensures var cap := Cap(v.entries[i]);
      Filling(v, pass, forced, done + [i], batch + [i], if limit <= cap then limit else cap,
        Some(v.entries[i].csvWindow))
  {
    forall a | 0 <= a < |batch| ensures batch[a] != i {
      assert batch[a] in done;
    }
    var cap, batch' := Cap(v.entries[i]), batch + [i];
    if batch != [] && limit < cap {
      var a :| 0 <= a < |batch| && limit == Cap(v.entries[batch[a]]);
      assert batch'[a] == batch[a];
    } else {
      assert batch'[|batch|] == i;
    }
  }

  lemma {:induction false} SkipKeeps(v: View, pass: nat, forced: Option<nat>, done: seq<nat>, batch: seq<nat>,
      limit: nat, window: Option<nat>, i: nat)
    requires Filling(v, pass, forced, done, batch, limit, window) && |batch| < limit
    requires i < |v.entries|
    requires !Candidate(v, pass, i) || (window.Some? && window.value != v.entries[i].csvWindow)
      || |batch| + 1 > limit || |batch| + 1 > Cap(v.entries[i])
    ensures Filling(v, pass, forced, done + [i], batch, limit, window)
  {
    forall j | j in done + [i] && Wanted(v, pass, forced, j) && window == Some(v.entries[j].csvWindow)
      ensures j in batch || Cap(v.entries[j]) <= |batch| {
      assert j in done || j == i;
    }
  }

  // ---------------------------------------------------------------- outcome of a pass

  ghost function Members(xs: seq<nat>): set<nat> {
    set x | x in xs
  }

  lemma {:induction false} MembersCount(xs: seq<nat>)
    requires Distinct(xs)
    ensures |Members(xs)| == |xs|
    decreases |xs|
  {
    if xs != [] {
      var n := |xs| - 1;
      MembersCount(xs[..n]);
      assert Members(xs) == Members(xs[..n]) + {xs[n]};
      assert xs[n] !in Members(xs[..n]);
    }
  }

  /** A nominal pass of one window either fills up or has found every eligible entry. */
  lemma {:induction false} NominalOutcome(v: View, w: nat, order: seq<nat>, done: seq<nat>, batch: seq<nat>,
      limit: nat, window: Option<nat>)
    requires Covers(order, |v.entries|) && InferenceLeads(v.entries, order) && done <= order
    requires Filling(v, 0, Some(w), done, batch, limit, window) && (|batch| < limit ==> done == order)
    ensures SafeBatch(v, 0, w, batch) && Maximal(v, 0, w, batch)
    ensures |batch| == MAX_CLAIM_BATCH ==> InferenceFirst(v, w, batch)
    ensures |batch| < MAX_CLAIM_BATCH ==> |Nominal(v, w)| < MAX_CLAIM_BATCH
  {
    FilledIsMaximal(v, 0, Some(w), order, done, batch, limit, window);
    if |batch| < MAX_CLAIM_BATCH {
      assert Nominal(v, w) <= Members(batch);
      assert Members(batch) <= Nominal(v, w);
      assert Members(batch) == Nominal(v, w);
      MembersCount(batch);
    } else {
      LeftOutInference(v, w, order, done, batch, limit, window);
    }
  }

  lemma {:induction false} LeftOutInference(v: View, w: nat, order: seq<nat>, done: seq<nat>, batch: seq<nat>,
      limit: nat, window: Option<nat>)
    requires Covers(order, |v.entries|) && InferenceLeads(v.entries, order) && done <= order
    requires Filling(v, 0, Some(w), done, batch, limit, window)
    ensures InferenceFirst(v, w, batch)
  {
    forall i, a | i in Nominal(v, w) && v.entries[i].isInference && i !in batch && 0 <= a < |batch|
      ensures v.entries[batch[a]].isInference
    {
      assert i in order;
      var q :| 0 <= q < |order| && order[q] == i;
      assert batch[a] in done;
      var p :| 0 <= p < |done| && done[p] == batch[a];
      assert order[p] == done[p];
      assert Wanted(v, 0, Some(w), i);
      assert i !in done;
      assert done == order[..|done|];
    }
  }

  /** An un-nominal pass comes up empty exactly when it has no candidate at all. */
  lemma {:induction false} OtherOutcome(v: View, pass: nat, order: seq<nat>, done: seq<nat>, batch: seq<nat>,
      limit: nat, window: Option<nat>)
    requires Covers(order, |v.entries|) && done <= order && pass >= 1
    requires Filling(v, pass, None, done, batch, limit, window) && (|batch| < limit ==> done == order)
    ensures batch == [] ==> NoCandidate(v, pass)
    ensures batch != [] ==>
      window.Some? && SafeBatch(v, pass, window.value, batch) && Maximal(v, pass, window.value, batch)
  {
    FilledIsMaximal(v, pass, None, order, done, batch, limit, window);
    if batch == [] {
      forall i: nat | i < |v.entries| ensures !Candidate(v, pass, i) {
        assert i in done;
        assert !Wanted(v, pass, None, i);
      }
    } else {
      assert window == Some(v.entries[batch[0]].csvWindow);
    }
  }

  // ---------------------------------------------------------------- windows in order

  ghost predicate Ordered(ws: seq<nat>, currentWindow: nat) {
    forall a, b | 0 <= a < b < |ws| :: Before(ws[a], ws[b], currentWindow)
  }

  /** Sorted insertion without duplicates. */
  function InsertWindow(ws: seq<nat>, w: nat, currentWindow: nat): (out: seq<nat>)
    requires Ordered(ws, currentWindow)
    ensures Ordered(out, currentWindow)
    ensures forall x :: x in out <==> x in ws || x == w
  {
    if ws == [] || Before(w, ws[0], currentWindow) then [w] + ws
    else if ws[0] == w then ws
    else
      var rest := InsertWindow(ws[1..], w, currentWindow);
      assert ws == [ws[0]] + ws[1..];
      assert forall x | x in rest :: Before(ws[0], x, currentWindow);
      [ws[0]] + rest
  }

  /** The windows present, each once: sort and dedup. */
  method WindowsOf(entries: seq<Entry>, currentWindow: nat) returns (ws: seq<nat>)
    ensures Ordered(ws, currentWindow)
    ensures forall i | 0 <= i < |entries| :: entries[i].csvWindow in ws
  {
    ws := [];
    for i := 0 to |entries|
      invariant Ordered(ws, currentWindow)
      invariant forall j | 0 <= j < i :: entries[j].csvWindow in ws
    {
      ws := InsertWindow(ws, entries[i].csvWindow, currentWindow);
    }
  }

  // ---------------------------------------------------------------- the selection

  method SelectClaimBatch(v: View) returns (batch: seq<nat>)
    ensures GoodBatch(v, batch)
  {
    var windows := WindowsOf(v.entries, v.currentWindow);
    var nominalOrder := InferenceFirstOrder(v.entries);
    for k := 0 to |windows|
      invariant forall a | 0 <= a < k :: |Nominal(v, windows[a])| < MAX_CLAIM_BATCH
    {
      ghost var done, limit, window;
      batch, done, limit, window := FillBatch(v, 0, Some(windows[k]), nominalOrder);
      NominalOutcome(v, windows[k], nominalOrder, done, batch, limit, window);
      if |batch| >= MAX_CLAIM_BATCH {
        EarlierWindows(v, windows, k);
        assert Selected(v, 0, windows[k], batch);
        return;
      }
    }
    AllWindows(v, windows);
    var order := PlainOrder(|v.entries|);
    for pass := 1 to 4
      invariant NoFullWindow(v)
      invariant forall q: nat | 1 <= q < pass :: NoCandidate(v, q)
    {
      ghost var done, limit, window;
      batch, done, limit, window := FillBatch(v, pass, None, order);
      OtherOutcome(v, pass, order, done, batch, limit, window);
      if batch != [] {
        assert Selected(v, pass, window.value, batch);
        return;
      }
    }
    NothingLeft(v);
    batch := [];
  }

  lemma {:induction false} AbsentWindow(v: View, windows: seq<nat>, w: nat)
    requires forall i | 0 <= i < |v.entries| :: v.entries[i].csvWindow in windows
    requires w !in windows
    ensures |Nominal(v, w)| == 0
  {
    assert Nominal(v, w) == {};
  }

  lemma {:induction false} EarlierWindows(v: View, windows: seq<nat>, k: nat)
    requires Ordered(windows, v.currentWindow) && k < |windows|
    requires forall i | 0 <= i < |v.entries| :: v.entries[i].csvWindow in windows
    requires forall a | 0 <= a < k :: |Nominal(v, windows[a])| < MAX_CLAIM_BATCH
    ensures forall w: nat | Before(w, windows[k], v.currentWindow) :: |Nominal(v, w)| < MAX_CLAIM_BATCH
  {
    forall w: nat | Before(w, windows[k], v.currentWindow) ensures |Nominal(v, w)| < MAX_CLAIM_BATCH {
      if w in windows {
        var a :| 0 <= a < |windows| && windows[a] == w;
        assert a > k ==> Before(windows[k], windows[a], v.currentWindow);
      } else {
        AbsentWindow(v, windows, w);
      }
    }
  }

  lemma {:induction false} AllWindows(v: View, windows: seq<nat>)
    requires forall i | 0 <= i < |v.entries| :: v.entries[i].csvWindow in windows
    requires forall a | 0 <= a < |windows| :: |Nominal(v, windows[a])| < MAX_CLAIM_BATCH
    ensures NoFullWindow(v)
  {
    forall w: nat ensures |Nominal(v, w)| < MAX_CLAIM_BATCH {
      if w !in windows {
        AbsentWindow(v, windows, w);
      }
    }
  }

  lemma {:induction false} NothingLeft(v: View)
    requires NoFullWindow(v) && NoCandidate(v, 1) && NoCandidate(v, 2) && NoCandidate(v, 3)
    ensures NothingToShip(v)
  {
    forall i: nat | i < |v.entries| && Eligible(v.entries[i], v.daa, v.busy)
      ensures v.entries[i].batchCap == 0 && !v.entries[i].orphanSlashed && v.entries[i].csvWindow == v.currentWindow
    {
      assert !Candidate(v, 1, i) && !Candidate(v, 2, i) && !Candidate(v, 3, i);
    }
  }

  /** Empty exactly when there is nothing to ship: a selected batch always leaves something eligible. */
  lemma {:induction false} EmptyIffNothingToShip(v: View, batch: seq<nat>)
    requires GoodBatch(v, batch)
    ensures batch == [] <==> NothingToShip(v)
  {
    if batch != [] {
      var pass: nat, window: nat :| pass <= 3 && Selected(v, pass, window, batch);
      assert Candidate(v, pass, batch[0]) && v.entries[batch[0]].csvWindow == window;
      if pass == 0 && window == v.currentWindow {
        MembersCount(batch);
        assert Members(batch) <= Nominal(v, window);
        SubsetCount(Members(batch), Nominal(v, window));
      }
    }
  }

  lemma {:induction false} SubsetCount(a: set<nat>, b: set<nat>)
    requires a <= b
    ensures |a| <= |b|
  {
    assert b == a + (b - a);
  }
}
