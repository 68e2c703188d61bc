/** What the selection of a claim batch amounts to, in fields of the entries (src/escrow.rs:100-203). */
module EscrowChoice {
  import opened Outcomes
  import opened EscrowEntries

  /** What a claim may spend at score `daa`: neither done nor waiting, ten scores past its own lock. */
  ghost predicate Spendable(e: Entry, daa: nat, busy: set<Outpoint>) {
    && !e.claimed && !e.slashed && e.Outpoint() !in busy
    && daa >= e.confirmDaa + e.csvWindow + 10
    && (e.retryAfterDaa.Some? ==> daa >= e.retryAfterDaa.value)
  }

  /** Never rejected in a batch, rejected in one, or found dead alone. */
  datatype Kind = Whole | Halved | Dead

  function KindOf(e: Entry): Kind {
    if e.orphanSlashed then Dead else if e.batchCap == 0 then Whole else Halved
  }

  function Room(e: Entry): nat {
    if 0 < e.batchCap < 87 then e.batchCap else 87
  }

  /** Spendable entry `i` is of that kind. */
  ghost predicate Ready(v: View, i: nat, kind: Kind) {
    i < |v.entries| && Spendable(v.entries[i], v.daa, v.busy) && KindOf(v.entries[i]) == kind
  }

  ghost function Wholes(v: View, window: nat): set<nat> {
    set i: nat | i < |v.entries| && Ready(v, i, Whole) && v.entries[i].csvWindow == window
  }

  /** No window has a full batch of whole entries. */
  ghost predicate NoneFull(v: View) {
    forall w: nat :: |Wholes(v, w)| < 87
  }

  /** One kind, one window, nobody twice, and nobody in a larger company than it may be in. */
  ghost predicate OneKind(v: View, kind: Kind, window: nat, batch: seq<nat>) {
    && |batch| <= 87
    && (forall a, b | 0 <= a < b < |batch| :: batch[a] != batch[b])
    && forall a | 0 <= a < |batch| ::
      Ready(v, batch[a], kind) && v.entries[batch[a]].csvWindow == window && |batch| <= Room(v.entries[batch[a]])
  }

  /** Whoever else of that kind and window is ready had no room: for itself, beside a member, or at all. */
  ghost predicate NoMoreRoom(v: View, kind: Kind, window: nat, batch: seq<nat>)
    requires forall a | 0 <= a < |batch| :: batch[a] < |v.entries|
  {
    forall i: nat | Ready(v, i, kind) && v.entries[i].csvWindow == window && i !in batch ::
      |batch| >= Room(v.entries[i]) || exists a :: 0 <= a < |batch| && |batch| >= Room(v.entries[batch[a]])
  }

  /** A full batch of whole entries of the first window that has one, in window order from the current one,
  inference first; failing that, halved entries at any size; failing those, whole entries of a window
  coinbases no longer mint; failing those, dead ones. */
  ghost predicate ChosenFairly(v: View, batch: seq<nat>) {
    exists kind, window :: ChosenAs(v, kind, window, batch)
  }

  ghost predicate ChosenAs(v: View, kind: Kind, window: nat, batch: seq<nat>) {
    && batch != [] && OneKind(v, kind, window, batch) && NoMoreRoom(v, kind, window, batch)
    && (if kind == Whole && |batch| == 87 then
          && (forall w: nat | w != window && (w == v.currentWindow || (window != v.currentWindow && w < window)) ::
                |Wholes(v, w)| < 87)
          && ((exists i :: i in Wholes(v, window) && v.entries[i].isInference && i !in batch) ==>
                forall a | 0 <= a < |batch| :: v.entries[batch[a]].isInference)
        else
          && NoneFull(v)
          && (kind != Halved ==> forall i: nat :: !Ready(v, i, Halved))
          && (kind == Whole ==> window != v.currentWindow)
          && (kind == Dead ==> forall i: nat | Ready(v, i, Whole) :: v.entries[i].csvWindow == v.currentWindow))
  }

  /** Nothing is worth sending: whatever is spendable is whole, of the current window, and fewer than 87. */
  ghost predicate NothingWorthSending(v: View) {
    && (forall i: nat | i < |v.entries| && Spendable(v.entries[i], v.daa, v.busy) ::
          KindOf(v.entries[i]) == Whole && v.entries[i].csvWindow == v.currentWindow)
    && |set i: nat | i < |v.entries| && Spendable(v.entries[i], v.daa, v.busy)| < 87
  }

  // ---------------------------------------------------------------- proofs

  function KindOfPass(pass: nat): Kind {
    if pass == 0 || pass == 2 then Whole else if pass == 1 then Halved else Dead
  }

  lemma {:induction false} CandidateIs(v: View, pass: nat, i: nat)
    requires pass <= 3
    ensures Candidate(v, pass, i)
      <==> Ready(v, i, KindOfPass(pass)) && (pass == 2 ==> v.entries[i].csvWindow != v.currentWindow)
  {
  }

  lemma {:induction false} WholesAreNominal(v: View)
    ensures forall w: nat :: Wholes(v, w) == Nominal(v, w)
  {
    forall w: nat ensures Wholes(v, w) == Nominal(v, w) {
      forall i: nat ensures i in Wholes(v, w) <==> i in Nominal(v, w) {
        CandidateIs(v, 0, i);
      }
    }
  }

  lemma {:induction false} MemberIs(v: View, pass: nat, window: nat, n: nat, i: nat)
    requires pass <= 3
    ensures Candidate(v, pass, i) && v.entries[i].csvWindow == window && n <= Cap(v.entries[i])
      <==> (Ready(v, i, KindOfPass(pass)) && v.entries[i].csvWindow == window && n <= Room(v.entries[i])
            && (pass == 2 ==> window != v.currentWindow))
  {
    CandidateIs(v, pass, i);
  }

  lemma {:induction false} SafeIsOneKind(v: View, pass: nat, window: nat, batch: seq<nat>)
    requires pass <= 3 && batch != []
    ensures SafeBatch(v, pass, window, batch)
      <==> OneKind(v, KindOfPass(pass), window, batch) && (pass == 2 ==> window != v.currentWindow)
  {
    forall a | 0 <= a < |batch|
      ensures (Candidate(v, pass, batch[a]) && v.entries[batch[a]].csvWindow == window
          && |batch| <= Cap(v.entries[batch[a]]))
        <==> (Ready(v, batch[a], KindOfPass(pass)) && v.entries[batch[a]].csvWindow == window
            && |batch| <= Room(v.entries[batch[a]]) && (pass == 2 ==> window != v.currentWindow))
    {
      MemberIs(v, pass, window, |batch|, batch[a]);
    }
    if SafeBatch(v, pass, window, batch) {
      MemberIs(v, pass, window, |batch|, batch[0]);
    }
  }

  lemma {:induction false} MaximalIsNoMoreRoom(v: View, pass: nat, window: nat, batch: seq<nat>)
    requires pass <= 3 && batch != [] && SafeBatch(v, pass, window, batch) && Maximal(v, pass, window, batch)
    ensures OneKind(v, KindOfPass(pass), window, batch) && NoMoreRoom(v, KindOfPass(pass), window, batch)
  {
    SafeIsOneKind(v, pass, window, batch);
    forall i: nat | Ready(v, i, KindOfPass(pass)) && v.entries[i].csvWindow == window && i !in batch
      ensures |batch| >= Room(v.entries[i]) || exists a :: 0 <= a < |batch| && |batch| >= Room(v.entries[batch[a]])
    {
      CandidateIs(v, pass, i);
      SafeIsOneKind(v, pass, window, batch + [i]);
      assert !OneKind(v, KindOfPass(pass), window, batch + [i]);
    }
  }

  /** Every batch the selection may return is chosen fairly, and it returns none only when nothing is worth
  sending. */
  lemma {:induction false} SelectionIsFair(v: View, batch: seq<nat>)
    requires GoodBatch(v, batch)
    ensures if batch == [] then NothingWorthSending(v) else ChosenFairly(v, batch)
  {
    WholesAreNominal(v);
    if batch == [] {
      NothingShipped(v);
    } else {
      var pass: nat, window: nat :| pass <= 3 && Selected(v, pass, window, batch);
      MaximalIsNoMoreRoom(v, pass, window, batch);
      PriorityKept(v, pass, window, batch);
      assert ChosenAs(v, KindOfPass(pass), window, batch);
    }
  }

  lemma {:induction false} PriorityKept(v: View, pass: nat, window: nat, batch: seq<nat>)
    requires pass <= 3 && Selected(v, pass, window, batch)
    requires OneKind(v, KindOfPass(pass), window, batch)
    ensures pass >= 1 ==> NoneFull(v) && !(KindOfPass(pass) == Whole && |batch| == 87)
    ensures pass >= 2 ==> forall i: nat :: !Ready(v, i, Halved)
    ensures pass == 2 ==> window != v.currentWindow
    ensures pass == 3 ==> forall i: nat | Ready(v, i, Whole) :: v.entries[i].csvWindow == v.currentWindow
  {
    WholesAreNominal(v);
    SafeIsOneKind(v, pass, window, batch);
    if pass == 2 && |batch| == 87 {
      FullBatchIsFull(v, window, batch);
    }
    forall i: nat
      ensures pass >= 2 ==> !Ready(v, i, Halved)
      ensures pass == 3 && Ready(v, i, Whole) ==> v.entries[i].csvWindow == v.currentWindow
    {
      CandidateIs(v, 1, i);
      CandidateIs(v, 2, i);
      assert pass >= 2 && i < |v.entries| ==> !Candidate(v, 1, i);
      assert pass == 3 && i < |v.entries| ==> !Candidate(v, 2, i);
    }
  }

  lemma {:induction false} FullBatchIsFull(v: View, window: nat, batch: seq<nat>)
    requires OneKind(v, Whole, window, batch)
    ensures |Wholes(v, window)| >= |batch|
  {
    MembersCount(batch);
    forall i | i in Members(batch) ensures i in Wholes(v, window) {
      var a :| 0 <= a < |batch| && batch[a] == i;
      assert Ready(v, batch[a], Whole);
    }
    SubsetCount(Members(batch), Wholes(v, window));
  }

  lemma {:induction false} NothingShipped(v: View)
    requires NothingToShip(v)
    ensures NothingWorthSending(v)
  {
    forall i: nat | i < |v.entries|
      ensures Spendable(v.entries[i], v.daa, v.busy) <==> Eligible(v.entries[i], v.daa, v.busy)
      ensures Spendable(v.entries[i], v.daa, v.busy) ==> i in Nominal(v, v.currentWindow)
    {
      CandidateIs(v, 0, i);
    }
    var spendable := set i: nat | i < |v.entries| && Spendable(v.entries[i], v.daa, v.busy);
    SubsetCount(spendable, Nominal(v, v.currentWindow));
  }
}
