/** In-flight claims: an output is never in two unanswered claims (src/escrow.rs:686-705, 828-921). */
module EscrowClaims {
  import opened EscrowEntries
  import opened EscrowModel
  import opened EscrowIndexes

  type TxidOf = seq<Entry> -> string

  /** Claim txids tell claims with different inputs apart. */
  ghost predicate Injective(txid: TxidOf) {
    forall a, b :: txid(a) == txid(b) ==> Outpoints(a) == Outpoints(b)
  }

  ghost predicate DistinctOutpoints(es: seq<Entry>) {
    forall i, j | 0 <= i < j < |es| :: es[i].Outpoint() != es[j].Outpoint()
  }

  /** The first input's outpoint is not among the others'. */
  lemma {:induction false} RestOutpoints(inputs: seq<Entry>)
    requires DistinctOutpoints(inputs) && inputs != []
    ensures DistinctOutpoints(inputs[1..]) && inputs[0].Outpoint() !in Outpoints(inputs[1..])
    ensures Outpoints(inputs) == {inputs[0].Outpoint()} + Outpoints(inputs[1..])
  {
    assert inputs == [inputs[0]] + inputs[1..];
  }

  ghost predicate ClaimOk(c: Claim, t: string, txid: TxidOf) {
    c.inputs != [] && |c.inputs| <= MAX_CLAIM_BATCH && DistinctOutpoints(c.inputs) && t == txid(c.inputs)
  }

  /** Every outpoint of every claim. */
  ghost function AllOutpoints(inFlight: map<string, Claim>): set<Outpoint> {
    set t, o | t in inFlight && o in Outpoints(inFlight[t].inputs) :: o
  }

  ghost predicate Separate(m: map<string, Claim>, t: string, u: string)
    requires t in m && u in m
  {
    t != u ==> Outpoints(m[t].inputs) !! Outpoints(m[u].inputs)
  }

  ghost predicate BooksOk(m: map<string, Claim>, busy: set<Outpoint>, txid: TxidOf) {
    && |m| <= MAX_IN_FLIGHT_CLAIMS
    && (forall t | t in m :: ClaimOk(m[t], t, txid))
    && (forall t, u | t in m && u in m :: Separate(m, t, u))
    && busy == AllOutpoints(m)
  }

  /** At most four claims with pairwise disjoint inputs, whose union is exactly the busy set. */
  ghost predicate InFlightOk(w: Watcher, txid: TxidOf) {
    BooksOk(w.inFlight, w.busy, txid)
  }

  lemma {:induction false} SubmapSize(m: map<string, Claim>, sub: map<string, Claim>)
    requires sub.Keys <= m.Keys
    ensures |sub| <= |m|
  {
    assert m.Keys == sub.Keys + (m.Keys - sub.Keys);
    assert |m| == |m.Keys| && |sub| == |sub.Keys|;
  }

  /** Dropping claims and exactly their outpoints keeps the books straight. */
  lemma {:induction false} DropClaims(w: Watcher, w': Watcher, txid: TxidOf)
    requires InFlightOk(w, txid)
    requires w'.inFlight.Keys <= w.inFlight.Keys
    requires forall t | t in w'.inFlight :: w'.inFlight[t] == w.inFlight[t]
    requires w'.busy
      == w.busy - (set t, o | t in w.inFlight && t !in w'.inFlight && o in Outpoints(w.inFlight[t].inputs) :: o)
    ensures InFlightOk(w', txid)
  {
    SubmapSize(w.inFlight, w'.inFlight);
    forall t, u | t in w'.inFlight && u in w'.inFlight ensures Separate(w'.inFlight, t, u) {
      assert Separate(w.inFlight, t, u);
    }
    forall o ensures o in w'.busy <==> o in AllOutpoints(w'.inFlight) {
      if o in w'.busy {
        var t :| t in w.inFlight && o in Outpoints(w.inFlight[t].inputs);
        assert t in w'.inFlight;
      }
      if o in AllOutpoints(w'.inFlight) {
        var t :| t in w'.inFlight && o in Outpoints(w'.inFlight[t].inputs);
        assert o in w.busy;
        forall u | u in w.inFlight && u !in w'.inFlight ensures o !in Outpoints(w.inFlight[u].inputs) {
          assert Separate(w.inFlight, t, u);
        }
      }
    }
  }

  lemma {:induction false} UnclaimOk(w: Watcher, t: string, txid: TxidOf)
    requires InFlightOk(w, txid) && t in w.inFlight
    ensures InFlightOk(Unclaim(w, t), txid)
  {
    var w' := Unclaim(w, t);
    assert (set u, o | u in w.inFlight && u !in w'.inFlight && o in Outpoints(w.inFlight[u].inputs) :: o)
      == Outpoints(w.inFlight[t].inputs);
    DropClaims(w, w', txid);
  }

  lemma {:induction false} ExpireOk(w: Watcher, daa: nat, txid: TxidOf)
    requires InFlightOk(w, txid)
    ensures InFlightOk(ExpireInFlight(w, daa), txid)
  {
    var w' := ExpireInFlight(w, daa);
    assert (set t, o | t in w.inFlight && t !in w'.inFlight && o in Outpoints(w.inFlight[t].inputs) :: o)
      == ExpiredOutpoints(w.inFlight, daa);
    DropClaims(w, w', txid);
  }

  /** Outputs nobody is waiting for make a txid nobody is waiting for. */
  lemma {:induction false} FreshTxid(w: Watcher, inputs: seq<Entry>, txid: TxidOf)
    requires InFlightOk(w, txid) && Injective(txid)
    requires inputs != [] && Outpoints(inputs) !! w.busy
    ensures txid(inputs) !in w.inFlight
  {
    var t := txid(inputs);
    var o := inputs[0].Outpoint();
    assert o in Outpoints(inputs);
    assert t in w.inFlight ==> ClaimOk(w.inFlight[t], t, txid) && o in Outpoints(w.inFlight[t].inputs);
    assert t in w.inFlight ==> o in AllOutpoints(w.inFlight);
  }

  lemma {:induction false} AddedOutpoints(m: map<string, Claim>, t: string, c: Claim)
    requires t !in m
    ensures AllOutpoints(m[t := c]) == AllOutpoints(m) + Outpoints(c.inputs)
  {
    var m' := m[t := c];
    forall o | o in AllOutpoints(m') ensures o in AllOutpoints(m) + Outpoints(c.inputs) {
      var u :| u in m' && o in Outpoints(m'[u].inputs);
      assert u != t ==> u in m && m'[u] == m[u];
    }
    forall o | o in AllOutpoints(m) ensures o in AllOutpoints(m') {
      var u :| u in m && o in Outpoints(m[u].inputs);
      assert u in m' && m'[u] == m[u];
    }
    assert t in m' && m'[t] == c;
  }

  /** A new claim of outputs nobody is waiting for joins the others. */
  lemma {:induction false} AddClaimOk(w: Watcher, inputs: seq<Entry>, daa: nat, txid: TxidOf)
    requires InFlightOk(w, txid) && Injective(txid) && |w.inFlight| < MAX_IN_FLIGHT_CLAIMS
    requires 0 < |inputs| <= MAX_CLAIM_BATCH && DistinctOutpoints(inputs) && Outpoints(inputs) !! w.busy
    ensures InFlightOk(AddClaim(w, txid(inputs), inputs, daa), txid)
  {
    FreshTxid(w, inputs, txid);
    AddToBooks(w.inFlight, w.busy, txid(inputs), Claim(inputs, daa), txid);
  }

  lemma {:induction false} AddToBooks(m: map<string, Claim>, busy: set<Outpoint>, t: string, c: Claim, txid: TxidOf)
    requires BooksOk(m, busy, txid) && t !in m && |m| < MAX_IN_FLIGHT_CLAIMS
    requires ClaimOk(c, t, txid) && Outpoints(c.inputs) !! busy
    ensures BooksOk(m[t := c], busy + Outpoints(c.inputs), txid)
  {
    AddedOutpoints(m, t, c);
    var m' := m[t := c];
    assert m'.Keys == m.Keys + {t};
    assert |m'| == |m'.Keys|;
    forall u, x | u in m' && x in m' ensures Separate(m', u, x) {
      if u != t && x != t {
        assert Separate(m, u, x);
      } else if u != x {
        var y := if u == t then x else u;
        assert Outpoints(m[y].inputs) <= AllOutpoints(m);
      }
    }
  }

  // ---------------------------------------------------------------- the chosen batch

  /** A selected batch of a coherent watcher: live entries with distinct, free outpoints, one window. */
  lemma {:induction false} BatchInputs(w: Watcher, v: View, batch: seq<nat>)
    requires Coherent(w) && v.entries == w.entries && v.busy == w.busy
    requires GoodBatch(v, batch) && batch != []
    ensures forall a | 0 <= a < |batch| :: batch[a] < |w.entries|
    ensures |batch| <= MAX_CLAIM_BATCH && DistinctOutpoints(Inputs(w, batch)) && Outpoints(Inputs(w, batch)) !! w.busy
    ensures forall a | 0 <= a < |batch| :: |batch| <= Cap(w.entries[batch[a]])
    ensures forall e | e in Inputs(w, batch) :: e.Live() && e.csvWindow == Inputs(w, batch)[0].csvWindow
  {
    var pass: nat, window: nat :| pass <= 3 && Selected(v, pass, window, batch);
    forall a | 0 <= a < |batch|
      ensures batch[a] < |w.entries| && w.entries[batch[a]].Live() && w.entries[batch[a]].Outpoint() !in w.busy
        && w.entries[batch[a]].csvWindow == window
    {
      assert Candidate(v, pass, batch[a]);
    }
    var es := Inputs(w, batch);
    forall i, j | 0 <= i < j < |es| ensures es[i].Outpoint() != es[j].Outpoint() {
      assert batch[i] != batch[j];
      if batch[i] < batch[j] {
        assert Apart(w.entries[batch[i]], w.entries[batch[j]]);
      } else {
        assert Apart(w.entries[batch[j]], w.entries[batch[i]]);
      }
    }
    forall o | o in Outpoints(es) ensures o !in w.busy {
      var e :| e in es && e.Outpoint() == o;
    }
  }
}
