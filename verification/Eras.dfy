/** Which models a miner stages ahead of the era gates (src/models.rs:306-407). */
module Eras {
  import opened Outcomes

  const U64_MAX: nat := 0xFFFF_FFFF_FFFF_FFFF

  datatype Tier = VeryLight | Light | Default | High | VeryHigh

  datatype Model = Qwen9B | Glm9B | Gemma12B | Qwen27B | Qwen27BPrivate | Kimi48B

  /** Gate scores; `U64_MAX` is "never". The tier to step to at the v5 gate, if it is not the launch tier. */
  datatype Schedule = Schedule(v3: nat, privateInference: nat, v5: nat, h15: Option<Tier>)

  predicate Scores(s: Schedule) {
    s.v3 <= U64_MAX && s.privateInference <= U64_MAX && s.v5 <= U64_MAX
  }

  function StagingDaa(s: Schedule): nat {
    if s.privateInference == U64_MAX then s.v3
    else if s.privateInference >= s.v3 then s.privateInference else s.v3
  }

  function ModelForTier(s: Schedule, daa: nat, tier: Tier): Option<Model> {
    if daa < s.v3 then None
    else
      Some(match tier
           case VeryLight => Qwen9B
           case Light => Glm9B
           case Default => Gemma12B
           case High => if daa >= s.privateInference then Qwen27BPrivate else Qwen27B
           case VeryHigh => Kimi48B)
  }

  function TierAt(s: Schedule, daa: nat, tier: Tier): Tier {
    if s.h15.Some? && daa >= s.v5 then s.h15.value else tier
  }

  /** The model a miner launched on `tier` mines at `daa`. */
  function Mined(s: Schedule, tier: Tier, daa: nat): Option<Model> {
    ModelForTier(s, daa, TierAt(s, daa, tier))
  }

  /** The tier table of the network, read from the model: which tier mines it, and when. From the v5 gate on
  the tier to step to counts, if there is one. */
  predicate Mines(s: Schedule, tier: Tier, daa: nat, m: Model) {
    var t := if s.h15.None? || daa < s.v5 then tier else s.h15.value;
    && s.v3 <= daa
    && match m
      case Qwen9B => t == VeryLight
      case Glm9B => t == Light
      case Gemma12B => t == Default
      case Qwen27B => t == High && daa < s.privateInference
      case Qwen27BPrivate => t == High && s.privateInference <= daa
      case Kimi48B => t == VeryHigh
  }

  /** At most one model is mined at a score. */
  lemma {:induction false} MinesIsMined(s: Schedule, tier: Tier, daa: nat, m: Model)
    ensures Mines(s, tier, daa, m) <==> Mined(s, tier, daa) == Some(m)
  {
  }

  // ---------------------------------------------------------------- gates

  ghost predicate Ascending(gs: seq<nat>) {
    forall i, j | 0 <= i < j < |gs| :: gs[i] < gs[j]
  }

  lemma {:induction false} AscendingSnoc(gs: seq<nat>, g: nat)
    requires Ascending(gs) && forall e | e in gs :: e < g
    ensures Ascending(gs + [g])
  {
    forall i, j | 0 <= i < j < |gs| + 1 ensures (gs + [g])[i] < (gs + [g])[j] {
      assert gs[i] in gs;
    }
  }

  /** Sorted insertion without duplicates. */
  function Insert(gs: seq<nat>, g: nat): (out: seq<nat>)
    requires Ascending(gs)
    ensures Ascending(out) && out != []
    ensures forall x :: x in out <==> x in gs || x == g
  {
    if gs == [] || g < gs[0] then [g] + gs
    else if g == gs[0] then gs
    else
      var rest := Insert(gs[1..], g);
      InsertUnder(gs, g, rest);
      [gs[0]] + rest
  }

  lemma {:induction false} InsertUnder(gs: seq<nat>, g: nat, rest: seq<nat>)
    requires Ascending(gs) && gs != [] && gs[0] < g && Ascending(rest)
    requires forall x :: x in rest <==> x in gs[1..] || x == g
    ensures Ascending([gs[0]] + rest)
    ensures forall x :: x in [gs[0]] + rest <==> x in gs || x == g
  {
    assert gs == [gs[0]] + gs[1..];
    forall j | 0 <= j < |rest| ensures gs[0] < rest[j] {
      assert rest[j] in rest;
    }
  }

  /** Sort and dedup, then drop every gate whose era the chain has left; the last is always kept. */
  method ReachableGates(gates: seq<nat>, chainDaa: Option<nat>) returns (out: seq<nat>, ghost sorted: seq<nat>)
    requires gates != []
    ensures Ascending(sorted) && sorted != [] && forall x :: x in sorted <==> x in gates
    ensures Ascending(out) && (chainDaa.None? ==> out == sorted)
    ensures chainDaa.Some? ==> forall g :: g in out <==>
      exists i :: 0 <= i < |sorted| && sorted[i] == g && (i == |sorted| - 1 || sorted[i + 1] > chainDaa.value)
  {
    var gs: seq<nat> := [];
    for k := 0 to |gates|
      invariant Ascending(gs) && (k > 0 ==> gs != [])
      invariant forall x :: x in gs <==> x in gates[..k]
    {
      assert gates[..k + 1] == gates[..k] + [gates[k]];
      gs := Insert(gs, gates[k]);
    }
    assert gates[..|gates|] == gates;
    sorted := gs;
    if chainDaa.None? {
      return gs, gs;
    }
    out := [];
    for i := 0 to |gs|
      invariant Ascending(out) && forall g | g in out :: i < |gs| ==> g < gs[i]
      invariant forall g :: g in out <==>
        exists j :: 0 <= j < i && gs[j] == g && (j == |gs| - 1 || gs[j + 1] > chainDaa.value)
    {
      if i == |gs| - 1 || gs[i + 1] > chainDaa.value {
        AscendingSnoc(out, gs[i]);
        out := out + [gs[i]];
      }
    }
  }

  /** Gates are the only scores at which the mined model can change. */
  function GatesOf(s: Schedule): (gs: seq<nat>)
    ensures gs != [] && s.v3 in gs
  {
    [s.v3, StagingDaa(s)]
    + (if s.privateInference != U64_MAX then [s.privateInference] else [])
    + (if s.h15.Some? && s.v5 != U64_MAX then [s.v5] else [])
  }

  /** Some score still ahead of `from`, and not "never", mines `m`. */
  ghost predicate MinedLater(s: Schedule, tier: Tier, from: nat, m: Model) {
    exists d: nat :: from <= d < U64_MAX && Mines(s, tier, d, m)
  }

  ghost predicate StagedExactly(s: Schedule, tier: Tier, from: nat, staged: seq<Model>) {
    forall m :: m in staged <==> MinedLater(s, tier, from, m)
  }

  /** `models_all_eras`. The staged models are exactly those the tier may still mine, if and only if the
  v3 gate is scheduled and the chain has not reached the last score. */
  method ModelsAllEras(s: Schedule, tier: Tier, chainDaa: Option<nat>)
    returns (staged: seq<Model>, ghost eras: seq<nat>)
    requires Scores(s) && (chainDaa.Some? ==> chainDaa.value <= U64_MAX)
    ensures var from := if chainDaa.Some? then chainDaa.value else 0;
      StagedExactly(s, tier, from, staged) <==> s.v3 < U64_MAX && from < U64_MAX
    ensures forall i, j | 0 <= i < j < |staged| :: staged[i] != staged[j]
    ensures |eras| == |staged| && Ascending(eras) && forall i | 0 <= i < |eras| :: Mines(s, tier, eras[i], staged[i])
  {
    var gates := GatesOf(s);
    ghost var sorted;
    var reachable: seq<nat>;
    reachable, sorted := ReachableGates(gates, chainDaa);
    staged, eras := StageGates(s, tier, reachable);
    ghost var from := if chainDaa.Some? then chainDaa.value else 0;
    KeptGates(sorted, reachable, chainDaa);
    StagingIsExact(s, tier, from, sorted, reachable, staged);
  }

  /** The models of ascending gates, each at its first gate. */
  method StageGates(s: Schedule, tier: Tier, reachable: seq<nat>) returns (staged: seq<Model>, ghost eras: seq<nat>)
    requires Ascending(reachable)
    ensures forall m :: m in staged <==> exists j :: 0 <= j < |reachable| && Mined(s, tier, reachable[j]) == Some(m)
    ensures forall i, j | 0 <= i < j < |staged| :: staged[i] != staged[j]
    ensures |eras| == |staged| && Ascending(eras) && forall i | 0 <= i < |eras| :: Mines(s, tier, eras[i], staged[i])
  {
    staged, eras := [], [];
    for k := 0 to |reachable|
      invariant |eras| == |staged| && Ascending(eras)
      invariant forall i | 0 <= i < |eras| :: Mines(s, tier, eras[i], staged[i])
      invariant forall e | e in eras :: k < |reachable| ==> e < reachable[k]
      invariant forall m :: m in staged <==> exists j :: 0 <= j < k && Mined(s, tier, reachable[j]) == Some(m)
      invariant forall i, j | 0 <= i < j < |staged| :: staged[i] != staged[j]
    {
      var m := ModelForTier(s, reachable[k], TierAt(s, reachable[k], tier));
      if m.Some? && m.value !in staged {
        MinesIsMined(s, tier, reachable[k], m.value);
        AscendingSnoc(eras, reachable[k]);
        staged, eras := staged + [m.value], eras + [reachable[k]];
      }
    }
  }

  // ---------------------------------------------------------------- why staging is exact

  /** Gate `i` opens an era that is not over at `from`. */
  ghost predicate Open(sorted: seq<nat>, from: nat, i: nat)
    requires i < |sorted|
  {
    i == |sorted| - 1 || sorted[i + 1] > from
  }

  lemma {:induction false} KeptGates(sorted: seq<nat>, reachable: seq<nat>, chainDaa: Option<nat>)
    requires Ascending(sorted) && sorted != []
    requires chainDaa.None? ==> reachable == sorted
    requires chainDaa.Some? ==> forall g :: g in reachable <==>
      exists i :: 0 <= i < |sorted| && sorted[i] == g && (i == |sorted| - 1 || sorted[i + 1] > chainDaa.value)
    ensures var from := if chainDaa.Some? then chainDaa.value else 0;
      forall g :: g in reachable <==> exists i: nat :: i < |sorted| && sorted[i] == g && Open(sorted, from, i)
  {
    var from := if chainDaa.Some? then chainDaa.value else 0;
    forall g ensures g in reachable <==> exists i: nat :: i < |sorted| && sorted[i] == g && Open(sorted, from, i) {
      if g in reachable {
        var i: nat :| i < |sorted| && sorted[i] == g
          && (chainDaa.Some? ==> i == |sorted| - 1 || sorted[i + 1] > chainDaa.value);
        assert Open(sorted, from, i);
      }
    }
  }

  /** The last gate at or below `d`. */
  ghost function EraOf(sorted: seq<nat>, d: nat): (i: nat)
    requires Ascending(sorted) && sorted != [] && sorted[0] <= d
    ensures i < |sorted| && sorted[i] <= d && (i + 1 < |sorted| ==> d < sorted[i + 1])
    decreases |sorted|
  {
    var n := |sorted| - 1;
    if sorted[n] <= d then n
    else
      var i := EraOf(sorted[..n], d);
      i
  }

  /** Between gates nothing changes. */
  lemma {:induction false} SameEra(s: Schedule, tier: Tier, g: nat, d: nat)
    requires g <= d < U64_MAX
    requires g < s.v3 ==> d < s.v3
    requires g < s.privateInference ==> d < s.privateInference
    requires s.h15.Some? && g < s.v5 ==> d < s.v5
    ensures Mined(s, tier, d) == Mined(s, tier, g)
  {
  }

  /** The gates of a schedule, sorted. */
  ghost predicate SortedGates(s: Schedule, sorted: seq<nat>) {
    Ascending(sorted) && sorted != [] && forall x :: x in sorted <==> x in GatesOf(s)
  }

  /** A gate above `sorted[i]` and at most `d` would be the next one. */
  lemma {:induction false} NoGateBetween(sorted: seq<nat>, i: nat, d: nat, gate: nat)
    requires Ascending(sorted) && i < |sorted| && (i + 1 < |sorted| ==> d < sorted[i + 1])
    requires gate in sorted && gate > sorted[i]
    ensures d < gate
  {
    var j :| 0 <= j < |sorted| && sorted[j] == gate;
    assert j > i;
    assert j > i + 1 ==> sorted[i + 1] < sorted[j];
  }

  /** Everything minable from `from` on is the model of some open gate. */
  lemma {:induction false} MinedIsStaged(s: Schedule, tier: Tier, sorted: seq<nat>, from: nat, d: nat) returns (i: nat)
    requires Scores(s) && SortedGates(s, sorted) && from <= d < U64_MAX && Mined(s, tier, d).Some?
    ensures i < |sorted| && Open(sorted, from, i) && Mined(s, tier, sorted[i]) == Mined(s, tier, d)
  {
    assert s.v3 <= d && s.v3 in sorted;
    assert sorted[0] <= d by {
      var j :| 0 <= j < |sorted| && sorted[j] == s.v3;
      assert j > 0 ==> sorted[0] < sorted[j];
    }
    i := EraOf(sorted, d);
    var g := sorted[i];
    if g < s.v3 { NoGateBetween(sorted, i, d, s.v3); }
    if g < s.privateInference && s.privateInference != U64_MAX {
      assert s.privateInference in GatesOf(s);
      NoGateBetween(sorted, i, d, s.privateInference);
    }
    if s.h15.Some? && g < s.v5 && s.v5 != U64_MAX {
      assert s.v5 in GatesOf(s);
      NoGateBetween(sorted, i, d, s.v5);
    }
    SameEra(s, tier, g, d);
  }

  lemma {:induction false} GatesBelowNever(s: Schedule, sorted: seq<nat>)
    requires Scores(s) && SortedGates(s, sorted) && s.v3 < U64_MAX
    ensures forall i | 0 <= i < |sorted| :: sorted[i] < U64_MAX
  {
    forall i | 0 <= i < |sorted| ensures sorted[i] < U64_MAX {
      assert sorted[i] in GatesOf(s);
    }
  }

  /** The model of an open gate is mined at a score still to come. */
  lemma {:induction false} StagedIsMined(s: Schedule, tier: Tier, sorted: seq<nat>, from: nat, i: nat) returns (d: nat)
    requires Scores(s) && SortedGates(s, sorted) && i < |sorted| && Open(sorted, from, i)
    requires s.v3 < U64_MAX && from < U64_MAX
    ensures from <= d < U64_MAX && Mined(s, tier, d) == Mined(s, tier, sorted[i])
  {
    GatesBelowNever(s, sorted);
    var g := sorted[i];
    d := if from <= g then g else from;
    if g < s.v3 { NoGateBetween(sorted, i, d, s.v3); }
    if g < s.privateInference && s.privateInference != U64_MAX {
      assert s.privateInference in GatesOf(s);
      NoGateBetween(sorted, i, d, s.privateInference);
    }
    if s.h15.Some? && g < s.v5 && s.v5 != U64_MAX {
      assert s.v5 in GatesOf(s);
      NoGateBetween(sorted, i, d, s.v5);
    }
    SameEra(s, tier, g, d);
  }

  /** The last gate's model is always staged. */
  lemma {:induction false} LastGateMines(s: Schedule, tier: Tier, sorted: seq<nat>, from: nat)
    requires Scores(s) && SortedGates(s, sorted)
    ensures Open(sorted, from, |sorted| - 1) && Mined(s, tier, sorted[|sorted| - 1]).Some?
  {
    assert s.v3 in sorted;
    var j :| 0 <= j < |sorted| && sorted[j] == s.v3;
    assert j < |sorted| - 1 ==> sorted[j] < sorted[|sorted| - 1];
  }

  lemma {:induction false} StagingIsExact(s: Schedule, tier: Tier, from: nat, sorted: seq<nat>, reachable: seq<nat>,
      staged: seq<Model>)
    requires Scores(s) && SortedGates(s, sorted) && from <= U64_MAX
    requires forall g :: g in reachable <==> exists i: nat :: i < |sorted| && sorted[i] == g && Open(sorted, from, i)
    requires forall m :: m in staged <==> exists j :: 0 <= j < |reachable| && Mined(s, tier, reachable[j]) == Some(m)
    ensures StagedExactly(s, tier, from, staged) <==> s.v3 < U64_MAX && from < U64_MAX
  {
    if s.v3 < U64_MAX && from < U64_MAX {
      forall m ensures m in staged <==> MinedLater(s, tier, from, m) {
        forall d: nat ensures Mines(s, tier, d, m) <==> Mined(s, tier, d) == Some(m) {
          MinesIsMined(s, tier, d, m);
        }
        if m in staged {
          var j :| 0 <= j < |reachable| && Mined(s, tier, reachable[j]) == Some(m);
          assert reachable[j] in reachable;
          var i: nat :| i < |sorted| && sorted[i] == reachable[j] && Open(sorted, from, i);
          var d := StagedIsMined(s, tier, sorted, from, i);
        }
        if MinedLater(s, tier, from, m) {
          var d: nat :| from <= d < U64_MAX && Mines(s, tier, d, m);
          var i := MinedIsStaged(s, tier, sorted, from, d);
          assert sorted[i] in reachable;
          var j :| 0 <= j < |reachable| && reachable[j] == sorted[i];
        }
      }
    } else {
      LastGateMines(s, tier, sorted, from);
      var last := sorted[|sorted| - 1];
      var m := Mined(s, tier, last).value;
      assert last in reachable;
      var j :| 0 <= j < |reachable| && reachable[j] == last;
      assert m in staged;
      assert !MinedLater(s, tier, from, m);
    }
  }
}
