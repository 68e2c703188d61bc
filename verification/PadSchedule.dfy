/** Which of the 256 steps of a v5 walk read the context pad (src/pom_v5.rs).

The schedule is Bresenham's: step `s` is a pad step when `floor(s * p / 256)` moves. */
module PadSchedule {

  const WALK_STEPS := 256

  function PadSteps(weightTiles: nat, padTiles: nat): (p: nat)
    requires weightTiles + padTiles > 0
    ensures 1 <= p <= 255
  {
    var n := weightTiles + padTiles;
    var rounded := (WALK_STEPS * padTiles + n / 2) / n;
    if rounded < 1 then 1 else if rounded > WALK_STEPS - 1 then WALK_STEPS - 1 else rounded
  }

  predicate IsPadStep(step: nat, padSteps: nat)
    requires step >= 1
  {
    (step * padSteps) / WALK_STEPS != ((step - 1) * padSteps) / WALK_STEPS
  }

  /** Pad steps among the `w` steps after step `a`. */
  ghost function PadCount(padSteps: nat, a: nat, w: nat): nat {
    if w == 0 then 0 else PadCount(padSteps, a, w - 1) + (if IsPadStep(a + w, padSteps) then 1 else 0)
  }

  /** One step moves the floor by at most one. */
  lemma {:induction false} StepMoves(step: nat, p: nat)
    requires step >= 1 && p <= 255
    ensures (step * p) / 256 == ((step - 1) * p) / 256 + (if IsPadStep(step, p) then 1 else 0)
  {
    var x := (step - 1) * p;
    assert step * p == x + p;
  }

  /** A window's pad steps are exactly the distance the floor moves across it. */
  lemma {:induction false} PadCountIsFloorDistance(p: nat, a: nat, w: nat)
    requires p <= 255
    ensures PadCount(p, a, w) == ((a + w) * p) / 256 - (a * p) / 256
    decreases w
  {
    if w > 0 {
      PadCountIsFloorDistance(p, a, w - 1);
      StepMoves(a + w, p);
    }
  }

  /** Exactly `p` of the 256 steps are pad steps, the first never is one and the last always is. */
  lemma {:induction false} WholeWalk(p: nat)
    requires 1 <= p <= 255
    ensures PadCount(p, 0, 256) == p
    ensures !IsPadStep(1, p) && IsPadStep(256, p)
  {
    PadCountIsFloorDistance(p, 0, 256);
  }

  /** No window of `w` steps holds one whole pad step more or less than its share `w * p / 256`. */
  lemma {:induction false} WindowIsEven(p: nat, a: nat, w: nat)
    requires p <= 255
    ensures w * p - 256 < 256 * PadCount(p, a, w) < w * p + 256
  {
    PadCountIsFloorDistance(p, a, w);
    assert (a + w) * p == a * p + w * p;
  }

  /** The pad's share of the steps is its share of the tiles, rounded to the nearest step, except that
  a walk never has fewer than one pad step or fewer than one weight step. */
  lemma {:induction false} ShareIsNearest(weightTiles: nat, padTiles: nat)
    requires weightTiles + padTiles > 0
    ensures var n, p := weightTiles + padTiles, PadSteps(weightTiles, padTiles);
      || -n < 2 * (n * p - 256 * padTiles) <= n
      || (p == 1 && 256 * padTiles < n)
      || (p == 255 && 256 * weightTiles < n)
  {
    var n := weightTiles + padTiles;
    var top := 256 * padTiles + n / 2;
    var q, r := top / n, top % n;
    assert top == n * q + r;
    var p := PadSteps(weightTiles, padTiles);
    if q < 1 {
      assert q == 0;
    } else if q > 255 {
      assert n * q >= n * 256 by { Mul(256, q, n); }
    }
  }

  lemma {:induction false} Mul(a: nat, b: nat, n: nat)
    requires a <= b
    ensures n * a <= n * b
  {
  }
}
