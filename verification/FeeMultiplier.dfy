/** The controller that moves the fee multiplier from block to block: up while blocks are fuller
    than the target, down while they are emptier, in fixed-point arithmetic that rounds down. */
module FeeMultiplier {
  import opened Numbers
  import opened FixedPoint

  /** The weight that normal transactions may use in a block, the part of it that is aimed at,
      the variability and the smallest multiplier. The target is a proportion of the limit. */
  datatype Controller = Controller(limit: nat, target: nat, variability: Balance, minimum: Balance)

  predicate Proportional(c: Controller) { c.target <= c.limit }

  function Used(c: Controller, weight: nat): nat { Min(weight, c.limit) }

  /** How far the block is from the target, as a proportion of the limit. */
  function Distance(c: Controller, weight: nat): Balance {
    var b := Used(c, weight);
    Saturate((Max(b, c.target) - Min(b, c.target)) * ONE / Max(c.limit, 1))
  }

  function First(v: Balance, d: Balance): Balance { SaturatingMul(v, d) }

  function Second(v: Balance, d: Balance): Balance { SaturatingMul(SaturatingMul(v, v) / 2, SaturatingMul(d, d)) }

  /** The step of a block at distance `d` above the target. */
  function Rise(v: Balance, d: Balance): Balance { SatAdd(First(v, d), Second(v, d)) }

  /** The step of a block at distance `d` below the target. */
  function Fall(v: Balance, d: Balance): Balance { SatSub(First(v, d), Second(v, d)) }

  predicate Full(c: Controller, weight: nat) { Used(c, weight) >= c.target }

  function Floored(c: Controller, m: Balance): Balance { Max(m, c.minimum) }

  function Convert(c: Controller, previous: Balance, weight: nat): Balance {
    var m, v, d := Floored(c, previous), c.variability, Distance(c, weight);
    if Full(c, weight) then Floored(c, SatAdd(m, SaturatingMul(Rise(v, d), m)))
    else Floored(c, SatSub(m, SaturatingMul(Fall(v, d), m)))
  }

  // ----- rounding -----

  lemma SaturatingMulBound(a: Balance, b: Balance)
    ensures SaturatingMul(a, b) * ONE <= a * b
    ensures b <= ONE ==> SaturatingMul(a, b) <= a
  {
    Quotient(a * b, ONE);
    MulLe(SaturatingMul(a, b), a * b / ONE, ONE);
    if b <= ONE {
      MulLe(b, ONE, a);
      MulCancelLe(SaturatingMul(a, b), a, ONE);
    }
  }

  /** A rounded product is worth at least one unit just when the exact one is. */
  lemma SaturatingMulPositive(a: Balance, b: Balance)
    ensures SaturatingMul(a, b) >= 1 <==> a * b >= ONE
  {
    Quotient(a * b, ONE);
    if a * b >= ONE { QuotientAtLeast(a * b, ONE, 1); }
  }

  lemma SaturatingMulMonotone(a: Balance, b: Balance, x: Balance, y: Balance)
    requires a <= x && b <= y
    ensures SaturatingMul(a, b) <= SaturatingMul(x, y)
  {
    MulLe(a, x, b);
    MulLe(b, y, x);
    QuotientMonotone(a * b, x * y, ONE);
  }

  lemma DistanceAtMostOne(c: Controller, weight: nat)
    requires Proportional(c)
    ensures Distance(c, weight) <= ONE
  {
    var b, n := Used(c, weight), Max(c.limit, 1);
    var apart := Max(b, c.target) - Min(b, c.target);
    MulLe(apart, n, ONE);
    QuotientAtMost(apart * ONE, n, ONE);
  }

  lemma Halved(v: Balance)
    ensures (SaturatingMul(v, v) / 2) * (2 * ONE) <= v * v
  {
    SaturatingMulBound(v, v);
  }

  // ----- what the next multiplier is -----

  /** How far a block is from the target, as a proportion of the limit, rounded down. */
  function Apart(c: Controller, weight: nat): nat
    requires c.limit > 0
  {
    var used := if weight <= c.limit then weight else c.limit;
    (if used >= c.target then used - c.target else c.target - used) * ONE / c.limit
  }

  /** The step in numbers: `v * d` and `v^2 * d^2 / 2`, each product rounded down. */
  function Linear(v: nat, d: nat): nat { v * d / ONE }

  function Quadratic(v: nat, d: nat): nat { (v * v / ONE / 2) * (d * d / ONE) / ONE }

  /** As long as nothing exceeds 128 bits, a block at or above the target raises the multiplier by both
      terms of it, and a block below lowers it by the first less the second, but not below the minimum. */
  lemma NextMultiplierInNumbers(c: Controller, previous: Balance, weight: nat)
    requires Proportional(c) && c.limit > 0 && c.variability * c.variability / ONE <= U128_MAX
    requires var v, d := c.variability, Apart(c, weight); Linear(v, d) + Quadratic(v, d) <= U128_MAX
    requires var m, v, d := Floored(c, previous), c.variability, Apart(c, weight);
             m + (Linear(v, d) + Quadratic(v, d)) * m / ONE <= U128_MAX
    ensures var m, v, d := if previous >= c.minimum then previous else c.minimum, c.variability, Apart(c, weight);
            var up, down := Linear(v, d) + Quadratic(v, d), Linear(v, d) - Quadratic(v, d);
            Convert(c, previous, weight)
            == if weight >= c.target then m + up * m / ONE
               else if down <= 0 || m - down * m / ONE >= c.minimum then m - (if down <= 0 then 0 else down * m / ONE)
               else c.minimum
  {
    var m, v, d := Floored(c, previous), c.variability, Distance(c, weight);
    DistanceAtMostOne(c, weight);
    DistanceInNumbers(c, weight);
    SquareFits(d);
    StepInNumbers(v, d);
    hide First, Second, Linear, Quadratic, Distance, Apart, SaturatingMul;
    if Full(c, weight) {
      Raised(c, m, First(v, d), Second(v, d));
    } else {
      Lowered(c, m, First(v, d), Second(v, d));
    }
  }

  lemma DistanceInNumbers(c: Controller, weight: nat)
    requires Proportional(c) && c.limit > 0 && Distance(c, weight) <= ONE
    ensures Distance(c, weight) == Apart(c, weight) && (Full(c, weight) <==> weight >= c.target)
  {}

  lemma Raised(c: Controller, m: Balance, x: Balance, y: Balance)
    requires x + y <= U128_MAX && m + (x + y) * m / ONE <= U128_MAX && m >= c.minimum
    ensures Floored(c, SatAdd(m, SaturatingMul(SatAdd(x, y), m))) == m + (x + y) * m / ONE
  {
    var r: Balance := x + y;
    assert r * m == (x + y) * m;
    AddedInFull(c, m, r);
    hide SaturatingMul;
  }

  lemma AddedInFull(c: Controller, m: Balance, r: Balance)
    requires m + r * m / ONE <= U128_MAX && m >= c.minimum
    ensures Floored(c, SatAdd(m, SaturatingMul(r, m))) == m + r * m / ONE
  {
    Nonnegative(r * m, ONE);
  }

  lemma Lowered(c: Controller, m: Balance, x: Balance, y: Balance)
    requires x + y <= U128_MAX && m + (x + y) * m / ONE <= U128_MAX && m >= c.minimum
    ensures var down := x - y;
            Floored(c, SatSub(m, SaturatingMul(SatSub(x, y), m)))
            == if down <= 0 || m - down * m / ONE >= c.minimum then m - (if down <= 0 then 0 else down * m / ONE) else c.minimum
  {
    if x > y {
      MulLe(x - y, x + y, m);
      QuotientMonotone((x - y) * m, (x + y) * m, ONE);
    }
  }

  lemma Nonnegative(n: nat, d: nat)
    requires d > 0
    ensures n / d >= 0
  {}

  lemma SquareFits(d: Balance)
    requires d <= ONE
    ensures d * d / ONE <= U128_MAX
  {
    MulLe(d, ONE, d);
    QuotientAtMost(d * d, ONE, ONE);
  }

  lemma StepInNumbers(v: Balance, d: Balance)
    requires v * v / ONE <= U128_MAX && d * d / ONE <= U128_MAX && Linear(v, d) + Quadratic(v, d) <= U128_MAX
    ensures First(v, d) == Linear(v, d) && Second(v, d) == Quadratic(v, d)
  {}

  /** With a variability of at most two the first term is at least the second. */
  lemma FirstTermDominates(v: Balance, d: Balance)
    requires v <= 2 * ONE && d <= ONE
    ensures Second(v, d) <= First(v, d)
  {
    var half := SaturatingMul(v, v) / 2;
    assert half <= v by {
      Halved(v);
      MulLe(v, 2 * ONE, v);
      MulCancelLe(half, v, 2 * ONE);
    }
    SaturatingMulBound(d, d);
    SaturatingMulMonotone(half, SaturatingMul(d, d), v, d);
  }

  /** Beyond two it is not: a block that misses the target by the whole limit has the larger
      second term. */
  lemma SecondTermTakesOver(v: Balance)
    requires v > 2 * ONE && v * v / ONE <= U128_MAX
    ensures First(v, ONE) < Second(v, ONE)
  {
    var half := SaturatingMul(v, v) / 2;
    assert First(v, ONE) == v && Second(v, ONE) == half;
    SquareBeyond(ONE, v - 2 * ONE);
    QuotientAtLeast(v * v, ONE, 2 * v + 2);
  }

  lemma SquareBeyond(e: nat, k: nat)
    requires k >= 1
    ensures (2 * (2 * e + k) + 2) * e <= (2 * e + k) * (2 * e + k)
  {
    MulLe(1, k, 2 * e);
    calc {
      (2 * e + k) * (2 * e + k);
      (2 * e) * (2 * e + k) + k * (2 * e + k);
      (2 * e) * (2 * e + k) + k * (2 * e) + k * k;
    >=
      (2 * e) * (2 * e + k) + 2 * e;
    }
  }

  /** The subtraction below the target is exact for every block just when the variability is at
      most two. */
  lemma VariabilityLimit(v: Balance)
    requires v * v / ONE <= U128_MAX
    ensures v <= 2 * ONE <==> forall d: Balance :: d <= ONE ==> Second(v, d) <= First(v, d)
  {
    if v <= 2 * ONE {
      forall d: Balance | d <= ONE ensures Second(v, d) <= First(v, d) { FirstTermDominates(v, d); }
    } else {
      SecondTermTakesOver(v);
    }
  }

  // ----- one block -----

  lemma NeverBelowMinimum(c: Controller, previous: Balance, weight: nat)
    ensures Convert(c, previous, weight) >= c.minimum
  {}

  /** At or above the target the multiplier does not fall; below it, it does not rise. */
  lemma MovesWithTheLoad(c: Controller, previous: Balance, weight: nat)
    ensures Full(c, weight) ==> Convert(c, previous, weight) >= Floored(c, previous)
    ensures !Full(c, weight) ==> Convert(c, previous, weight) <= Floored(c, previous)
  {}

  /** It rises strictly just when the rounded step is worth at least one unit. */
  lemma RisesExactlyWhen(c: Controller, previous: Balance, weight: nat)
    requires Full(c, weight) && Floored(c, previous) < U128_MAX
    ensures Convert(c, previous, weight) > Floored(c, previous)
            <==> Rise(c.variability, Distance(c, weight)) * Floored(c, previous) >= ONE
  {
    hide Rise, Fall, Distance, SaturatingMul;
    SaturatingMulPositive(Rise(c.variability, Distance(c, weight)), Floored(c, previous));
  }

  /** It falls strictly just when the rounded step is worth at least one unit and the minimum is
      not reached yet. */
  lemma FallsExactlyWhen(c: Controller, previous: Balance, weight: nat)
    requires !Full(c, weight)
    ensures Convert(c, previous, weight) < Floored(c, previous)
            <==> Fall(c.variability, Distance(c, weight)) * Floored(c, previous) >= ONE && previous > c.minimum
  {
    hide Rise, Fall, Distance, SaturatingMul;
    SaturatingMulPositive(Fall(c.variability, Distance(c, weight)), Floored(c, previous));
  }

  /** A fuller block never makes for a smaller step. */
  lemma FullerRisesMore(c: Controller, previous: Balance, light: nat, heavy: nat)
    requires Full(c, light) && light <= heavy
    ensures Distance(c, light) <= Distance(c, heavy)
    ensures Rise(c.variability, Distance(c, light)) <= Rise(c.variability, Distance(c, heavy))
    ensures Convert(c, previous, light) <= Convert(c, previous, heavy)
  {
    var v, near, far, m := c.variability, Distance(c, light), Distance(c, heavy), Floored(c, previous);
    var x, y := Used(c, light) - c.target, Used(c, heavy) - c.target;
    MulLe(x, y, ONE);
    QuotientMonotone(x * ONE, y * ONE, Max(c.limit, 1));
    SaturatingMulMonotone(v, near, v, far);
    SaturatingMulMonotone(near, near, far, far);
    SaturatingMulMonotone(SaturatingMul(v, v) / 2, SaturatingMul(near, near), SaturatingMul(v, v) / 2, SaturatingMul(far, far));
    SaturatingMulMonotone(Rise(v, near), m, Rise(v, far), m);
  }

  // ----- many blocks -----

  function After(c: Controller, m: Balance, weights: seq<nat>): Balance
    decreases |weights|
  {
    if weights == [] then m else After(c, Convert(c, m, weights[0]), weights[1..])
  }

  /** From the minimum, a run of any blocks never leaves it just when a full block does not. */
  lemma {:induction false} StuckAtMinimum(c: Controller, weights: seq<nat>)
    requires Proportional(c)
    requires Rise(c.variability, Distance(c, c.limit)) * c.minimum < ONE
    ensures After(c, c.minimum, weights) == c.minimum
    decreases |weights|
  {
    if weights != [] {
      var w, m := weights[0], c.minimum;
      MovesWithTheLoad(c, m, w);
      NeverBelowMinimum(c, m, w);
      if Full(c, w) && m < U128_MAX {
        if w <= c.limit { FullerRisesMore(c, m, w, c.limit); } else { FullerRisesMore(c, m, c.limit, w); }
        assert Used(c, w) <= c.limit;
        assert Distance(c, w) <= Distance(c, c.limit);
        var most := Rise(c.variability, Distance(c, c.limit));
        MulLe(Rise(c.variability, Distance(c, w)), most, m);
        RisesExactlyWhen(c, m, w);
      }
      StuckAtMinimum(c, weights[1..]);
    }
  }

  /** The minimum is no trap exactly when some run leads away from it, and then one full block
      is enough. */
  lemma MinimumIsNoTrap(c: Controller)
    requires Proportional(c) && c.minimum < U128_MAX
    ensures Rise(c.variability, Distance(c, c.limit)) * c.minimum >= ONE
            <==> exists weights :: After(c, c.minimum, weights) > c.minimum
    ensures Rise(c.variability, Distance(c, c.limit)) * c.minimum >= ONE ==> Convert(c, c.minimum, c.limit) > c.minimum
  {
    if Rise(c.variability, Distance(c, c.limit)) * c.minimum >= ONE {
      RisesExactlyWhen(c, c.minimum, c.limit);
      var one := [c.limit];
      assert one[1..] == [];
      assert After(c, c.minimum, one) > c.minimum;
    } else {
      forall weights ensures After(c, c.minimum, weights) == c.minimum { StuckAtMinimum(c, weights); }
    }
  }

  /** What the start-up check establishes: if one percent over the target lifts the minimum, so
      does every fuller block. */
  lemma StartUpCheckSuffices(c: Controller, weight: nat)
    requires Proportional(c) && c.target + c.target / 100 <= weight
    requires Convert(c, c.minimum, c.target + c.target / 100) > c.minimum
    ensures Convert(c, c.minimum, weight) > c.minimum
  {
    FullerRisesMore(c, c.minimum, c.target + c.target / 100, weight);
  }

  function Power(b: nat, k: nat): nat { if k == 0 then 1 else b * Power(b, k - 1) }

  const UNIT: nat := 2 * ONE * ONE

  /** `1 + v + v^2 / 2`, scaled by `UNIT`. */
  function Growth(v: Balance): nat { UNIT + 2 * ONE * v + v * v }

  lemma RiseBound(v: Balance, d: Balance)
    requires d <= ONE
    ensures Rise(v, d) * (2 * ONE) <= 2 * ONE * v + v * v
  {
    SaturatingMulBound(v, d);
    SaturatingMulBound(d, d);
    SaturatingMulBound(SaturatingMul(v, v) / 2, SaturatingMul(d, d));
    Halved(v);
    assert Rise(v, d) <= v + SaturatingMul(v, v) / 2;
  }

  /** `a` is at most `m` times `g / u`. */
  predicate AtMostTimes(a: nat, m: nat, g: nat, u: nat) { a * u <= m * g }

  lemma RisenBound(m: nat, rise: nat, step: nat, most: nat)
    requires step * ONE <= rise * m && rise * (2 * ONE) <= most
    ensures AtMostTimes(m + step, m, UNIT + most, UNIT)
  {
    calc {
      step * UNIT;
      (step * ONE) * (2 * ONE);
    <= { MulLe(step * ONE, rise * m, 2 * ONE); }
      (rise * m) * (2 * ONE);
      (rise * (2 * ONE)) * m;
    <= { MulLe(rise * (2 * ONE), most, m); }
      most * m;
    }
  }

  lemma Weaken(a: nat, b: nat, m: nat, g: nat, u: nat)
    requires a <= b && AtMostTimes(b, m, g, u)
    ensures AtMostTimes(a, m, g, u)
  {
    MulLe(a, b, u);
  }

  lemma NotGrown(a: nat, m: nat, g: nat, u: nat)
    requires a <= m && u <= g
    ensures AtMostTimes(a, m, g, u)
  {
    MulLe(a, m, u);
    MulLe(u, g, m);
  }

  lemma Compound(last: nat, next: nat, m: nat, r: nat, u: nat, g: nat, unit: nat)
    requires AtMostTimes(last, next, r, u) && AtMostTimes(next, m, g, unit)
    ensures AtMostTimes(last, m, g * r, unit * u)
  {
    calc {
      last * (unit * u);
      (last * u) * unit;
    <= { MulLe(last * u, next * r, unit); }
      (next * r) * unit;
      (next * unit) * r;
    <= { MulLe(next * unit, m * g, r); }
      (m * g) * r;
      m * (g * r);
    }
  }

  lemma RiseStep(v: Balance, d: Balance, m: Balance)
    requires d <= ONE
    ensures AtMostTimes(m + SaturatingMul(Rise(v, d), m), m, Growth(v), UNIT)
  {
    hide AtMostTimes, SaturatingMul, Rise;
    SaturatingMulBound(Rise(v, d), m);
    RiseBound(v, d);
    RisenBound(m, Rise(v, d), SaturatingMul(Rise(v, d), m), 2 * ONE * v + v * v);
  }

  /** One block multiplies by at most `1 + v + v^2 / 2`, even after rounding. */
  lemma OneBlockGrowth(c: Controller, previous: Balance, weight: nat)
    requires Proportional(c)
    ensures AtMostTimes(Convert(c, previous, weight), Floored(c, previous), Growth(c.variability), UNIT)
  {
    hide AtMostTimes, SaturatingMul, Rise, Fall, Distance, Growth;
    var m: nat, v, d := Floored(c, previous), c.variability, Distance(c, weight);
    DistanceAtMostOne(c, weight);
    if Full(c, weight) {
      var step: nat := SaturatingMul(Rise(v, d), m);
      RiseStep(v, d, m);
      Weaken(Convert(c, previous, weight), m + step, m, Growth(v), UNIT);
    } else {
      MovesWithTheLoad(c, previous, weight);
      GrowthAtLeastOne(v);
      NotGrown(Convert(c, previous, weight), m, Growth(v), UNIT);
    }
  }

  lemma GrowthAtLeastOne(v: Balance)
    ensures UNIT <= Growth(v)
  {}

  lemma PowerStep(b: nat, k: nat)
    ensures Power(b, k + 1) == b * Power(b, k) == Power(b, k) * b
  {}

  lemma NothingYet(m: nat, n: nat, g: nat, u: nat)
    requires m <= n
    ensures AtMostTimes(m, n, Power(g, 0), Power(u, 0))
  {}

  /** `k` blocks multiply by at most `(1 + v + v^2 / 2)^k`, whatever their weights. */
  lemma {:induction false} GrowthOverRuns(c: Controller, m: Balance, weights: seq<nat>)
    requires Proportional(c)
    ensures AtMostTimes(After(c, m, weights), Floored(c, m), Power(Growth(c.variability), |weights|), Power(UNIT, |weights|))
    decreases |weights|
  {
    hide AtMostTimes, Convert, Growth, Power;
    var g := Growth(c.variability);
    if weights == [] {
      NothingYet(m, Floored(c, m), g, UNIT);
    } else {
      var next, k := Convert(c, m, weights[0]), |weights| - 1;
      OneBlockGrowth(c, m, weights[0]);
      NeverBelowMinimum(c, m, weights[0]);
      GrowthOverRuns(c, next, weights[1..]);
      PowerStep(UNIT, k);
      PowerStep(g, k);
      Compound(After(c, m, weights), next, Floored(c, m), Power(g, k), Power(UNIT, k), g, UNIT);
    }
  }

  lemma FallenBound(next: nat, m: nat, step: nat, fall: nat, v: nat)
    requires step * ONE <= fall * m && fall <= v <= ONE && next >= m - step
    ensures AtMostTimes(m, next, ONE, ONE - v)
  {
    MulLe(fall, v, m);
    MulLe(m - step, next, ONE);
    assert (m - step) * ONE == m * ONE - step * ONE;
    assert m * (ONE - v) == m * ONE - v * m;
  }

  lemma FallStep(v: Balance, d: Balance, m: Balance, next: Balance)
    requires d <= ONE && v <= ONE && next >= m - SaturatingMul(Fall(v, d), m)
    ensures AtMostTimes(m, next, ONE, ONE - v)
  {
    hide AtMostTimes, SaturatingMul, Second;
    SaturatingMulBound(v, d);
    SaturatingMulBound(Fall(v, d), m);
    FallenBound(next, m, SaturatingMul(Fall(v, d), m), Fall(v, d), v);
  }

  /** One block takes away at most the proportion `v`. */
  lemma OneBlockDecay(c: Controller, previous: Balance, weight: nat)
    requires Proportional(c) && c.variability <= ONE
    ensures AtMostTimes(Floored(c, previous), Convert(c, previous, weight), ONE, ONE - c.variability)
  {
    hide AtMostTimes, SaturatingMul, Rise, Fall, Distance;
    var m, v, d := Floored(c, previous), c.variability, Distance(c, weight);
    var next := Convert(c, previous, weight);
    if Full(c, weight) {
      MovesWithTheLoad(c, previous, weight);
      NotGrown(m, next, ONE, ONE - v);
    } else {
      DistanceAtMostOne(c, weight);
      FallStep(v, d, m, next);
    }
  }

  /** `k` blocks leave at least the proportion `(1 - v)^k`. */
  lemma {:induction false} DecayOverRuns(c: Controller, m: Balance, weights: seq<nat>)
    requires Proportional(c) && c.variability <= ONE
    ensures AtMostTimes(m, After(c, m, weights), Power(ONE, |weights|), Power(ONE - c.variability, |weights|))
    decreases |weights|
  {
    hide AtMostTimes, Convert, Power;
    var g := ONE - c.variability;
    if weights == [] {
      NothingYet(m, m, ONE, g);
    } else {
      var next, k := Convert(c, m, weights[0]), |weights| - 1;
      OneBlockDecay(c, m, weights[0]);
      Weaken(m, Floored(c, m), next, ONE, g);
      DecayOverRuns(c, next, weights[1..]);
      PowerStep(g, k);
      PowerStep(ONE, k);
      Compound(m, next, After(c, m, weights), ONE, g, Power(ONE, k), Power(g, k));
    }
  }

  // ----- the documented linear bounds -----

  /** What a block at distance `d` moves the multiplier `m` by, at least, when it is full. */
  function Step(v: Balance, d: Balance, m: Balance): Balance { SaturatingMul(Rise(v, d), m) }

  /** Every block is at least `d` above the target. */
  ghost predicate Congested(c: Controller, d: Balance, weights: seq<nat>) {
    forall i :: 0 <= i < |weights| ==> Full(c, weights[i]) && Distance(c, weights[i]) >= d
  }

  /** Every block is below the target, by at most `d`. */
  ghost predicate Idle(c: Controller, d: Balance, weights: seq<nat>) {
    forall i :: 0 <= i < |weights| ==> !Full(c, weights[i]) && Distance(c, weights[i]) <= d
  }

  lemma RiseMonotone(v: Balance, d: Balance, e: Balance)
    requires d <= e
    ensures Rise(v, d) <= Rise(v, e)
  {
    hide SaturatingMul;
    SaturatingMulMonotone(v, d, v, e);
    SaturatingMulMonotone(d, d, e, e);
    SaturatingMulMonotone(SaturatingMul(v, v) / 2, SaturatingMul(d, d), SaturatingMul(v, v) / 2, SaturatingMul(e, e));
  }

  lemma CongestedBlock(c: Controller, base: Balance, m: Balance, weight: nat, d: Balance)
    requires Full(c, weight) && Distance(c, weight) >= d && base <= m && c.minimum <= m
    ensures var next := Convert(c, m, weight); next == U128_MAX || next >= m + Step(c.variability, d, base)
  {
    hide Rise, SaturatingMul, Distance;
    RiseMonotone(c.variability, d, Distance(c, weight));
    SaturatingMulMonotone(Rise(c.variability, d), base, Rise(c.variability, Distance(c, weight)), m);
  }

  /** `k` congested blocks add at least `k` times the rounded step of the first, until the multiplier
      is as large as it can be. */
  lemma {:induction false} CongestionAdds(c: Controller, base: Balance, m: Balance, d: Balance, weights: seq<nat>)
    requires Congested(c, d, weights) && base <= m && c.minimum <= m
    ensures After(c, m, weights) == U128_MAX || After(c, m, weights) >= m + |weights| * Step(c.variability, d, base)
    decreases |weights|
  {
    hide Convert, Step, Congested;
    if weights != [] {
      var next, rest, step := Convert(c, m, weights[0]), weights[1..], Step(c.variability, d, base);
      CongestedFirst(c, d, weights);
      CongestedBlock(c, base, m, weights[0], d);
      MovesWithTheLoad(c, m, weights[0]);
      NeverBelowMinimum(c, m, weights[0]);
      CongestionAdds(c, base, next, d, rest);
      CongestionStays(c, next, d, rest);
      OneMoreStep(|rest|, step);
    }
  }

  lemma {:induction false} CongestionStays(c: Controller, m: Balance, d: Balance, weights: seq<nat>)
    requires Congested(c, d, weights) && c.minimum <= m
    ensures After(c, m, weights) >= m
    decreases |weights|
  {
    hide Convert, Congested;
    if weights != [] {
      CongestedFirst(c, d, weights);
      MovesWithTheLoad(c, m, weights[0]);
      NeverBelowMinimum(c, m, weights[0]);
      CongestionStays(c, Convert(c, m, weights[0]), d, weights[1..]);
    }
  }

  lemma OneMoreStep(k: nat, step: nat)
    ensures (k + 1) * step == k * step + step
  {}

  lemma CongestedFirst(c: Controller, d: Balance, weights: seq<nat>)
    requires weights != [] && Congested(c, d, weights)
    ensures Full(c, weights[0]) && Distance(c, weights[0]) >= d && Congested(c, d, weights[1..])
  {
    forall i | 0 <= i < |weights| - 1 ensures Full(c, weights[1..][i]) && Distance(c, weights[1..][i]) >= d {
      assert weights[1..][i] == weights[i + 1];
    }
  }

  /** A rounded product loses less than one unit of its last digit. */
  lemma FloorLoss(a: nat, b: nat)
    ensures (a * b / ONE) * ONE + ONE > a * b
  {
    Quotient(a * b, ONE);
  }

  /** `v * d` of the multiplier, and one unit each of two roundings, scaled by the square of `ONE`. */
  function Gain(v: Balance, d: Balance, m: Balance): nat { v * d * m }

  function Loss(m: Balance): nat { ONE * m + ONE * ONE }

  /** A step is worth a gain less a loss. */
  predicate Worth(step: nat, gain: nat, loss: nat) { step * (ONE * ONE) + loss >= gain }

  /** From `m` to `n` it has risen by at least `k` times the gain less the loss. */
  predicate RaisedBy(n: nat, m: nat, k: nat, gain: nat, loss: nat) {
    n >= m && (n - m) * (ONE * ONE) >= k * (gain - loss)
  }

  /** One step is worth at least `v * d` of the multiplier, less the two roundings, unless it is as
      large as it can be. */
  lemma StepBound(v: Balance, d: Balance, m: Balance)
    requires d <= ONE
    ensures Step(v, d, m) == U128_MAX || Worth(Step(v, d, m), Gain(v, d, m), Loss(m))
  {
    var first, rise, step := SaturatingMul(v, d), Rise(v, d), Step(v, d, m);
    MulLe(d, ONE, v);
    QuotientAtMost(v * d, ONE, v);
    assert first == v * d / ONE && rise >= first;
    FloorLoss(v, d);
    FloorLoss(rise, m);
    if step < U128_MAX { StepArithmetic(v * d, first, rise, m, step); }
  }

  lemma StepArithmetic(vd: nat, first: nat, rise: nat, m: nat, step: nat)
    requires first * ONE + ONE > vd && rise >= first && step * ONE + ONE > rise * m
    ensures step * (ONE * ONE) + ONE * m + ONE * ONE >= vd * m
  {
    ScaledStep(vd, first, rise, m, step, ONE);
  }

  lemma ScaledStep(vd: nat, first: nat, rise: nat, m: nat, step: nat, one: nat)
    requires first * one + one > vd && rise >= first && step * one + one > rise * m
    ensures step * (one * one) + one * m + one * one >= vd * m
  {
    MulLe(vd, first * one + one, m);
    assert (first * one + one) * m == (first * m) * one + one * m;
    MulLe(first, rise, m);
    MulLe(first * m, step * one + one, one);
    assert (step * one + one) * one == step * (one * one) + one * one;
  }

  lemma FlooredFirst(c: Controller, m: Balance, weights: seq<nat>)
    requires weights != []
    ensures After(c, m, weights) == After(c, Floored(c, m), weights)
  {}

  /** The documented bound for a congested chain: `k` blocks at least `d` above the target raise the
      multiplier by at least `v * k * d` of it, less the roundings of each block, unless it reaches
      the largest number there is. */
  lemma CongestionIsAtLeastLinear(c: Controller, previous: Balance, d: Balance, weights: seq<nat>)
    requires weights != [] && Congested(c, d, weights) && d <= ONE
    ensures var n, m, k, v := After(c, previous, weights), Floored(c, previous), |weights|, c.variability;
            n == U128_MAX || RaisedBy(n, m, k, Gain(v, d, m), Loss(m))
  {
    hide After, Step, Rise, SaturatingMul, Congested, Floored, Worth, RaisedBy, Gain, Loss;
    FlooredFirst(c, previous, weights);
    var v, k, m := c.variability, |weights|, Floored(c, previous);
    FlooredAtLeast(c, previous);
    CongestionAdds(c, m, m, d, weights);
    StepBound(v, d, m);
    LinearFromSteps(After(c, m, weights), m, k, Step(v, d, m), Gain(v, d, m), Loss(m));
  }

  lemma FlooredAtLeast(c: Controller, m: Balance)
    ensures c.minimum <= Floored(c, m)
  {}

  lemma LinearFromSteps(n: Balance, m: nat, k: nat, step: Balance, gain: nat, loss: nat)
    requires k > 0 && (n == U128_MAX || n >= m + k * step)
    requires step == U128_MAX || Worth(step, gain, loss)
    ensures n == U128_MAX || RaisedBy(n, m, k, gain, loss)
  {
    if n < U128_MAX {
      MulLe(1, k, step);
      ManySteps(n, m, k, step, gain, loss, ONE * ONE);
    }
  }

  lemma ManySteps(n: nat, m: nat, k: nat, step: nat, gain: nat, loss: nat, unit: nat)
    requires n >= m + k * step && step * unit + loss >= gain
    ensures (n - m) * unit >= k * (gain - loss)
  {
    MulLe(k * step, n - m, unit);
    assert (k * step) * unit == k * (step * unit);
    MulLe(gain - loss, step * unit, k);
  }

  lemma IdleBlock(c: Controller, m: Balance, base: Balance, weight: nat, d: Balance)
    requires !Full(c, weight) && Distance(c, weight) <= d && c.minimum <= m <= base
    ensures var next := Convert(c, m, weight); next <= base && next >= m - SaturatingMul(SaturatingMul(c.variability, d), base)
  {
    hide SaturatingMul, Distance, Rise, Second;
    SaturatingMulMonotone(c.variability, Distance(c, weight), c.variability, d);
    SaturatingMulMonotone(Fall(c.variability, Distance(c, weight)), m, SaturatingMul(c.variability, d), base);
  }

  lemma {:induction false} IdleTakes(c: Controller, m: Balance, base: Balance, d: Balance, weights: seq<nat>)
    requires Idle(c, d, weights) && c.minimum <= m <= base
    ensures After(c, m, weights) + |weights| * SaturatingMul(SaturatingMul(c.variability, d), base) >= m
    decreases |weights|
  {
    if weights != [] {
      hide Convert, SaturatingMul, Idle;
      var next, rest := Convert(c, m, weights[0]), weights[1..];
      IdleFirst(c, d, weights);
      IdleBlock(c, m, base, weights[0], d);
      NeverBelowMinimum(c, m, weights[0]);
      IdleTakes(c, next, base, d, rest);
      OneMoreStep(|rest|, SaturatingMul(SaturatingMul(c.variability, d), base));
    }
  }

  lemma IdleFirst(c: Controller, d: Balance, weights: seq<nat>)
    requires weights != [] && Idle(c, d, weights)
    ensures !Full(c, weights[0]) && Distance(c, weights[0]) <= d && Idle(c, d, weights[1..])
  {
    forall i | 0 <= i < |weights| - 1 ensures !Full(c, weights[1..][i]) && Distance(c, weights[1..][i]) <= d {
      assert weights[1..][i] == weights[i + 1];
    }
  }

  /** The documented bound for an empty chain: `k` blocks at most `d` below the target take away at
      most `v * k * d` of the multiplier; rounding is on the safe side here. */
  lemma IdlenessIsAtMostLinear(c: Controller, previous: Balance, d: Balance, weights: seq<nat>)
    requires weights != [] && Idle(c, d, weights)
    ensures var n, m := After(c, previous, weights), Floored(c, previous);
            (m - n) * (ONE * ONE) <= |weights| * (c.variability * d * m)
  {
    FlooredFirst(c, previous, weights);
    var v, k, m := c.variability, |weights|, Floored(c, previous);
    hide After, SaturatingMul, Idle, Floored;
    IdleTakes(c, m, m, d, weights);
    SaturatingMulBound(v, d);
    SaturatingMulBound(SaturatingMul(v, d), m);
    LinearLoss(After(c, m, weights), m, k, SaturatingMul(SaturatingMul(v, d), m), SaturatingMul(v, d), v * d, ONE);
  }

  lemma LinearLoss(n: nat, m: nat, k: nat, step: nat, fall: nat, vd: nat, one: nat)
    requires n + k * step >= m && step * one <= fall * m && fall * one <= vd
    ensures (m - n) * (one * one) <= k * (vd * m)
  {
    calc {
      step * (one * one);
      (step * one) * one;
    <= { MulLe(step * one, fall * m, one); }
      (fall * m) * one;
      (fall * one) * m;
    <= { MulLe(fall * one, vd, m); }
      vd * m;
    }
    MulLe(m - n, k * step, one * one);
    assert (k * step) * (one * one) == k * (step * (one * one));
    MulLe(step * (one * one), vd * m, k);
  }
}
