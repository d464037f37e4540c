/** The constant-product price functions of the exchange for a single hop. */
module Pricing {
  import opened Numbers

  type U32 = x: nat | x <= 0xffff_ffff

  /** The exchange fee `numerator / denominator`, read as a pair. */
  datatype Fee = Fee(numerator: U32, denominator: U32)

  /** What is left of one `denominator` after the fee. */
  function Kept(fee: Fee): nat { SatSub(fee.denominator, fee.numerator) }

  /** The part of the supply that is priced; the product is computed in `u128` and saturates. */
  function AfterFee(fee: Fee, supply: Balance): Balance { Saturate(supply * Kept(fee)) }

  /** A wide quotient plus `extra` as a `u128`; zero when it is undefined or too large. */
  function DivideOrZero(numerator: nat, denominator: nat, extra: nat): Balance {
    if denominator == 0 || numerator / denominator + extra > U128_MAX then 0
    else numerator / denominator + extra
  }

  function GetTargetAmount(fee: Fee, supplyPool: Balance, targetPool: Balance, supply: Balance): Balance {
    if supply == 0 || supplyPool == 0 || targetPool == 0 then 0
    else
      var withFee := AfterFee(fee, supply);
      var numerator := Sat256(withFee * targetPool);
      var denominator := Sat256(Sat256(supplyPool * fee.denominator) + withFee);
      DivideOrZero(numerator, denominator, 0)
  }

  function GetSupplyAmount(fee: Fee, supplyPool: Balance, targetPool: Balance, target: Balance): Balance {
    if target == 0 || supplyPool == 0 || targetPool == 0 then 0
    else
      var numerator := Sat256(Sat256(supplyPool * target) * fee.denominator);
      var denominator := Sat256(SatSub(targetPool, target) * Kept(fee));
      DivideOrZero(numerator, denominator, 1)
  }

  // ----- none of the wide intermediate products of GetTargetAmount can saturate -----

  lemma Product256(a: Balance, b: Balance)
    ensures a * b <= U256_MAX
  {
    MulLe(a, U128_MAX, b);
    MulLe(b, U128_MAX, U128_MAX);
  }

  lemma PoolTimesFee(pool: Balance, d: U32, extra: Balance)
    ensures pool * d + extra <= U256_MAX
  {
    MulLe(pool, U128_MAX, d);
    MulLe(d, 0xffff_ffff, U128_MAX);
  }

  /** For all 128-bit inputs the target amount is the exact rational price, rounded down; it is
      always strictly below the target pool. */
  lemma TargetAmountIsExact(fee: Fee, sp: Balance, tp: Balance, supply: Balance)
    requires supply > 0 && sp > 0 && tp > 0 && fee.denominator > 0
    ensures sp * fee.denominator + AfterFee(fee, supply) > 0
    ensures GetTargetAmount(fee, sp, tp, supply)
            == AfterFee(fee, supply) * tp / (sp * fee.denominator + AfterFee(fee, supply))
    ensures GetTargetAmount(fee, sp, tp, supply) < tp
  {
    var u := AfterFee(fee, supply);
    var a := sp * fee.denominator;
    Product256(u, tp);
    PoolTimesFee(sp, fee.denominator, u);
    assert a > 0 by { MulLt(0, sp, fee.denominator); }
    assert u * tp < tp * (a + u) by {
      MulLt(0, a, tp);
      assert tp * (a + u) == a * tp + u * tp;
    }
    QuotientAtMost(u * tp, a + u, tp - 1);
  }

  /** In numbers, as long as what is left after the fee fits 128 bits: of `x` only the part
      `(denominator - numerator) / denominator` is priced. */
  lemma TargetAmountInNumbers(num: U32, den: U32, sp: Balance, tp: Balance, x: Balance)
    requires num <= den && den > 0 && sp > 0 && tp > 0 && x * (den - num) <= U128_MAX
    ensures sp * den + x * (den - num) > 0
    ensures GetTargetAmount(Fee(num, den), sp, tp, x) == x * (den - num) * tp / (sp * den + x * (den - num))
  {
    MulLt(0, sp, den);
    if x > 0 { TargetAmountIsExact(Fee(num, den), sp, tp, x); } else { QuotientAtMost(0, sp * den, 0); }
  }

  /** When the fee takes everything, nothing can be bought. */
  lemma NothingLeftAfterFee(num: U32, den: U32, sp: Balance, tp: Balance, x: Balance)
    requires num >= den
    ensures GetTargetAmount(Fee(num, den), sp, tp, x) == 0 && GetSupplyAmount(Fee(num, den), sp, tp, x) == 0
  {
    assert Kept(Fee(num, den)) == 0;
    assert SatSub(tp, x) * Kept(Fee(num, den)) == 0 && x * Kept(Fee(num, den)) == 0;
    if sp * den > 0 { QuotientAtMost(0, Sat256(sp * den), 0); }
  }


  /** Supplying more never yields less, saturating fee product included. */
  lemma TargetAmountMonotone(fee: Fee, sp: Balance, tp: Balance, x: Balance, y: Balance)
    requires x <= y
    ensures GetTargetAmount(fee, sp, tp, x) <= GetTargetAmount(fee, sp, tp, y)
  {
    if x > 0 && sp > 0 && tp > 0 {
      if fee.denominator == 0 {
        assert AfterFee(fee, x) == 0;
      } else {
        TargetAmountIsExact(fee, sp, tp, x);
        TargetAmountIsExact(fee, sp, tp, y);
        MulLe(x, y, Kept(fee));
        ShareMonotone(sp * fee.denominator, AfterFee(fee, x), AfterFee(fee, y), tp);
      }
    }
  }

  /** `u / (a + u)` grows with `u`. */
  lemma ShareMonotone(a: nat, u: nat, w: nat, tp: nat)
    requires u <= w && a + u > 0
    ensures u * tp / (a + u) <= w * tp / (a + w)
  {
    assert (u * tp) * (a + w) <= (w * tp) * (a + u) by {
      MulLe(u, w, a * tp);
      assert (u * tp) * (a + w) == u * (a * tp) + u * tp * w;
      assert (w * tp) * (a + u) == w * (a * tp) + u * tp * w;
    }
    QuotientCross(u * tp, a + u, w * tp, a + w);
  }

  /** The 256-bit product of the supply price does not saturate. */
  predicate SupplyFits(fee: Fee, sp: Balance, target: Balance) {
    sp * target * fee.denominator <= U256_MAX
  }

  /** Is there a 128-bit amount after fees that buys `target`? */
  predicate Reachable(fee: Fee, sp: Balance, tp: Balance, target: Balance) {
    target < tp && sp * target * fee.denominator <= U128_MAX * (tp - target)
  }

  lemma ReachableFits(fee: Fee, sp: Balance, tp: Balance, t: Balance)
    requires Reachable(fee, sp, tp, t)
    ensures SupplyFits(fee, sp, t)
  {
    Product256(U128_MAX, tp - t);
  }

  /** Asking for the whole pool or more is always refused. */
  lemma SupplyAmountOfTooMuchIsZero(fee: Fee, sp: Balance, tp: Balance, t: Balance)
    requires t >= tp
    ensures GetSupplyAmount(fee, sp, tp, t) == 0
  {
    assert SatSub(tp, t) * Kept(fee) == 0;
  }

  /** A non-zero supply amount is one more than a quotient of which only the numerator can saturate. */
  lemma SupplyAmountIsQuotient(fee: Fee, sp: Balance, tp: Balance, t: Balance)
    requires GetSupplyAmount(fee, sp, tp, t) != 0
    ensures t < tp && Kept(fee) > 0 && (tp - t) * Kept(fee) > 0
    ensures GetSupplyAmount(fee, sp, tp, t) == Sat256(sp * t * fee.denominator) / ((tp - t) * Kept(fee)) + 1
  {
    Product256(sp, t);
    assert (tp - t) * Kept(fee) <= U256_MAX by {
      MulLe(tp - t, U128_MAX, Kept(fee));
      MulLe(Kept(fee), 0xffff_ffff, U128_MAX);
    }
    if t >= tp { SupplyAmountOfTooMuchIsZero(fee, sp, tp, t); }
    MulLt(0, tp - t, Kept(fee));
  }

  /** Without saturation a non-zero supply amount is one more than an exact quotient. */
  lemma SupplyAmountIsExact(fee: Fee, sp: Balance, tp: Balance, t: Balance)
    requires SupplyFits(fee, sp, t)
    requires GetSupplyAmount(fee, sp, tp, t) != 0
    ensures t < tp && Kept(fee) > 0 && (tp - t) * Kept(fee) > 0
    ensures GetSupplyAmount(fee, sp, tp, t) - 1 == sp * t * fee.denominator / ((tp - t) * Kept(fee))
  {
    SupplyAmountIsQuotient(fee, sp, tp, t);
  }

  lemma SupplyAmountInNumbers(num: U32, den: U32, sp: Balance, tp: Balance, t: Balance)
    requires num < den && sp > 0 && 0 < t < tp && sp * t * den <= U256_MAX
    ensures (tp - t) * (den - num) > 0
    ensures var exact := sp * t * den / ((tp - t) * (den - num)) + 1;
            GetSupplyAmount(Fee(num, den), sp, tp, t) == if exact <= U128_MAX then exact else 0
  {
    Product256(sp, t);
    assert (tp - t) * (den - num) <= U256_MAX by {
      MulLe(tp - t, U128_MAX, den - num);
      MulLe(den - num, 0xffff_ffff, U128_MAX);
    }
    MulLt(0, tp - t, den - num);
  }

  /** When supply `x` reaches target `t`, in multiplied-out form. */
  lemma ReachesTarget(fee: Fee, sp: Balance, tp: Balance, x: Balance, t: Balance)
    requires x > 0 && sp > 0 && fee.denominator > 0 && 0 < t < tp
    ensures GetTargetAmount(fee, sp, tp, x) >= t
            <==> AfterFee(fee, x) * (tp - t) >= sp * t * fee.denominator
  {
    TargetAmountIsExact(fee, sp, tp, x);
    MulLt(0, sp, fee.denominator);
    QuotientReaches(sp * fee.denominator, AfterFee(fee, x), tp, t);
    Reorder(sp, t, fee.denominator);
  }

  lemma Reorder(a: nat, b: nat, c: nat)
    ensures a * b * c == (a * c) * b
  {}

  lemma QuotientReaches(a: nat, u: nat, tp: nat, t: nat)
    requires a > 0 && 0 < t < tp
    ensures u * tp / (a + u) >= t <==> u * (tp - t) >= a * t
  {
    assert u * (tp - t) - a * t == u * tp - t * (a + u);
    if u * tp >= t * (a + u) {
      QuotientAtLeast(u * tp, a + u, t);
    } else {
      QuotientAtMost(u * tp, a + u, t - 1);
    }
  }

  /** Only a reachable target is ever reached, by any supply. */
  lemma ReachedIsReachable(fee: Fee, sp: Balance, tp: Balance, x: Balance, t: Balance)
    requires 0 < t && GetTargetAmount(fee, sp, tp, x) >= t
    ensures x > 0 && sp > 0 && fee.denominator > 0 && Reachable(fee, sp, tp, t)
  {
    TargetAmountIsExact(fee, sp, tp, x);
    ReachesTarget(fee, sp, tp, x, t);
    MulLe(AfterFee(fee, x), U128_MAX, tp - t);
  }

  /** Cutting the amount after fees to 128 bits does not matter for what 128 bits can pay. */
  lemma AfterFeeCovers(fee: Fee, x: Balance, r: nat, n: nat)
    requires n <= U128_MAX * r
    ensures AfterFee(fee, x) * r >= n <==> (x * Kept(fee)) * r >= n
  {
    MulLe(AfterFee(fee, x), x * Kept(fee), r);
  }

  lemma CeilingCovers(n: nat, s: nat, k: nat, r: nat)
    requires r * k > 0 && s - 1 == n / (r * k)
    ensures (s * k) * r >= n
  {
    Quotient(n, r * k);
    assert s * (r * k) == (s * k) * r;
  }

  /** The quoted supply is sufficient exactly when the target is reachable at all; nothing is
      assumed about saturation. */
  lemma SupplyAmountSufficesExactlyWhen(fee: Fee, sp: Balance, tp: Balance, t: Balance)
    requires GetSupplyAmount(fee, sp, tp, t) != 0
    ensures GetTargetAmount(fee, sp, tp, GetSupplyAmount(fee, sp, tp, t)) >= t <==> Reachable(fee, sp, tp, t)
  {
    var s := GetSupplyAmount(fee, sp, tp, t);
    assert t > 0;
    hide GetSupplyAmount, GetTargetAmount, AfterFee, Kept;
    if GetTargetAmount(fee, sp, tp, s) >= t { ReachedIsReachable(fee, sp, tp, s, t); }
    if Reachable(fee, sp, tp, t) { ReachableIsReached(fee, sp, tp, t); }
  }

  lemma ReachableIsReached(fee: Fee, sp: Balance, tp: Balance, t: Balance)
    requires GetSupplyAmount(fee, sp, tp, t) != 0 && Reachable(fee, sp, tp, t)
    ensures GetTargetAmount(fee, sp, tp, GetSupplyAmount(fee, sp, tp, t)) >= t
  {
    SupplyNeedsPools(fee, sp, tp, t);
    hide GetSupplyAmount, GetTargetAmount, AfterFee, Kept, SupplyFits;
    var s, n := GetSupplyAmount(fee, sp, tp, t), sp * t * fee.denominator;
    ReachableFits(fee, sp, tp, t);
    SupplyAmountIsExact(fee, sp, tp, t);
    CeilingCovers(n, s, Kept(fee), tp - t);
    AfterFeeCovers(fee, s, tp - t, n);
    ReachesTarget(fee, sp, tp, s, t);
  }

  lemma SupplyNeedsPools(fee: Fee, sp: Balance, tp: Balance, t: Balance)
    requires GetSupplyAmount(fee, sp, tp, t) != 0
    ensures t > 0 && sp > 0 && tp > 0 && Kept(fee) > 0 && fee.denominator > 0
  {}

  /** Any supply that reaches the target is at least the quoted one less a single unit, saturation
      or not. */
  lemma SupplyAmountOverchargesByAtMostOne(fee: Fee, sp: Balance, tp: Balance, t: Balance, x: Balance)
    requires GetSupplyAmount(fee, sp, tp, t) != 0
    requires GetTargetAmount(fee, sp, tp, x) >= t
    ensures x + 1 >= GetSupplyAmount(fee, sp, tp, t)
  {
    ReachedIsReachable(fee, sp, tp, x, t);
    ReachableFits(fee, sp, tp, t);
    SupplyAmountIsExact(fee, sp, tp, t);
    ReachesTarget(fee, sp, tp, x, t);
    MulLe(AfterFee(fee, x), x * Kept(fee), tp - t);
    CoversQuotient(sp * t * fee.denominator, x, Kept(fee), tp - t);
  }

  lemma CoversQuotient(n: nat, x: nat, k: nat, r: nat)
    requires r * k > 0 && n <= (x * k) * r
    ensures n / (r * k) <= x
  {
    assert (x * k) * r == x * (r * k);
    Quotient(n, r * k);
    MulCancelLt(n / (r * k), x + 1, r * k);
  }

  /** For a reachable target the extra unit is wasted exactly when the division it corrects leaves
      no remainder. */
  lemma SupplyAmountIsMinimal(fee: Fee, sp: Balance, tp: Balance, t: Balance)
    requires Reachable(fee, sp, tp, t) && GetSupplyAmount(fee, sp, tp, t) > 1
    ensures (tp - t) * Kept(fee) > 0
    ensures GetTargetAmount(fee, sp, tp, GetSupplyAmount(fee, sp, tp, t) - 1) >= t
            <==> sp * t * fee.denominator % ((tp - t) * Kept(fee)) == 0
  {
    SupplyNeedsPools(fee, sp, tp, t);
    hide GetSupplyAmount, GetTargetAmount, AfterFee, Kept, SupplyFits;
    var s, n := GetSupplyAmount(fee, sp, tp, t), sp * t * fee.denominator;
    ReachableFits(fee, sp, tp, t);
    SupplyAmountIsExact(fee, sp, tp, t);
    ReachesTarget(fee, sp, tp, s - 1, t);
    AfterFeeCovers(fee, s - 1, tp - t, n);
    RemainderDecides(n, s - 1, Kept(fee), tp - t);
  }

  lemma RemainderDecides(n: nat, q: nat, k: nat, r: nat)
    requires r * k > 0 && q == n / (r * k)
    ensures (q * k) * r >= n <==> n % (r * k) == 0
  {
    assert (q * k) * r == q * (r * k);
    assert n == (r * k) * (n / (r * k)) + n % (r * k);
  }

  // ----- one hop never shrinks the product of the reserves -----

  /** `x` units come in, `y` go out: both reserves stay positive and the product does not fall. */
  ghost predicate GoodHop(sp: nat, tp: nat, x: nat, y: nat) {
    y < tp && sp * tp <= (sp + x) * (tp - y)
  }

  lemma GoodHopFromShare(sp: nat, tp: nat, x: nat, y: nat)
    requires y < tp && y * (sp + x) <= x * tp
    ensures GoodHop(sp, tp, x, y)
  {
    assert (sp + x) * (tp - y) == sp * tp + x * tp - y * (sp + x);
  }

  lemma ShareAtMost(sp: nat, tp: nat, x: nat, d: nat, u: nat)
    requires sp > 0 && d > 0 && u <= x * d
    ensures sp * d + u > 0
    ensures (u * tp / (sp * d + u)) * (sp + x) <= x * tp
  {
    MulLt(0, sp, d);
    ShareMonotone(sp * d, u, x * d, tp);
    var y, z, b := u * tp / (sp * d + u), (x * d) * tp / (sp * d + x * d), sp * d + x * d;
    Quotient((x * d) * tp, b);
    MulLe(y, z, b);
    assert y * b == (y * (sp + x)) * d;
    assert (x * d) * tp == (x * tp) * d;
    MulCancelLe(y * (sp + x), x * tp, d);
  }

  /** Holds for every fee, the saturating one included. */
  lemma TargetAmountKeepsProduct(fee: Fee, sp: Balance, tp: Balance, x: Balance)
    requires sp > 0 && tp > 0
    ensures GoodHop(sp, tp, x, GetTargetAmount(fee, sp, tp, x))
  {
    var d, y := fee.denominator, GetTargetAmount(fee, sp, tp, x);
    if x == 0 || d == 0 {
      assert AfterFee(fee, x) == 0;
      assert y == 0;
    } else {
      TargetAmountIsExact(fee, sp, tp, x);
      MulLe(Kept(fee), d, x);
      ShareAtMost(sp, tp, x, d, AfterFee(fee, x));
    }
    GoodHopFromShare(sp, tp, x, y);
  }

  /** Can the 256-bit numerator hold what the target is worth, less a fraction, times what is kept
      of the fee's denominator? */
  predicate ChargedInFull(fee: Fee, sp: Balance, tp: Balance, t: Balance) {
    t < tp && (sp * t - 1) / (tp - t) * (tp - t) * Kept(fee) <= U256_MAX
  }

  /** A quoted supply, saturated or not, keeps the product of the reserves exactly when it is charged
      in full. */
  lemma SupplyAmountKeepsProductExactlyWhen(fee: Fee, sp: Balance, tp: Balance, t: Balance)
    requires GetSupplyAmount(fee, sp, tp, t) != 0
    ensures GoodHop(sp, tp, GetSupplyAmount(fee, sp, tp, t), t) <==> ChargedInFull(fee, sp, tp, t)
  {
    SupplyNeedsPools(fee, sp, tp, t);
    SupplyAmountIsQuotient(fee, sp, tp, t);
    hide GetSupplyAmount, GoodHop;
    var s, r, k := GetSupplyAmount(fee, sp, tp, t), tp - t, Kept(fee);
    MulLt(0, t, sp);
    GoodHopAsSupply(sp, tp, s, t);
    QuotientCovers(sp * t, Sat256(sp * t * fee.denominator), r, k, s);
    InFullUnlessSaturated(sp * t, r, k, fee.denominator);
  }

  lemma GoodHopAsSupply(sp: nat, tp: nat, s: nat, t: nat)
    requires t < tp
    ensures GoodHop(sp, tp, s, t) <==> sp * t <= s * (tp - t)
  {
    assert (sp + s) * (tp - t) == sp * tp - sp * t + s * (tp - t);
  }

  lemma QuotientCovers(m: nat, n: nat, r: nat, k: nat, s: nat)
    requires m > 0 && r * k > 0 && r > 0 && s == n / (r * k) + 1
    ensures m <= s * r <==> (m - 1) / r * r * k <= n
  {
    var q := (m - 1) / r;
    Quotient(m - 1, r);
    assert q * r * k == q * (r * k);
    if q < s {
      MulLe(q + 1, s, r);
      Quotient(n, r * k);
      MulLe(q, s - 1, r * k);
    } else {
      MulLe(s, q, r);
      Quotient(n, r * k);
      MulLe(s, q, r * k);
    }
  }

  lemma InFullUnlessSaturated(m: nat, r: nat, k: nat, d: nat)
    requires m > 0 && r > 0 && k <= d
    ensures (m - 1) / r * r * k <= Sat256(m * d) <==> (m - 1) / r * r * k <= U256_MAX
  {
    Quotient(m - 1, r);
    MulLe((m - 1) / r * r, m, k);
    MulLe(k, d, m);
  }

  /** In particular it is whenever the 256-bit product does not saturate. */
  lemma SupplyAmountKeepsProduct(fee: Fee, sp: Balance, tp: Balance, t: Balance)
    requires SupplyFits(fee, sp, t)
    requires GetSupplyAmount(fee, sp, tp, t) != 0
    ensures ChargedInFull(fee, sp, tp, t) && GoodHop(sp, tp, GetSupplyAmount(fee, sp, tp, t), t)
  {
    SupplyNeedsPools(fee, sp, tp, t);
    SupplyAmountIsQuotient(fee, sp, tp, t);
    SupplyAmountKeepsProductExactlyWhen(fee, sp, tp, t);
    hide GetSupplyAmount, GoodHop;
    MulLt(0, t, sp);
    Quotient(sp * t - 1, tp - t);
    MulLe((sp * t - 1) / (tp - t) * (tp - t), sp * t, Kept(fee));
    MulLe(Kept(fee), fee.denominator, sp * t);
  }

  // ----- what saturation does -----

  /** An unreachable target is quoted all the same: with reserves of `2^110` and a fee of 1 in
      2^32 - 1 no 256-bit product saturates, but after fees the quote for half the target pool is
      cut to 128 bits and buys less. */
  lemma SaturatedSupplyFallsShort()
    ensures var fee, pool, t := Fee(1, 0xffff_ffff), 0x4000_0000_0000_0000_0000_0000_0000, 0x2000_0000_0000_0000_0000_0000_0000;
            && SupplyFits(fee, pool, t) && !Reachable(fee, pool, pool, t)
            && GetSupplyAmount(fee, pool, pool, t) != 0
            && GetTargetAmount(fee, pool, pool, GetSupplyAmount(fee, pool, pool, t)) < t
  {}

  /** Both happen when the 256-bit product does saturate: with the largest possible pools and a kept
      part of two a quarter of the pool is charged in full, while with no fee half of the pool costs a
      tiny fraction of what it is worth. */
  lemma SaturatedChargeInstances()
    ensures var pool, quarter, half := U128_MAX, 0x4000_0000_0000_0000_0000_0000_0000_0000,
                                       0x8000_0000_0000_0000_0000_0000_0000_0000;
            var much, none := Fee(0xffff_fffd, 0xffff_ffff), Fee(0, 0xffff_ffff);
            && !SupplyFits(much, pool, quarter) && GetSupplyAmount(much, pool, pool, quarter) != 0
            && ChargedInFull(much, pool, pool, quarter)
            && !SupplyFits(none, pool, half) && 0 < GetSupplyAmount(none, pool, pool, half) < half / 0x2000_0000
            && !ChargedInFull(none, pool, pool, half)
  {}
}
