/** When the calls of the exchange are accepted and what they compute, in terms of the pools, the
    balances and the caller's own bounds. */
module DexOutcomes {
  import opened Numbers
  import opened Wrappers
  import opened FixedPoint
  import opened Currencies
  import opened Ledgers
  import opened Pricing
  import opened Dex
  import opened DexPaths
  import opened DexAccounts
  import opened DexProvision
  import opened DexShares
  import opened DexCustody
  import opened DexParties

  // ----- the ledger -----

  /** Can `amount` be moved: does `from` have it, and does it fit into what `to` holds? */
  predicate Payable(l: Ledger, c: CurrencyId, from: AccountId, to: AccountId, amount: Balance) {
    amount == 0 || from == to || (Free(l, c, from) >= amount && Free(l, c, to) + amount <= U128_MAX)
  }

  lemma TransferExactlyWhen(l: Ledger, c: CurrencyId, from: AccountId, to: AccountId, amount: Balance)
    ensures Transfer(l, c, from, to, amount).Some? <==> Payable(l, c, from, to, amount)
  {}

  lemma TransferBothExactlyWhen(l: Ledger, p: TradingPair, from: AccountId, to: AccountId, m: Amounts)
    requires from != to && p.first != p.second
    ensures TransferBoth(l, p, from, to, m).Some? <==> Payable(l, p.first, from, to, m.fst) && Payable(l, p.second, from, to, m.snd)
  {
    if Transfer(l, p.first, from, to, m.fst).Some? { TransferEffect(l, p.first, from, to, m.fst); }
    hide SetFree;
  }

  // ----- quotes -----

  /** The pair is enabled and funded, both amounts are positive, and the target does not take more of
      the pool than the caller's limit allows. */
  ghost predicate HopAllowed(s: State, a: CurrencyId, b: CurrencyId, x: Balance, y: Balance, limit: Option<Balance>) {
    var l := GetLiquidity(s.pools, a, b);
    && StatusOf(s, NewPair(a, b)) == Enabled && l.fst > 0 && l.snd > 0 && x > 0 && y > 0
    && (limit.Some? ==> y * ONE < (limit.value + 1) * l.snd)
  }

  lemma ImpactInUnits(limit: Option<Balance>, y: Balance, pool: Balance)
    requires y < pool
    ensures !ImpactExceeds(limit, y, pool) <==> (limit.Some? ==> y * ONE < (limit.value + 1) * pool)
  {
    Quotient(y * ONE, pool);
    if limit.Some? {
      var r := y * ONE / pool;
      assert r <= ONE by { MulLe(y, pool, ONE); QuotientAtMost(y * ONE, pool, ONE); }
      if r <= limit.value { MulLe(r + 1, limit.value + 1, pool); } else { MulLe(limit.value + 1, r, pool); }
    }
  }

  /** The target of a hop is its supply at the price of the pool. */
  ghost predicate SuppliedHop(s: State, a: CurrencyId, b: CurrencyId, x: Balance, y: Balance, limit: Option<Balance>) {
    var l := GetLiquidity(s.pools, a, b);
    HopAllowed(s, a, b, x, y, limit) && y == GetTargetAmount(s.fee, l.fst, l.snd, x)
  }

  /** The supply of a hop is what its target costs. */
  ghost predicate TargetedHop(s: State, a: CurrencyId, b: CurrencyId, x: Balance, y: Balance, limit: Option<Balance>) {
    var l := GetLiquidity(s.pools, a, b);
    HopAllowed(s, a, b, x, y, limit) && x == GetSupplyAmount(s.fee, l.fst, l.snd, y)
  }

  lemma TargetHopExactlyWhen(s: State, a: CurrencyId, b: CurrencyId, x: Balance, y: Balance, limit: Option<Balance>)
    ensures TargetOfHop(s, a, b, x, limit) == Ok(y) <==> SuppliedHop(s, a, b, x, y, limit)
  {
    var l := GetLiquidity(s.pools, a, b);
    if l.fst > 0 && l.snd > 0 {
      TargetAmountKeepsProduct(s.fee, l.fst, l.snd, x);
      ImpactInUnits(limit, GetTargetAmount(s.fee, l.fst, l.snd, x), l.snd);
    }
    hide ImpactExceeds;
  }

  lemma SupplyHopExactlyWhen(s: State, a: CurrencyId, b: CurrencyId, x: Balance, y: Balance, limit: Option<Balance>)
    ensures SupplyOfHop(s, a, b, y, limit) == Ok(x) <==> TargetedHop(s, a, b, x, y, limit)
  {
    var l := GetLiquidity(s.pools, a, b);
    if y >= l.snd { SupplyAmountOfTooMuchIsZero(s.fee, l.fst, l.snd, y); } else { ImpactInUnits(limit, y, l.snd); }
    hide ImpactExceeds;
  }

  /** A path is quoted exactly by the amounts that start with the supply and are related hop by hop by
      the price, every hop being allowed. */
  lemma TargetQuoteExactlyWhen(s: State, path: seq<CurrencyId>, x: Balance, limit: Option<Balance>, v: seq<Balance>)
    ensures TargetAmounts(s, path, x, limit) == Ok(v)
            <==> && 2 <= |path| <= s.pathLimit && |v| == |path| && v[0] == x
                 && forall i :: 0 <= i < |path| - 1 ==> SuppliedHop(s, path[i], path[i + 1], v[i], v[i + 1], limit)
  {
    hide TargetOfHop, SuppliedHop;
    if 2 <= |path| <= s.pathLimit && |v| == |path| && v[0] == x {
      forall i | 0 <= i < |path| - 1
        ensures TargetOfHop(s, path[i], path[i + 1], v[i], limit) == Ok(v[i + 1])
                <==> SuppliedHop(s, path[i], path[i + 1], v[i], v[i + 1], limit)
      {
        TargetHopExactlyWhen(s, path[i], path[i + 1], v[i], v[i + 1], limit);
      }
      if TargetAmounts(s, path, x, limit) == Ok(v) { TargetsAlongHops(s, path, x, limit); }
      if forall i :: 0 <= i < |path| - 1 ==> SuppliedHop(s, path[i], path[i + 1], v[i], v[i + 1], limit) {
        HopsMakeTargets(s, path, v, limit);
      }
    }
  }

  lemma {:induction false} HopsMakeTargets(s: State, path: seq<CurrencyId>, v: seq<Balance>, limit: Option<Balance>)
    requires path != [] && TargetHops(s, path, v, limit)
    ensures TargetsAlong(s, path, v[0], limit) == Ok(v)
    decreases |path|
  {
    hide TargetOfHop;
    if |path| > 1 {
      var rest, w := path[1..], v[1..];
      assert TargetOfHop(s, path[0], path[0 + 1], v[0], limit) == Ok(v[0 + 1]);
      forall i | 0 <= i < |rest| - 1 ensures TargetOfHop(s, rest[i], rest[i + 1], w[i], limit) == Ok(w[i + 1]) {
        assert TargetOfHop(s, path[i + 1], path[i + 1 + 1], v[i + 1], limit) == Ok(v[i + 1 + 1]);
      }
      HopsMakeTargets(s, rest, w, limit);
      assert v == [v[0]] + w;
    } else {
      assert v == [v[0]];
    }
  }

  /** Likewise backwards from the target. */
  lemma SupplyQuoteExactlyWhen(s: State, path: seq<CurrencyId>, t: Balance, limit: Option<Balance>, v: seq<Balance>)
    ensures SupplyAmounts(s, path, t, limit) == Ok(v)
            <==> && 2 <= |path| <= s.pathLimit && |v| == |path| && v[|path| - 1] == t
                 && forall i :: 0 <= i < |path| - 1 ==> TargetedHop(s, path[i], path[i + 1], v[i], v[i + 1], limit)
  {
    hide SupplyOfHop, TargetedHop;
    if 2 <= |path| <= s.pathLimit && |v| == |path| && v[|path| - 1] == t {
      forall i | 0 <= i < |path| - 1
        ensures SupplyOfHop(s, path[i], path[i + 1], v[i + 1], limit) == Ok(v[i])
                <==> TargetedHop(s, path[i], path[i + 1], v[i], v[i + 1], limit)
      {
        SupplyHopExactlyWhen(s, path[i], path[i + 1], v[i], v[i + 1], limit);
      }
      if SupplyAmounts(s, path, t, limit) == Ok(v) { SuppliesAlongHops(s, path, t, limit); }
      if forall i :: 0 <= i < |path| - 1 ==> TargetedHop(s, path[i], path[i + 1], v[i], v[i + 1], limit) {
        HopsMakeSupplies(s, path, v, limit);
      }
    }
  }

  lemma {:induction false} HopsMakeSupplies(s: State, path: seq<CurrencyId>, v: seq<Balance>, limit: Option<Balance>)
    requires path != [] && SupplyHops(s, path, v, limit)
    ensures SuppliesAlong(s, path, v[|path| - 1], limit) == Ok(v)
    decreases |path|
  {
    hide SupplyOfHop;
    var n := |path|;
    if n > 1 {
      var rest, w := path[..n - 1], v[..n - 1];
      assert SupplyOfHop(s, path[n - 2], path[n - 2 + 1], v[n - 2 + 1], limit) == Ok(v[n - 2]);
      forall i | 0 <= i < |rest| - 1 ensures SupplyOfHop(s, rest[i], rest[i + 1], w[i + 1], limit) == Ok(w[i]) {
        assert SupplyOfHop(s, path[i], path[i + 1], v[i + 1], limit) == Ok(v[i]);
      }
      HopsMakeSupplies(s, rest, w, limit);
      assert v == w + [v[n - 1]];
    } else {
      assert v == [v[0]];
    }
  }

  // ----- swaps -----

  /** Can the quote be settled: does the trader have the supply, the exchange the target, and does each
      fit where it goes? */
  ghost predicate Affordable(l: Ledger, who: AccountId, path: seq<CurrencyId>, v: seq<Balance>)
    requires |path| == |v| >= 2
  {
    var n := |path|;
    var paid := if path[0] == path[n - 1] then v[0] else 0;
    && Payable(l, path[0], who, MODULE_ACCOUNT, v[0])
    && (v[n - 1] == 0
        || (Free(l, path[n - 1], MODULE_ACCOUNT) + paid >= v[n - 1]
            && Free(l, path[n - 1], who) - paid + v[n - 1] <= U128_MAX))
  }

  /** The trader has paid the supply and got the target; nobody else but the exchange is touched. */
  ghost predicate Swapped(l: Ledger, m: Ledger, who: AccountId, path: seq<CurrencyId>, v: seq<Balance>)
    requires |path| == |v| >= 2
  {
    var n := |path|;
    forall c, a :: a != MODULE_ACCOUNT ==>
      Free(m, c, a) + (if a == who && c == path[0] then v[0] else 0)
      == Free(l, c, a) + (if a == who && c == path[n - 1] then v[n - 1] else 0)
  }

  lemma SettlesExactlyWhen(s: State, who: AccountId, path: seq<CurrencyId>, v: seq<Balance>)
    requires |path| == |v| >= 2 && who != MODULE_ACCOUNT
    ensures Settle(s, who, path, v).Some? <==> Affordable(s.ledger, who, path, v)
    ensures Settle(s, who, path, v).Some? ==> Swapped(s.ledger, Settle(s, who, path, v).value.ledger, who, path, v)
  {
    var n := |path|;
    hide SwapByPath;
    TransferExactlyWhen(s.ledger, path[0], who, MODULE_ACCOUNT, v[0]);
    var paid := Transfer(s.ledger, path[0], who, MODULE_ACCOUNT, v[0]);
    if paid.Some? {
      TransferEffect(s.ledger, path[0], who, MODULE_ACCOUNT, v[0]);
      TransferExactlyWhen(paid.value, path[n - 1], MODULE_ACCOUNT, who, v[n - 1]);
      if Transfer(paid.value, path[n - 1], MODULE_ACCOUNT, who, v[n - 1]).Some? {
        TransferEffect(paid.value, path[n - 1], MODULE_ACCOUNT, who, v[n - 1]);
      }
    }
    hide Transfer, Free, Consistent;
  }

  /** A swap is made exactly when it can be quoted, the quote ends with at least the caller's minimum and
      can be settled; it returns what the trader gets. */
  lemma ExactSupplyOutcome(s: State, who: AccountId, path: seq<CurrencyId>, supply: Balance, minTarget: Balance,
                           limit: Option<Balance>)
    requires who != MODULE_ACCOUNT
    ensures var x, q := SwapWithExactSupply(s, who, path, supply, minTarget, limit), TargetAmounts(s, path, supply, limit);
            && (x.Ok? <==> q.Ok? && q.value[|path| - 1] >= minTarget && Affordable(s.ledger, who, path, q.value))
            && (q.Err? ==> x == Err(q.error))
            && (q.Ok? && q.value[|path| - 1] < minTarget ==> x == Err(InsufficientTargetAmount))
            && (x.Ok? ==>
                  && x.value.1 == q.value[|path| - 1] >= minTarget && q.value[0] == supply
                  && Swapped(s.ledger, x.value.0.ledger, who, path, q.value))
  {
    hide TargetAmounts, Settle, Affordable, Swapped;
    var q := TargetAmounts(s, path, supply, limit);
    if q.Ok? { SettlesExactlyWhen(s, who, path, q.value); }
  }

  /** Likewise for an exact target, with the caller's maximum on what is paid. */
  lemma ExactTargetOutcome(s: State, who: AccountId, path: seq<CurrencyId>, target: Balance, maxSupply: Balance,
                           limit: Option<Balance>)
    requires who != MODULE_ACCOUNT
    ensures var x, q := SwapWithExactTarget(s, who, path, target, maxSupply, limit), SupplyAmounts(s, path, target, limit);
            && (x.Ok? <==> q.Ok? && q.value[0] <= maxSupply && Affordable(s.ledger, who, path, q.value))
            && (q.Err? ==> x == Err(q.error))
            && (q.Ok? && q.value[0] > maxSupply ==> x == Err(ExcessiveSupplyAmount))
            && (x.Ok? ==>
                  && x.value.1 == q.value[0] <= maxSupply && q.value[|path| - 1] == target
                  && Swapped(s.ledger, x.value.0.ledger, who, path, q.value))
  {
    hide SupplyAmounts, Settle, Affordable, Swapped;
    var q := SupplyAmounts(s, path, target, limit);
    if q.Ok? { SettlesExactlyWhen(s, who, path, q.value); }
  }

  // ----- adding liquidity -----

  /** `x` is what `y` is worth at `reserveX` for `reserveY`, but for rounding down twice. */
  ghost predicate WorthAtMost(x: nat, y: nat, reserveX: nat, reserveY: nat) { x * reserveY <= y * reserveX }

  ghost predicate WorthAtLeast(x: nat, y: nat, reserveX: nat, reserveY: nat) {
    y * reserveX * ONE < (x + 1) * reserveY * ONE + y * reserveY
  }

  /** The price `a / b` is a 128-bit number and so is what `n` is worth at it. */
  predicate Priced(a: Balance, b: Balance, n: Balance) {
    b > 0 && a * ONE / b <= U128_MAX && (a * ONE / b) * n / ONE <= U128_MAX
  }

  lemma PricedWorth(a: Balance, b: Balance, n: Balance)
    ensures WorthAtMost(SaturatingMulInt(RatioOrZero(a, b), n), n, a, b)
    ensures Priced(a, b, n) ==> WorthAtLeast(SaturatingMulInt(RatioOrZero(a, b), n), n, a, b)
  {
    ScaledByRatio(a, b, n);
    if Priced(a, b, n) { ScaledByRatioAtLeast(a, b, n); }
  }

  lemma SharesForWorth(amount: Balance, reserve: Balance, total: Balance)
    ensures WorthAtMost(SharesFor(amount, reserve, total), total, amount, reserve)
    ensures Priced(amount, reserve, total) ==> WorthAtLeast(SharesFor(amount, reserve, total), total, amount, reserve)
  {
    SharesForBound(amount, reserve, total);
    if Priced(amount, reserve, total) { ScaledByRatioAtLeast(amount, reserve, total); }
  }

  /** One of the maxima is added in full, the other currency in proportion to the pool, and the shares
      are in the same proportion to those outstanding. */
  lemma IncrementIsProportional(pool: Amounts, total: Balance, max: Amounts)
    requires total > 0
    ensures var inc := LiquidityIncrement(pool, total, max);
            && (FirstIsAbundant(pool, max) ==>
                  && inc.amounts.snd == max.snd
                  && WorthAtMost(inc.amounts.fst, max.snd, pool.fst, pool.snd)
                  && (Priced(pool.fst, pool.snd, max.snd) ==> WorthAtLeast(inc.amounts.fst, max.snd, pool.fst, pool.snd))
                  && (Priced(inc.amounts.fst, pool.fst, total) ==> WorthAtLeast(inc.shares, total, inc.amounts.fst, pool.fst)))
            && (!FirstIsAbundant(pool, max) ==>
                  && inc.amounts.fst == max.fst
                  && WorthAtMost(inc.amounts.snd, max.fst, pool.snd, pool.fst)
                  && (Priced(pool.snd, pool.fst, max.fst) ==> WorthAtLeast(inc.amounts.snd, max.fst, pool.snd, pool.fst))
                  && (Priced(inc.amounts.snd, pool.snd, total) ==> WorthAtLeast(inc.shares, total, inc.amounts.snd, pool.snd)))
  {
    PricedWorth(pool.fst, pool.snd, max.snd);
    PricedWorth(pool.snd, pool.fst, max.fst);
    var inc := LiquidityIncrement(pool, total, max);
    SharesForWorth(inc.amounts.fst, pool.fst, total);
    SharesForWorth(inc.amounts.snd, pool.snd, total);
    hide RatioOrZero, SaturatingMulInt, SharesFor, WorthAtMost, WorthAtLeast, Priced;
  }

  /** The first provider adds both maxima, for about twice the larger one in shares. */
  lemma FirstIncrement(pool: Amounts, max: Amounts)
    ensures var inc := LiquidityIncrement(pool, 0, max);
            && inc.amounts == max && Larger(max) <= inc.shares <= 2 * Larger(max)
            && (Priced(Larger(max), Smaller(max), Smaller(max)) && 2 * Larger(max) <= U128_MAX ==>
                  (inc.shares + 1) * ONE * Smaller(max) + Smaller(max) * Smaller(max) > 2 * Larger(max) * ONE * Smaller(max))
  {
    var a, b := Larger(max), Smaller(max);
    PricedWorth(a, b, b);
    var x := SaturatingMulInt(RatioOrZero(a, b), b);
    assert x <= a by { if b > 0 { MulCancelLe(x, a, b); } }
    hide RatioOrZero, SaturatingMulInt, Priced;
    assert LiquidityIncrement(pool, 0, max).shares == SatAdd(x, a);
    if x + a <= U128_MAX { DoubleLarger(x, a, b, ONE); }
  }

  lemma DoubleLarger(x: nat, a: nat, b: nat, one: nat)
    ensures b * a * one < (x + 1) * b * one + b * b ==> (x + a + 1) * one * b + b * b > 2 * a * one * b
  {
    assert (x + a + 1) * one * b == (x + 1) * b * one + b * a * one;
  }

  /** Liquidity is accepted exactly for an enabled pair of token currencies when something of both is
      added for some shares, at least as many as asked for, and the books can carry it. */
  lemma AddingAcceptedExactlyWhen(s: State, who: AccountId, a: CurrencyId, b: CurrencyId, maxA: Balance, maxB: Balance,
                                  min: Balance)
    ensures var x, p := AddLiquidity(s, who, a, b, maxA, maxB, min), NewPair(a, b);
            && (x.Ok? <==>
                  && ShareCurrency(p).Some? && StatusOf(s, p) == Enabled
                  && var inc := LiquidityIncrement(PoolOf(s.pools, p), Issuance(s.ledger, ShareCurrency(p).value),
                                                   InPairOrder(p, a, maxA, maxB));
                     && inc.amounts.fst > 0 && inc.amounts.snd > 0 && inc.shares > 0 && inc.shares >= min
                     && TransferBoth(s.ledger, p, who, MODULE_ACCOUNT, inc.amounts).Some?
                     && Issuance(s.ledger, ShareCurrency(p).value) + inc.shares <= U128_MAX
                     && Free(s.ledger, ShareCurrency(p).value, who) + inc.shares <= U128_MAX)
            && (ShareCurrency(p).Some? && StatusOf(s, p) != Enabled ==> x == Err(MustBeEnabled))
  {
    hide LiquidityIncrement;
    var p := NewPair(a, b);
    if ShareCurrency(p).Some? {
      var lp := ShareCurrency(p).value;
      var inc := LiquidityIncrement(PoolOf(s.pools, p), Issuance(s.ledger, lp), InPairOrder(p, a, maxA, maxB));
      if TransferBoth(s.ledger, p, who, MODULE_ACCOUNT, inc.amounts).Some? { SharesUntouched(s.ledger, p, who, inc.amounts, lp); }
    }
    hide TransferBoth, Free, SetFree;
  }

  lemma SharesUntouched(l: Ledger, p: TradingPair, who: AccountId, m: Amounts, lp: CurrencyId)
    requires ShareCurrency(p) == Some(lp) && TransferBoth(l, p, who, MODULE_ACCOUNT, m).Some?
    ensures var n := TransferBoth(l, p, who, MODULE_ACCOUNT, m).value;
            Issuance(n, lp) == Issuance(l, lp) && Free(n, lp, who) == Free(l, lp, who)
  {
    if who != MODULE_ACCOUNT { TransferBothEffect(l, p, who, MODULE_ACCOUNT, m); }
  }

  // ----- removing liquidity -----

  /** What shares are worth is their exact proportion of the reserve, rounded down twice. */
  lemma RedeemedIsProportional(pool: Amounts, total: Balance, shares: Balance)
    requires 0 < shares <= total
    ensures var out := Redeemed(pool, total, shares);
            && WorthAtMost(out.fst, pool.fst, shares, total) && WorthAtLeast(out.fst, pool.fst, shares, total)
            && WorthAtMost(out.snd, pool.snd, shares, total) && WorthAtLeast(out.snd, pool.snd, shares, total)
  {
    PricedWorth(shares, total, pool.fst);
    PricedWorth(shares, total, pool.snd);
    var r := shares * ONE / total;
    assert r <= ONE by { MulLe(shares, total, ONE); QuotientAtMost(shares * ONE, total, ONE); }
    RatioOfPart(r, pool.fst, ONE);
    RatioOfPart(r, pool.snd, ONE);
  }

  lemma RatioOfPart(r: nat, n: nat, one: nat)
    requires one > 0 && r <= one
    ensures r * n / one <= n
  {
    MulLe(r, one, n);
    QuotientAtMost(r * n, one, n);
  }

  /** An accepted redemption takes the shares from the account and pays it, out of the pool, the
      proportion of each reserve that the shares are of those outstanding, and at least what the
      account asked for. */
  lemma RedemptionIsProportional(s: State, who: AccountId, a: CurrencyId, b: CurrencyId, shares: Balance, minA: Balance,
                                 minB: Balance)
    requires Inv(s) && who != MODULE_ACCOUNT && shares > 0 && RemoveLiquidity(s, who, a, b, shares, minA, minB).Ok?
    ensures var t, p := RemoveLiquidity(s, who, a, b, shares, minA, minB).value, NewPair(a, b);
            var pool, left := PoolOf(s.pools, p), PoolOf(t.pools, p);
            && ShareCurrency(p).Some? && left.fst <= pool.fst && left.snd <= pool.snd
            && var total, paid := Issuance(s.ledger, ShareCurrency(p).value), Amounts(pool.fst - left.fst, pool.snd - left.snd);
               && Issuance(t.ledger, ShareCurrency(p).value) == total - shares
               && Traded(s.ledger, t.ledger, who, p, NONE, shares, paid, 0)
               && paid.fst >= InPairOrder(p, a, minA, minB).fst && paid.snd >= InPairOrder(p, a, minA, minB).snd
               && paid.fst * total <= pool.fst * shares
               && pool.fst * shares * ONE < (paid.fst + 1) * total * ONE + pool.fst * total
               && paid.snd * total <= pool.snd * shares
               && pool.snd * shares * ONE < (paid.snd + 1) * total * ONE + pool.snd * total
  {
    hide RemoveLiquidity, Redeemed, Traded, Inv, Free;
    var p := NewPair(a, b);
    RemovedPair(s, who, a, b, shares, minA, minB);
    RemoveLiquidityEffect(s, who, a, b, shares, minA, minB);
    ProviderIsPaid(s, who, a, b, shares, minA, minB);
    RedeemedIsProportional(PoolOf(s.pools, p), Issuance(s.ledger, ShareCurrency(p).value), shares);
  }

  lemma RemovedPair(s: State, who: AccountId, a: CurrencyId, b: CurrencyId, shares: Balance, minA: Balance, minB: Balance)
    requires Inv(s) && shares > 0 && RemoveLiquidity(s, who, a, b, shares, minA, minB).Ok?
    ensures Consistent(s.ledger) && FromTokens(a, b) == Some(NewPair(a, b))
  {
    PairIsSymmetric(a, b);
    hide Slack, Consistent;
  }

  /** It is accepted exactly when the account has the shares and they are worth what it asked for; the
      exchange can always pay. */
  lemma RemovingAcceptedExactlyWhen(s: State, who: AccountId, a: CurrencyId, b: CurrencyId, shares: Balance,
                                    minA: Balance, minB: Balance)
    requires shares > 0 && FromTokens(a, b).Some?
    ensures var p := FromTokens(a, b).value;
            RemoveLiquidity(s, who, a, b, shares, minA, minB).Ok?
            <==> && ShareCurrency(p).Some? && Free(s.ledger, ShareCurrency(p).value, who) >= shares
                 && var lp, min := ShareCurrency(p).value, InPairOrder(p, a, minA, minB);
                    var out := Redeemed(PoolOf(s.pools, p), Issuance(s.ledger, lp), shares);
                    && out.fst >= min.fst && out.snd >= min.snd
                    && TransferBoth(Withdraw(s.ledger, lp, who, shares).GetOr(s.ledger), p, MODULE_ACCOUNT, who, out).Some?
  {
    hide Redeemed, TransferBoth, SetFree;
  }
}
