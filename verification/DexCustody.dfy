/** Custody: the module account always holds what the pools and the pending provisions add up
    to, and no operation of the exchange changes the difference. */
module DexCustody {
  import opened Numbers
  import opened Wrappers
  import opened Currencies
  import opened Ledgers
  import opened MapSums
  import opened Dex
  import opened DexPaths
  import opened DexAccounts
  import opened DexProvision
  import opened DexShares
  import opened FixedPoint

  ghost function PledgeParts(contributions: map<TradingPair, map<AccountId, Amounts>>, c: CurrencyId)
    : map<TradingPair, nat>
  {
    map p | p in contributions :: PledgedTo(p, contributions[p], c)
  }

  ghost function Pledged(contributions: map<TradingPair, map<AccountId, Amounts>>, c: CurrencyId): nat {
    Sum(PledgeParts(contributions, c))
  }

  /** What the module account holds of `c` beyond the reserves and the pending provisions. */
  ghost function Slack(s: State, c: CurrencyId): int {
    Free(s.ledger, c, MODULE_ACCOUNT) - Reserves(s.pools, c) - Pledged(s.contributions, c)
  }

  ghost predicate SlackKept(s: State, t: State) { forall c :: Slack(t, c) == Slack(s, c) }

  /** Only a provisioning pair has contributions; they add up to its accumulated provision, and
      no shares of it are outstanding. Every listed pair consists of two tradable currencies. */
  ghost predicate PairOk(s: State, p: TradingPair) {
    && (StatusOf(s, p) != NotEnabled ==> Tradable(p.first) && Tradable(p.second) && p == NewPair(p.first, p.second))
    && MODULE_ACCOUNT !in ContributionsTo(s, p)
    && match StatusOf(s, p)
       case NotEnabled | Enabled => ContributionsTo(s, p) == map[]
       case Provisioning(par) =>
         && par.accumulated.fst == SumFst(ContributionsTo(s, p))
         && par.accumulated.snd == SumSnd(ContributionsTo(s, p))
         && ShareCurrency(p).Some? && Issuance(s.ledger, ShareCurrency(p).value) == 0
  }

  ghost predicate Inv(s: State) {
    && Consistent(s.ledger)
    && (forall c :: Slack(s, c) >= 0)
    && (forall p :: PairOk(s, p))
  }

  lemma PledgedUpdate(contributions: map<TradingPair, map<AccountId, Amounts>>, p: TradingPair,
                      all: map<AccountId, Amounts>, c: CurrencyId)
    ensures var was := if p in contributions then contributions[p] else map[];
            Pledged(contributions[p := all], c) + PledgedTo(p, was, c) == Pledged(contributions, c) + PledgedTo(p, all, c)
  {
    NothingPledged(p, c);
    SumUpdate(PledgeParts(contributions, c), p, PledgedTo(p, all, c));
    assert PledgeParts(contributions[p := all], c) == PledgeParts(contributions, c)[p := PledgedTo(p, all, c)];
  }

  lemma PledgedRemove(contributions: map<TradingPair, map<AccountId, Amounts>>, p: TradingPair, c: CurrencyId)
    ensures var was := if p in contributions then contributions[p] else map[];
            Pledged(contributions - {p}, c) + PledgedTo(p, was, c) == Pledged(contributions, c)
  {
    NothingPledged(p, c);
    assert PledgeParts(contributions - {p}, c) == PledgeParts(contributions, c) - {p};
    if p in contributions {
      SumSplit(PledgeParts(contributions, c), p);
    } else {
      assert contributions - {p} == contributions;
    }
  }

  lemma NothingPledged(p: TradingPair, c: CurrencyId)
    ensures PledgedTo(p, map[], c) == 0
  {
    assert Fsts(map[]) == map[] && Snds(map[]) == map[];
  }

  lemma PledgedAtLeast(contributions: map<TradingPair, map<AccountId, Amounts>>, p: TradingPair, c: CurrencyId)
    ensures var all := if p in contributions then contributions[p] else map[];
            PledgedTo(p, all, c) <= Pledged(contributions, c)
  {
    PledgedRemove(contributions, p, c);
  }

  // ----- swaps -----

  lemma EnabledPathIsTradable(s: State, path: seq<CurrencyId>)
    requires forall p :: PairOk(s, p)
    requires |path| >= 2 && forall i :: 0 <= i < |path| - 1 ==> StatusOf(s, Hop(path, i)) == Enabled
    ensures AllTradable(path)
  {
    forall i | 0 <= i < |path| ensures Tradable(path[i]) {
      var j := if i < |path| - 1 then i else i - 1;
      assert PairOk(s, Hop(path, j));
      PairIsSymmetric(path[j], path[j + 1]);
    }
  }

  /** Every currency moved along a quoted path is accounted for. */
  lemma PaidFits(s: State, who: AccountId, a: CurrencyId, x: Balance)
    requires Inv(s) && who != MODULE_ACCOUNT && Transfer(s.ledger, a, who, MODULE_ACCOUNT, x).Some?
    ensures Fits(s.pools, a, x)
  {
    hide Reserves, Pledged, SumFst, SumSnd;
    TransferEffect(s.ledger, a, who, MODULE_ACCOUNT, x);
    var paid := Transfer(s.ledger, a, who, MODULE_ACCOUNT, x).value;
    forall c ensures Reserves(s.pools, c) + Carried(a, x, c) <= U128_MAX {
      assert Slack(s, c) >= 0;
      assert Free(paid, c, MODULE_ACCOUNT) == Free(s.ledger, c, MODULE_ACCOUNT) + Carried(a, x, c);
    }
  }

  /** What settling does to the account: in goes the supply, out goes the target. */
  lemma SettlePays(s: State, who: AccountId, path: seq<CurrencyId>, v: seq<Balance>, t: State)
    requires Inv(s) && who != MODULE_ACCOUNT && |path| == |v| >= 2 && Settle(s, who, path, v) == Some(t)
    ensures t == s.(ledger := t.ledger, pools := SwapByPath(s.pools, path, v)) && Consistent(t.ledger)
    ensures forall c :: Issuance(t.ledger, c) == Issuance(s.ledger, c)
    ensures forall c :: Free(t.ledger, c, MODULE_ACCOUNT) + Carried(path[|path| - 1], v[|path| - 1], c)
                        == Free(s.ledger, c, MODULE_ACCOUNT) + Carried(path[0], v[0], c)
  {
    hide SwapByPath, Slack, PairOk, Transfer, Sum, Reserves, Pledged;
    var n := |path|;
    TransferEffect(s.ledger, path[0], who, MODULE_ACCOUNT, v[0]);
    var paid := Transfer(s.ledger, path[0], who, MODULE_ACCOUNT, v[0]).value;
    TransferEffect(paid, path[n - 1], MODULE_ACCOUNT, who, v[n - 1]);
  }

  /** A settled path leaves the custody of every currency as it was exactly when it overdraws no
      pool on the way; what it overdraws is missing. */
  lemma SettleKeepsCustodyExactlyWhen(s: State, who: AccountId, path: seq<CurrencyId>, v: seq<Balance>, t: State)
    requires Inv(s) && who != MODULE_ACCOUNT && |path| == |v| >= 2 && AllTradable(path)
    requires Settle(s, who, path, v) == Some(t) && Roomy(s.pools, path, v)
    ensures forall c :: Slack(t, c) == Slack(s, c) - Overdraft(s.pools, path, v, c)
    ensures SlackKept(s, t) <==> NeverOverdrawn(s.pools, path, v)
  {
    hide Reserves, Pledged, SwapByPath, SumFst, SumSnd, Overdraft, NeverOverdrawn, Roomy;
    SettlePays(s, who, path, v, t);
    forall c ensures Slack(t, c) == Slack(s, c) - Overdraft(s.pools, path, v, c) { PathAccounts(s.pools, path, v, c); }
    if NeverOverdrawn(s.pools, path, v) {
      forall c ensures Overdraft(s.pools, path, v, c) == 0 { SoundHasNoOverdraft(s.pools, path, v, c); }
    }
    if SlackKept(s, t) {
      forall c ensures Overdraft(s.pools, path, v, c) == 0 { assert Slack(t, c) == Slack(s, c); }
      NoOverdraftIsSound(s.pools, path, v);
    }
  }

  lemma SettleKeepsCustody(s: State, who: AccountId, path: seq<CurrencyId>, v: seq<Balance>, t: State)
    requires Inv(s) && who != MODULE_ACCOUNT
    requires |path| == |v| >= 2 && AllTradable(path) && NeverOverdrawn(s.pools, path, v)
    requires Settle(s, who, path, v) == Some(t)
    ensures Inv(t) && SlackKept(s, t) && Fits(s.pools, path[0], v[0])
    ensures forall c :: Issuance(t.ledger, c) == Issuance(s.ledger, c)
  {
    hide Reserves, Pledged, SwapByPath, SumFst, SumSnd, NeverOverdrawn, Fits;
    PaidFits(s, who, path[0], v[0]);
    SoundPathsAreRoomy(s.pools, path, v);
    SettleKeepsCustodyExactlyWhen(s, who, path, v, t);
    SettlePays(s, who, path, v, t);
    forall p ensures PairOk(t, p) { assert PairOk(s, p); }
  }

  lemma TargetPathIsTradable(s: State, path: seq<CurrencyId>, supply: Balance, limit: Option<Balance>)
    requires Inv(s) && TargetAmounts(s, path, supply, limit).Ok?
    ensures AllTradable(path)
  {
    forall i | 0 <= i < |path| - 1 ensures StatusOf(s, Hop(path, i)) == Enabled {
      TargetQuoteUsesEnabled(s, path, supply, limit, i);
    }
    EnabledPathIsTradable(s, path);
  }

  lemma SupplyPathIsTradable(s: State, path: seq<CurrencyId>, target: Balance, limit: Option<Balance>)
    requires Inv(s) && SupplyAmounts(s, path, target, limit).Ok?
    ensures AllTradable(path)
  {
    forall i | 0 <= i < |path| - 1 ensures StatusOf(s, Hop(path, i)) == Enabled {
      SupplyQuoteUsesEnabled(s, path, target, limit, i);
    }
    EnabledPathIsTradable(s, path);
  }

  /** A quote that can be given is carried out without overdrawing a pool. */
  predicate SoundTarget(s: State, path: seq<CurrencyId>, supply: Balance, limit: Option<Balance>) {
    TargetAmounts(s, path, supply, limit).Ok? ==> NeverOverdrawn(s.pools, path, TargetAmounts(s, path, supply, limit).value)
  }

  predicate SoundSupply(s: State, path: seq<CurrencyId>, target: Balance, limit: Option<Balance>) {
    SupplyAmounts(s, path, target, limit).Ok? ==> NeverOverdrawn(s.pools, path, SupplyAmounts(s, path, target, limit).value)
  }

  /** Paths that repeat no hop, and short ones, are sound. */
  lemma UnrepeatedPathsAreSound(s: State, path: seq<CurrencyId>, amount: Balance, limit: Option<Balance>)
    requires Inv(s) && Unrepeated(path)
    ensures SoundTarget(s, path, amount, limit) && SoundSupply(s, path, amount, limit)
  {
    hide TargetAmounts, SupplyAmounts, Unrepeated, Inv;
    if TargetAmounts(s, path, amount, limit).Ok? {
      TargetPathIsTradable(s, path, amount, limit);
      TargetQuoteIsGood(s, path, amount, limit);
      UnrepeatedIsSound(s.pools, path, TargetAmounts(s, path, amount, limit).value);
    }
    if SupplyAmounts(s, path, amount, limit).Ok? {
      SupplyPathIsTradable(s, path, amount, limit);
      SupplyQuoteIsCovered(s, path, amount, limit);
      UnrepeatedIsSound(s.pools, path, SupplyAmounts(s, path, amount, limit).value);
    }
  }

  lemma ExactSupplyKeepsCustody(s: State, who: AccountId, path: seq<CurrencyId>, supply: Balance,
                                minTarget: Balance, limit: Option<Balance>)
    requires Inv(s) && who != MODULE_ACCOUNT && SoundTarget(s, path, supply, limit)
    requires SwapWithExactSupply(s, who, path, supply, minTarget, limit).Ok?
    ensures var t := SwapWithExactSupply(s, who, path, supply, minTarget, limit).value.0;
            && Inv(t) && SlackKept(s, t) && AllTradable(path) && Fits(s.pools, path[0], supply)
            && forall c :: Issuance(t.ledger, c) == Issuance(s.ledger, c)
  {
    TargetPathIsTradable(s, path, supply, limit);
    hide Inv, Slack, Fits, NeverOverdrawn;
    SettleKeepsCustody(s, who, path, TargetAmounts(s, path, supply, limit).value,
                       SwapWithExactSupply(s, who, path, supply, minTarget, limit).value.0);
  }

  lemma ExactTargetKeepsCustody(s: State, who: AccountId, path: seq<CurrencyId>, target: Balance,
                                maxSupply: Balance, limit: Option<Balance>)
    requires Inv(s) && who != MODULE_ACCOUNT && SoundSupply(s, path, target, limit)
    requires SwapWithExactTarget(s, who, path, target, maxSupply, limit).Ok?
    ensures var t := SwapWithExactTarget(s, who, path, target, maxSupply, limit).value.0;
            && Inv(t) && SlackKept(s, t) && AllTradable(path)
            && Fits(s.pools, path[0], SupplyAmounts(s, path, target, limit).value[0])
            && forall c :: Issuance(t.ledger, c) == Issuance(s.ledger, c)
  {
    SupplyPathIsTradable(s, path, target, limit);
    hide Inv, Slack, Fits, NeverOverdrawn;
    SettleKeepsCustody(s, who, path, SupplyAmounts(s, path, target, limit).value,
                       SwapWithExactTarget(s, who, path, target, maxSupply, limit).value.0);
  }

  // ----- liquidity -----

  lemma ReserveFits(s: State, p: TradingPair, m: Amounts, l: Ledger)
    requires Inv(s)
    requires forall c :: Free(l, c, MODULE_ACCOUNT) == Free(s.ledger, c, MODULE_ACCOUNT) + Part(p, m, c)
    ensures PoolOf(s.pools, p).fst + m.fst <= U128_MAX && PoolOf(s.pools, p).snd + m.snd <= U128_MAX
  {
    ReservesAtLeast(s.pools, p, p.first);
    ReservesAtLeast(s.pools, p, p.second);
    assert Slack(s, p.first) >= 0 && Slack(s, p.second) >= 0;
    assert Free(l, p.first, MODULE_ACCOUNT) <= U128_MAX && Free(l, p.second, MODULE_ACCOUNT) <= U128_MAX;
  }

  /** Changing the shares of one pair matters to no other. */
  lemma OtherPairsOk(s: State, t: State, p: TradingPair)
    requires forall q :: PairOk(s, q)
    requires ShareCurrency(p).Some?
    requires forall c :: c != ShareCurrency(p).value ==> Issuance(t.ledger, c) == Issuance(s.ledger, c)
    requires forall q :: q != p ==> StatusOf(t, q) == StatusOf(s, q) && ContributionsTo(t, q) == ContributionsTo(s, q)
    requires PairOk(t, p)
    ensures forall q :: PairOk(t, q)
  {
    forall q ensures PairOk(t, q) {
      assert PairOk(s, q);
      if q != p && ShareCurrency(q) == ShareCurrency(p) { ShareCurrencyIsInjective(q, p); }
    }
  }

  /** A pool took in (or gave out) what the module account did: the slack is as before. */
  lemma PoolMoveKeepsSlack(s: State, t: State, p: TradingPair, given: Amounts, taken: Amounts)
    requires t.contributions == s.contributions && t.pools == s.pools[p := PoolOf(t.pools, p)]
    requires PoolOf(t.pools, p).fst + taken.fst == PoolOf(s.pools, p).fst + given.fst
    requires PoolOf(t.pools, p).snd + taken.snd == PoolOf(s.pools, p).snd + given.snd
    requires forall c :: Free(t.ledger, c, MODULE_ACCOUNT) + Part(p, taken, c)
                         == Free(s.ledger, c, MODULE_ACCOUNT) + Part(p, given, c)
    ensures SlackKept(s, t)
  {
    forall c ensures Slack(t, c) == Slack(s, c) {
      ReservesUpdate(s.pools, p, PoolOf(t.pools, p), c);
    }
  }

  /** What an accepted `AddLiquidity` does: the stated increments move from the provider into the
      pool and the stated shares are issued. */
  lemma AddLiquidityEffect(s: State, who: AccountId, a: CurrencyId, b: CurrencyId,
                           maxA: Balance, maxB: Balance, minShares: Balance)
    requires Inv(s) && who != MODULE_ACCOUNT
    requires AddLiquidity(s, who, a, b, maxA, maxB, minShares).Ok?
    ensures var p, t := NewPair(a, b), AddLiquidity(s, who, a, b, maxA, maxB, minShares).value;
            && ShareCurrency(p).Some? && StatusOf(s, p) == Enabled && Consistent(t.ledger)
            && t.statuses == s.statuses && t.contributions == s.contributions
            && t.pools == s.pools[p := PoolOf(t.pools, p)]
            && (var lp := ShareCurrency(p).value;
                var inc := LiquidityIncrement(PoolOf(s.pools, p), Issuance(s.ledger, lp), InPairOrder(p, a, maxA, maxB));
                && inc.shares > 0
                && Issuance(t.ledger, lp) == Issuance(s.ledger, lp) + inc.shares
                && PoolOf(t.pools, p).fst == PoolOf(s.pools, p).fst + inc.amounts.fst
                && PoolOf(t.pools, p).snd == PoolOf(s.pools, p).snd + inc.amounts.snd
                && (forall c :: c != lp ==> Issuance(t.ledger, c) == Issuance(s.ledger, c))
                && (forall c :: Free(t.ledger, c, MODULE_ACCOUNT)
                                == Free(s.ledger, c, MODULE_ACCOUNT) + Part(p, inc.amounts, c)))
  {
    var p, t := NewPair(a, b), AddLiquidity(s, who, a, b, maxA, maxB, minShares).value;
    var lp, pool := ShareCurrency(p).value, PoolOf(s.pools, p);
    var inc := LiquidityIncrement(pool, Issuance(s.ledger, lp), InPairOrder(p, a, maxA, maxB));
    TransferBothEffect(s.ledger, p, who, MODULE_ACCOUNT, inc.amounts);
    var paid := TransferBoth(s.ledger, p, who, MODULE_ACCOUNT, inc.amounts).value;
    DepositEffect(paid, lp, who, inc.shares);
    ReserveFits(s, p, inc.amounts, paid);
  }

  lemma AddLiquidityKeepsCustody(s: State, who: AccountId, a: CurrencyId, b: CurrencyId,
                                 maxA: Balance, maxB: Balance, minShares: Balance)
    requires Inv(s) && who != MODULE_ACCOUNT
    requires AddLiquidity(s, who, a, b, maxA, maxB, minShares).Ok?
    ensures var t := AddLiquidity(s, who, a, b, maxA, maxB, minShares).value; Inv(t) && SlackKept(s, t)
  {
    var p, t := NewPair(a, b), AddLiquidity(s, who, a, b, maxA, maxB, minShares).value;
    AddLiquidityEffect(s, who, a, b, maxA, maxB, minShares);
    var inc := LiquidityIncrement(PoolOf(s.pools, p), Issuance(s.ledger, ShareCurrency(p).value), InPairOrder(p, a, maxA, maxB));
    PoolMoveKeepsSlack(s, t, p, inc.amounts, Amounts(0, 0));
    assert PairOk(s, p);
    OtherPairsOk(s, t, p);
  }

  lemma RemoveLiquidityEffect(s: State, who: AccountId, a: CurrencyId, b: CurrencyId, shares: Balance,
                              minA: Balance, minB: Balance)
    requires Inv(s) && who != MODULE_ACCOUNT && shares > 0
    requires RemoveLiquidity(s, who, a, b, shares, minA, minB).Ok?
    ensures var p, t := NewPair(a, b), RemoveLiquidity(s, who, a, b, shares, minA, minB).value;
            && ShareCurrency(p).Some? && Consistent(t.ledger)
            && t.statuses == s.statuses && t.contributions == s.contributions
            && t.pools == s.pools[p := PoolOf(t.pools, p)]
            && (var lp := ShareCurrency(p).value;
                var out := Redeemed(PoolOf(s.pools, p), Issuance(s.ledger, lp), shares);
                && shares <= Issuance(s.ledger, lp)
                && Issuance(t.ledger, lp) == Issuance(s.ledger, lp) - shares
                && PoolOf(t.pools, p).fst == PoolOf(s.pools, p).fst - out.fst
                && PoolOf(t.pools, p).snd == PoolOf(s.pools, p).snd - out.snd
                && (forall c :: c != lp ==> Issuance(t.ledger, c) == Issuance(s.ledger, c))
                && (forall c :: Free(t.ledger, c, MODULE_ACCOUNT) + Part(p, out, c)
                                == Free(s.ledger, c, MODULE_ACCOUNT)))
  {
    PairIsSymmetric(a, b);
    var p, t := NewPair(a, b), RemoveLiquidity(s, who, a, b, shares, minA, minB).value;
    var lp, pool := ShareCurrency(p).value, PoolOf(s.pools, p);
    var out := Redeemed(pool, Issuance(s.ledger, lp), shares);
    WithdrawEffect(s.ledger, lp, who, shares);
    var burned := Withdraw(s.ledger, lp, who, shares).value;
    TransferBothEffect(burned, p, MODULE_ACCOUNT, who, out);
    RedeemedBound(pool, Issuance(s.ledger, lp), shares);
  }

  lemma RemoveLiquidityKeepsCustody(s: State, who: AccountId, a: CurrencyId, b: CurrencyId, shares: Balance,
                                    minA: Balance, minB: Balance)
    requires Inv(s) && who != MODULE_ACCOUNT && shares > 0
    requires RemoveLiquidity(s, who, a, b, shares, minA, minB).Ok?
    ensures var t := RemoveLiquidity(s, who, a, b, shares, minA, minB).value; Inv(t) && SlackKept(s, t)
  {
    var p, t := NewPair(a, b), RemoveLiquidity(s, who, a, b, shares, minA, minB).value;
    RemoveLiquidityEffect(s, who, a, b, shares, minA, minB);
    var out := Redeemed(PoolOf(s.pools, p), Issuance(s.ledger, ShareCurrency(p).value), shares);
    PoolMoveKeepsSlack(s, t, p, Amounts(0, 0), out);
    assert PairOk(s, p);
    OtherPairsOk(s, t, p);
  }

  // ----- provisioning -----

  lemma ContributionAdds(all: map<AccountId, Amounts>, who: AccountId, given: Amounts)
    requires SumFst(all) + given.fst <= U128_MAX && SumSnd(all) + given.snd <= U128_MAX
    ensures var so := if who in all then all[who] else Amounts(0, 0);
            && SumFst(all[who := Plus(so, given)]) == SumFst(all) + given.fst
            && SumSnd(all[who := Plus(so, given)]) == SumSnd(all) + given.snd
  {
    var so := if who in all then all[who] else Amounts(0, 0);
    if who in all { SumsSplit(all, who); }
    SumsUpdate(all, who, Plus(so, given));
  }

  /** What an accepted `AddProvision` does: neither running total saturates. */
  lemma AddProvisionEffect(s: State, who: AccountId, a: CurrencyId, b: CurrencyId, amountA: Balance, amountB: Balance)
    requires Inv(s) && who != MODULE_ACCOUNT
    requires AddProvision(s, who, a, b, amountA, amountB).Ok?
    ensures var p, given, t := NewPair(a, b), InPairOrder(NewPair(a, b), a, amountA, amountB),
                               AddProvision(s, who, a, b, amountA, amountB).value;
            && Consistent(t.ledger) && t.pools == s.pools
            && (forall c :: Issuance(t.ledger, c) == Issuance(s.ledger, c))
            && (forall c :: Free(t.ledger, c, MODULE_ACCOUNT) == Free(s.ledger, c, MODULE_ACCOUNT) + Part(p, given, c))
            && t.contributions == s.contributions[p := ContributionsTo(t, p)]
            && ContributionsTo(t, p).Keys == ContributionsTo(s, p).Keys + {who}
            && SumFst(ContributionsTo(t, p)) == SumFst(ContributionsTo(s, p)) + given.fst
            && SumSnd(ContributionsTo(t, p)) == SumSnd(ContributionsTo(s, p)) + given.snd
            && PairOk(t, p)
  {
    var p, t := NewPair(a, b), AddProvision(s, who, a, b, amountA, amountB).value;
    var given := InPairOrder(p, a, amountA, amountB);
    TransferBothEffect(s.ledger, p, who, MODULE_ACCOUNT, given);
    PledgesFit(s, p, given, t.ledger);
    ContributionAdds(ContributionsTo(s, p), who, given);
    assert PairOk(s, p);
  }

  lemma AddProvisionKeepsCustody(s: State, who: AccountId, a: CurrencyId, b: CurrencyId, amountA: Balance,
                                 amountB: Balance)
    requires Inv(s) && who != MODULE_ACCOUNT
    requires AddProvision(s, who, a, b, amountA, amountB).Ok?
    ensures var t := AddProvision(s, who, a, b, amountA, amountB).value;
            Inv(t) && SlackKept(s, t) && t.pools == s.pools && forall c :: Issuance(t.ledger, c) == Issuance(s.ledger, c)
  {
    var p, t := NewPair(a, b), AddProvision(s, who, a, b, amountA, amountB).value;
    AddProvisionEffect(s, who, a, b, amountA, amountB);
    PledgeKeepsSlack(s, t, p, InPairOrder(p, a, amountA, amountB));
    assert PairOk(s, p);
    OtherPairsOk(s, t, p);
  }

  lemma PledgeKeepsSlack(s: State, t: State, p: TradingPair, given: Amounts)
    requires t.pools == s.pools && t.contributions == s.contributions[p := ContributionsTo(t, p)]
    requires forall c :: Free(t.ledger, c, MODULE_ACCOUNT) == Free(s.ledger, c, MODULE_ACCOUNT) + Part(p, given, c)
    requires SumFst(ContributionsTo(t, p)) == SumFst(ContributionsTo(s, p)) + given.fst
    requires SumSnd(ContributionsTo(t, p)) == SumSnd(ContributionsTo(s, p)) + given.snd
    ensures SlackKept(s, t)
  {
    forall c ensures Slack(t, c) == Slack(s, c) {
      PledgedUpdate(s.contributions, p, ContributionsTo(t, p), c);
    }
  }

  lemma PledgesFit(s: State, p: TradingPair, m: Amounts, l: Ledger)
    requires Inv(s)
    requires forall c :: Free(l, c, MODULE_ACCOUNT) == Free(s.ledger, c, MODULE_ACCOUNT) + Part(p, m, c)
    ensures SumFst(ContributionsTo(s, p)) + m.fst <= U128_MAX && SumSnd(ContributionsTo(s, p)) + m.snd <= U128_MAX
  {
    PledgedAtLeast(s.contributions, p, p.first);
    PledgedAtLeast(s.contributions, p, p.second);
    assert Slack(s, p.first) >= 0 && Slack(s, p.second) >= 0;
    assert Free(l, p.first, MODULE_ACCOUNT) <= U128_MAX && Free(l, p.second, MODULE_ACCOUNT) <= U128_MAX;
  }

  /** The injected provision fits beside the reserves, because the module account holds both. */
  lemma ProvisionFits(s: State, p: TradingPair)
    requires Inv(s) && StatusOf(s, p).Provisioning?
    ensures var pool, add := PoolOf(s.pools, p), StatusOf(s, p).parameters.accumulated;
            pool.fst + add.fst <= U128_MAX && pool.snd + add.snd <= U128_MAX
  {
    assert PairOk(s, p);
    assert Slack(s, p.first) >= 0 && Slack(s, p.second) >= 0;
    PledgedAtLeast(s.contributions, p, p.first);
    PledgedAtLeast(s.contributions, p, p.second);
    ReservesAtLeast(s.pools, p, p.first);
    ReservesAtLeast(s.pools, p, p.second);
  }

  /** Enabling a pair moves its whole provision into its reserves. */
  lemma ConvertKeepsCustody(s: State, p: TradingPair, now: nat, order: seq<AccountId>)
    requires Inv(s) && IsOrderOf(order, ContributionsTo(s, p))
    ensures var t := ConvertToEnabled(s, p, now, order);
            && Inv(t) && SlackKept(s, t)
            && (forall q :: q != p ==> PoolOf(t.pools, q) == PoolOf(s.pools, q))
            && (forall c :: ShareCurrency(p) != Some(c) ==> Issuance(t.ledger, c) == Issuance(s.ledger, c))
            && (t != s ==> ShareCurrency(p).Some? && Issuance(s.ledger, ShareCurrency(p).value) == 0)
  {
    hide Sum, SumFst, SumSnd, Product, IssueInitial;
    var t := ConvertToEnabled(s, p, now, order);
    assert PairOk(s, p);
    if t != s {
      var par := StatusOf(s, p).parameters;
      IssueInitialFrame(s.ledger, ShareCurrency(p).value, par.accumulated, ContributionsTo(s, p), order);
      ProvisionFits(s, p);
      forall c ensures Slack(t, c) == Slack(s, c) {
        ReservesUpdate(s.pools, p, PoolOf(t.pools, p), c);
        PledgedRemove(s.contributions, p, c);
      }
      OtherPairsOk(s, t, p);
    }
  }

  /** Enabling issues at most twice the larger accumulated side. When that many shares can exist at
      all, every contributor gets exactly the shares of its contribution and nobody else any, and the
      total falls short of twice the larger side by less than one unit per contributor plus the
      rounding of the price, provided the price is a 128-bit number. */
  lemma EnablingIssues(s: State, p: TradingPair, now: nat, order: seq<AccountId>)
    requires Inv(s) && IsOrderOf(order, ContributionsTo(s, p))
    requires StatusOf(s, p).Provisioning? && ReadyToEnable(StatusOf(s, p).parameters, now)
    ensures ShareCurrency(p).Some? && Within(order, ContributionsTo(s, p))
    ensures var t, lp := ConvertToEnabled(s, p, now, order), ShareCurrency(p).value;
            var acc, all := StatusOf(s, p).parameters.accumulated, ContributionsTo(s, p);
            var issued := Issuance(t.ledger, lp);
            && StatusOf(t, p) == Enabled
            && issued <= 2 * Larger(acc)
            && (2 * Larger(acc) <= U128_MAX ==>
                  && issued == TotalShares(acc, all)
                  && (forall a :: Free(t.ledger, lp, a) == if a in all then InitialShares(acc, all[a]) else 0)
                  && (CheckedFromRational(Larger(acc), Smaller(acc)).Some? ==>
                        ONE * issued + |all| * (ONE - 1) + Smaller(acc) > ONE * (2 * Larger(acc))))
  {
    hide Sum, Slack, SumFst, SumSnd;
    assert PairOk(s, p);
    var acc, all, lp := StatusOf(s, p).parameters.accumulated, ContributionsTo(s, p), ShareCurrency(p).value;
    forall i | 0 <= i < |order| ensures order[i] in all { assert order[i] in order; }
    if 2 * Larger(acc) <= U128_MAX {
      TotalSharesBound(acc, all);
      IssueInitialEffect(s.ledger, lp, acc, all, order, all);
      forall a ensures Free(s.ledger, lp, a) == 0 { FreeAtMostIssuance(s.ledger, lp, a); }
    }
  }

  lemma AsWrittenEffect(s: State, p: TradingPair, now: nat, order: seq<AccountId>)
    requires Inv(s) && IsOrderOf(order, ContributionsTo(s, p))
    requires StatusOf(s, p).Provisioning? && ReadyToEnable(StatusOf(s, p).parameters, now)
    ensures var t, pool, add := ConvertAsWritten(s, p, now, order), PoolOf(s.pools, p), StatusOf(s, p).parameters.accumulated;
            && pool.fst + add.fst <= U128_MAX
            && t.pools == s.pools[p := Amounts(pool.fst + add.fst, SatSub(pool.snd, add.snd))]
            && t.contributions == s.contributions - {p}
            && forall c :: Free(t.ledger, c, MODULE_ACCOUNT) == Free(s.ledger, c, MODULE_ACCOUNT)
  {
    hide Sum, SumFst, SumSnd, IssueInitial;
    var par := StatusOf(s, p).parameters;
    assert PairOk(s, p);
    ProvisionFits(s, p);
    IssueInitialFrame(s.ledger, ShareCurrency(p).value, par.accumulated, ContributionsTo(s, p), order);
  }

  /** With the subtraction of the program text the second provision stays with the module account,
      outside every pool, and as much again of what the pool held before is struck off its reserve;
      every other currency is accounted for. */
  lemma SubtractingLosesTheProvision(s: State, p: TradingPair, now: nat, order: seq<AccountId>)
    requires Inv(s) && IsOrderOf(order, ContributionsTo(s, p))
    requires StatusOf(s, p).Provisioning? && ReadyToEnable(StatusOf(s, p).parameters, now)
    ensures var t, pool, add := ConvertAsWritten(s, p, now, order), PoolOf(s.pools, p), StatusOf(s, p).parameters.accumulated;
            && add.snd > 0
            && PoolOf(t.pools, p) == Amounts(SatAdd(pool.fst, add.fst), SatSub(pool.snd, add.snd))
            && forall c :: Slack(t, c) == Slack(s, c) + Carried(p.second, add.snd + Min(pool.snd, add.snd), c)
  {
    hide ConvertAsWritten, Inv, PairOk, Reserves, Pledged, PledgedTo, SumFst, SumSnd, Free, Product, Part,
         Carried, StatusOf, Consistent, ConvertToEnabled;
    AsWrittenEffect(s, p, now, order);
    ProvisionPledged(s, p);
    var t, pool, add := ConvertAsWritten(s, p, now, order), PoolOf(s.pools, p), StatusOf(s, p).parameters.accumulated;
    forall c ensures Slack(t, c) == Slack(s, c) + Carried(p.second, add.snd + Min(pool.snd, add.snd), c) {
      ReservesUpdate(s.pools, p, PoolOf(t.pools, p), c);
      PledgedRemove(s.contributions, p, c);
      StruckOff(p, pool, add, c);
    }
  }

  lemma ProvisionPledged(s: State, p: TradingPair)
    requires Inv(s) && StatusOf(s, p).Provisioning?
    ensures forall c :: PledgedTo(p, ContributionsTo(s, p), c) == Part(p, StatusOf(s, p).parameters.accumulated, c)
  {
    hide SumFst, SumSnd, Consistent, Slack;
    assert PairOk(s, p);
  }

  lemma StruckOff(p: TradingPair, pool: Amounts, add: Amounts, c: CurrencyId)
    requires pool.fst + add.fst <= U128_MAX
    ensures Part(p, Amounts(pool.fst + add.fst, SatSub(pool.snd, add.snd)), c) + Carried(p.second, add.snd + Min(pool.snd, add.snd), c)
            == Part(p, pool, c) + Part(p, add, c)
  {}

  /** Disabling a provisioning pair always succeeds, pays every contributor exactly its recorded
      contribution and forgets the contributions. */
  lemma DisableRefundsExactly(s: State, a: CurrencyId, b: CurrencyId, order: seq<AccountId>)
    requires Inv(s) && FromTokens(a, b).Some? && StatusOf(s, NewPair(a, b)).Provisioning?
    requires IsOrderOf(order, ContributionsTo(s, NewPair(a, b)))
    ensures FromTokens(a, b).value == NewPair(a, b)
    ensures DisableTradingPair(s, a, b, order).Ok?
    ensures var p, t := NewPair(a, b), DisableTradingPair(s, a, b, order).value;
            && Inv(t) && SlackKept(s, t) && t.pools == s.pools
            && (forall c :: Issuance(t.ledger, c) == Issuance(s.ledger, c))
            && ContributionsTo(t, p) == map[] && StatusOf(t, p) == NotEnabled
            && forall c, who :: who != MODULE_ACCOUNT ==>
                 Free(t.ledger, c, who) == Free(s.ledger, c, who)
                   + (if who in ContributionsTo(s, p) then Part(p, ContributionsTo(s, p)[who], c) else 0)
  {
    PairIsSymmetric(a, b);
    var p := NewPair(a, b);
    var all := ContributionsTo(s, p);
    assert PairOk(s, p);
    forall c ensures Free(s.ledger, c, MODULE_ACCOUNT) >= PledgedTo(p, all, c) {
      assert Slack(s, c) >= 0;
      PledgedAtLeast(s.contributions, p, c);
    }
    RefundSucceeds(s.ledger, p, all, order, all);
    var t := DisableTradingPair(s, a, b, order).value;
    forall c, who
      ensures Free(t.ledger, c, who)
              == if who == MODULE_ACCOUNT then Free(s.ledger, c, who) - PledgedTo(p, all, c)
                 else if who in all then Free(s.ledger, c, who) + Part(p, all[who], c)
                 else Free(s.ledger, c, who)
    {
      RefundPaysExactly(s.ledger, p, all, order, all, c, who);
    }
    forall c ensures Slack(t, c) == Slack(s, c) {
      PledgedRemove(s.contributions, p, c);
    }
    OtherPairsOk(s, t, p);
  }

  /** Listing, enabling and disabling without a provision move nothing. */
  lemma StatusOnlyKeepsCustody(s: State, t: State, p: TradingPair)
    requires Inv(s) && PairOk(t, p) && ShareCurrency(p).Some?
    requires t == s.(statuses := t.statuses) && forall q :: q != p ==> StatusOf(t, q) == StatusOf(s, q)
    ensures Inv(t) && SlackKept(s, t)
  {
    assert forall c :: Slack(t, c) == Slack(s, c);
    OtherPairsOk(s, t, p);
  }
}
