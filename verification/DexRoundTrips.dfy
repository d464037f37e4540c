/** In and out of the exchange again: shares can always be redeemed, and joining a pool only to
    leave it at once never pays. */
module DexRoundTrips {
  import opened Numbers
  import opened Wrappers
  import opened Currencies
  import opened Ledgers
  import opened Dex
  import opened DexPaths
  import opened DexProvision
  import opened DexShares
  import opened DexMaxima
  import opened DexCustody
  import opened DexParties

  /** Whoever holds shares of a pair can redeem them, in any reachable state. */
  lemma HoldersCanLeave(s: State, who: AccountId, a: CurrencyId, b: CurrencyId, shares: Balance)
    requires Inv(s) && who != MODULE_ACCOUNT && FromTokens(a, b).Some? && ShareCurrency(FromTokens(a, b).value).Some?
    requires shares <= Free(s.ledger, ShareCurrency(FromTokens(a, b).value).value, who)
    ensures RemoveLiquidity(s, who, a, b, shares, 0, 0).Ok?
  {
    hide Redeemed, Withdraw, Inv, Consistent, TransferBoth, Part;
    if shares > 0 {
      var p := FromTokens(a, b).value;
      var lp, pool := ShareCurrency(p).value, PoolOf(s.pools, p);
      InvIsConsistent(s);
      FreeAtMostIssuance(s.ledger, lp, who);
      var out := Redeemed(pool, Issuance(s.ledger, lp), shares);
      RedeemedBound(pool, Issuance(s.ledger, lp), shares);
      WithdrawSucceeds(s.ledger, lp, who, shares);
      WithdrawEffect(s.ledger, lp, who, shares);
      var burned := Withdraw(s.ledger, lp, who, shares).value;
      forall c ensures Free(burned, c, MODULE_ACCOUNT) >= Part(p, out, c) { CustodyCovers(s, p, out, c); }
      TransferBothSucceeds(burned, p, MODULE_ACCOUNT, who, out);
    }
  }

  lemma WithdrawSucceeds(l: Ledger, c: CurrencyId, who: AccountId, amount: Balance)
    requires Free(l, c, who) >= amount
    ensures Withdraw(l, c, who, amount).Some?
  {}

  lemma CustodyCovers(s: State, p: TradingPair, out: Amounts, c: CurrencyId)
    requires Inv(s) && out.fst <= PoolOf(s.pools, p).fst && out.snd <= PoolOf(s.pools, p).snd
    ensures Free(s.ledger, c, MODULE_ACCOUNT) >= Part(p, out, c)
  {
    hide Consistent, PairOk, Reserves, Pledged;
    assert Slack(s, c) >= 0;
    ReservesAtLeast(s.pools, p, c);
  }

  /** Both currencies of the pair as `who` holds them. */
  ghost predicate GainsNothing(l: Ledger, m: Ledger, who: AccountId) {
    forall c :: Free(m, c, who) <= Free(l, c, who)
  }

  lemma JoinedPair(s: State, who: AccountId, a: CurrencyId, b: CurrencyId, maxA: Balance, maxB: Balance, min: Balance)
    requires Inv(s) && AddLiquidity(s, who, a, b, maxA, maxB, min).Ok?
    ensures FromTokens(a, b) == Some(NewPair(a, b)) && ShareCurrency(NewPair(a, b)).Some?
  {
    PairIsSymmetric(a, b);
    assert PairOk(s, NewPair(a, b));
    hide Slack;
  }

  /** Joining and redeeming the same shares at once is always possible, and the account gains
      nothing by it exactly when the pair had shares before or its pool was empty; the pool is left
      with at least what it had in that case. */
  lemma JoinThenLeave(s: State, who: AccountId, a: CurrencyId, b: CurrencyId, maxA: Balance, maxB: Balance,
                      min: Balance)
    requires Inv(s) && who != MODULE_ACCOUNT && AddLiquidity(s, who, a, b, maxA, maxB, min).Ok?
    ensures FromTokens(a, b) == Some(NewPair(a, b)) && ShareCurrency(NewPair(a, b)).Some?
    ensures var t, p, inc := AddLiquidity(s, who, a, b, maxA, maxB, min).value, NewPair(a, b), Added(s, a, b, maxA, maxB);
            var r := RemoveLiquidity(t, who, a, b, inc.shares, 0, 0);
            var pool := PoolOf(s.pools, p);
            && r.Ok?
            && (GainsNothing(s.ledger, r.value.ledger, who)
                <==> Issuance(s.ledger, ShareCurrency(p).value) > 0 || pool == NONE)
            && (GainsNothing(s.ledger, r.value.ledger, who) ==>
                  PoolOf(r.value.pools, p).fst >= pool.fst && PoolOf(r.value.pools, p).snd >= pool.snd)
  {
    hide AddLiquidity, RemoveLiquidity, Inv, Redeemed, GainsNothing;
    JoinedPair(s, who, a, b, maxA, maxB, min);
    JoinMovesPool(s, who, a, b, maxA, maxB, min);
    var t, p, inc := AddLiquidity(s, who, a, b, maxA, maxB, min).value, NewPair(a, b), Added(s, a, b, maxA, maxB);
    var lp, pool, mid := ShareCurrency(p).value, PoolOf(s.pools, p), PoolOf(t.pools, p);
    var out := Redeemed(mid, Issuance(t.ledger, lp), inc.shares);
    LeaveAfterJoin(s, who, a, b, maxA, maxB, min);
    Compare(pool, Issuance(s.ledger, lp), Offered(a, b, maxA, maxB), inc, mid, Issuance(t.ledger, lp));
    var u := RemoveLiquidity(t, who, a, b, inc.shares, 0, 0).value;
    if Issuance(s.ledger, lp) > 0 || pool == NONE {
      NoGain(s.ledger, u.ledger, who, p, inc.amounts, out);
    } else {
      SomeGain(s.ledger, u.ledger, who, p, inc.amounts, pool, out);
    }
  }

  /** Joining adds exactly the increment to the pool and to the shares. */
  lemma JoinMovesPool(s: State, who: AccountId, a: CurrencyId, b: CurrencyId, maxA: Balance, maxB: Balance,
                      min: Balance)
    requires Inv(s) && who != MODULE_ACCOUNT && AddLiquidity(s, who, a, b, maxA, maxB, min).Ok?
    requires ShareCurrency(NewPair(a, b)).Some?
    ensures var t, p, inc := AddLiquidity(s, who, a, b, maxA, maxB, min).value, NewPair(a, b), Added(s, a, b, maxA, maxB);
            var lp := ShareCurrency(p).value;
            && Inv(t) && inc.shares > 0
            && Issuance(t.ledger, lp) == Issuance(s.ledger, lp) + inc.shares
            && PoolOf(t.pools, p).fst == PoolOf(s.pools, p).fst + inc.amounts.fst
            && PoolOf(t.pools, p).snd == PoolOf(s.pools, p).snd + inc.amounts.snd
            && Traded(s.ledger, t.ledger, who, p, inc.amounts, 0, NONE, inc.shares)
  {
    hide AddLiquidity, Inv, LiquidityIncrement, SlackKept, Traded;
    AddLiquidityEffect(s, who, a, b, maxA, maxB, min);
    AddLiquidityKeepsCustody(s, who, a, b, maxA, maxB, min);
    ProviderPays(s, who, a, b, maxA, maxB, min);
  }

  lemma LeaveAfterJoin(s: State, who: AccountId, a: CurrencyId, b: CurrencyId, maxA: Balance, maxB: Balance,
                       min: Balance)
    requires Inv(s) && who != MODULE_ACCOUNT && AddLiquidity(s, who, a, b, maxA, maxB, min).Ok?
    requires FromTokens(a, b) == Some(NewPair(a, b)) && ShareCurrency(NewPair(a, b)).Some?
    ensures var t, p, inc := AddLiquidity(s, who, a, b, maxA, maxB, min).value, NewPair(a, b), Added(s, a, b, maxA, maxB);
            var r := RemoveLiquidity(t, who, a, b, inc.shares, 0, 0);
            var out := Redeemed(PoolOf(t.pools, p), Issuance(t.ledger, ShareCurrency(p).value), inc.shares);
            && r.Ok?
            && PoolOf(r.value.pools, p).fst == PoolOf(t.pools, p).fst - out.fst
            && PoolOf(r.value.pools, p).snd == PoolOf(t.pools, p).snd - out.snd
            && forall c :: Free(r.value.ledger, c, who) + Part(p, inc.amounts, c) == Free(s.ledger, c, who) + Part(p, out, c)
  {
    hide AddLiquidity, RemoveLiquidity, Inv, Redeemed, Traded, Added, Free, Part;
    JoinMovesPool(s, who, a, b, maxA, maxB, min);
    var t, p, inc := AddLiquidity(s, who, a, b, maxA, maxB, min).value, NewPair(a, b), Added(s, a, b, maxA, maxB);
    SharesArrive(s.ledger, t.ledger, who, p, ShareCurrency(p).value, inc);
    HoldersCanLeave(t, who, a, b, inc.shares);
    InvIsConsistent(t);
    ProviderIsPaid(t, who, a, b, inc.shares, 0, 0);
    RemoveLiquidityEffect(t, who, a, b, inc.shares, 0, 0);
    var u := RemoveLiquidity(t, who, a, b, inc.shares, 0, 0).value;
    NetTrade(s.ledger, t.ledger, u.ledger, who, p, inc, Redeemed(PoolOf(t.pools, p), Issuance(t.ledger, ShareCurrency(p).value), inc.shares));
  }

  /** What is redeemed against what was added. */
  lemma Compare(pool: Amounts, total: Balance, max: Amounts, inc: Increment, mid: Amounts, newTotal: Balance)
    requires inc == LiquidityIncrement(pool, total, max) && inc.shares > 0 && newTotal == total + inc.shares
    requires mid.fst == pool.fst + inc.amounts.fst && mid.snd == pool.snd + inc.amounts.snd
    ensures var out := Redeemed(mid, newTotal, inc.shares);
            if total > 0 then out.fst <= inc.amounts.fst && out.snd <= inc.amounts.snd else out == mid
  {
    if total > 0 {
      AddThenRemoveGainsNothing(pool, total, max, mid, newTotal);
    } else {
      AllSharesRedeemEverything(mid, inc.shares);
    }
  }

  lemma InvIsConsistent(s: State)
    requires Inv(s)
    ensures Consistent(s.ledger)
  {
    hide Consistent, Slack;
  }

  lemma SharesArrive(l: Ledger, m: Ledger, who: AccountId, p: TradingPair, lp: CurrencyId, inc: Increment)
    requires who != MODULE_ACCOUNT && ShareCurrency(p) == Some(lp) && Traded(l, m, who, p, inc.amounts, 0, NONE, inc.shares)
    ensures Free(m, lp, who) >= inc.shares
  {
    assert Part(p, inc.amounts, lp) == 0 && Shares(p, inc.shares, lp) == inc.shares;
    assert Free(m, lp, who) + (Part(p, inc.amounts, lp) + Shares(p, 0, lp)) == Free(l, lp, who) + (Part(p, NONE, lp) + Shares(p, inc.shares, lp));
  }

  /** What remains of the two trades when the shares cancel. */
  lemma NetTrade(l: Ledger, m: Ledger, n: Ledger, who: AccountId, p: TradingPair, inc: Increment, out: Amounts)
    requires who != MODULE_ACCOUNT
    requires Traded(l, m, who, p, inc.amounts, 0, NONE, inc.shares) && Traded(m, n, who, p, NONE, inc.shares, out, 0)
    ensures forall c :: Free(n, c, who) + Part(p, inc.amounts, c) == Free(l, c, who) + Part(p, out, c)
  {
    hide Free;
    forall c ensures Free(n, c, who) + Part(p, inc.amounts, c) == Free(l, c, who) + Part(p, out, c) {
      assert Free(m, c, who) + (Part(p, inc.amounts, c) + Shares(p, 0, c)) == Free(l, c, who) + (Part(p, NONE, c) + Shares(p, inc.shares, c));
      assert Free(n, c, who) + (Part(p, NONE, c) + Shares(p, inc.shares, c)) == Free(m, c, who) + (Part(p, out, c) + Shares(p, 0, c));
    }
  }

  lemma NoGain(l: Ledger, n: Ledger, who: AccountId, p: TradingPair, given: Amounts, out: Amounts)
    requires forall c :: Free(n, c, who) + Part(p, given, c) == Free(l, c, who) + Part(p, out, c)
    requires out.fst <= given.fst && out.snd <= given.snd
    ensures GainsNothing(l, n, who)
  {
    hide Free;
  }

  lemma SomeGain(l: Ledger, n: Ledger, who: AccountId, p: TradingPair, given: Amounts, pool: Amounts, out: Amounts)
    requires forall c :: Free(n, c, who) + Part(p, given, c) == Free(l, c, who) + Part(p, out, c)
    requires out.fst == pool.fst + given.fst && out.snd == pool.snd + given.snd && pool != NONE
    ensures !GainsNothing(l, n, who)
  {
    hide Free;
    var c := if pool.fst > 0 then p.first else p.second;
    assert Part(p, out, c) > Part(p, given, c);
    assert Free(n, c, who) > Free(l, c, who);
  }
}
