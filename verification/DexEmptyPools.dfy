/** A pair without shares has an empty pool in every state that the exchange can reach, so what is said
    elsewhere about first providers and about enabling a pair holds there without conditions. */
module DexEmptyPools {
  import opened Numbers
  import opened Wrappers
  import opened FixedPoint
  import opened Currencies
  import opened Ledgers
  import opened MapSums
  import opened Dex
  import opened DexPaths
  import opened DexAccounts
  import opened DexProducts
  import opened DexProvision
  import opened DexShares
  import opened DexMaxima
  import opened DexCustody
  import opened DexParties
  import opened DexRoundTrips
  import opened DexRuns

  ghost predicate OwnedOrEmpty(s: State, p: TradingPair) {
    ShareCurrency(p).Some? && Outstanding(s, p) == 0 ==> PoolOf(s.pools, p) == NONE
  }

  ghost predicate AllOwned(s: State) { forall p :: OwnedOrEmpty(s, p) }

  // ----- swaps -----

  /** A covered quote does not go through an empty pool. */
  lemma CoveredAvoidsEmpty(pools: map<TradingPair, Amounts>, path: seq<CurrencyId>, v: seq<Balance>, p: TradingPair)
    requires CoveredHops(pools, path, v) && PoolOf(pools, p) == NONE
    ensures !OnPath(path, p)
  {
    forall i: nat | i + 1 < |path| ensures Hop(path, i) != p {
      var l := GetLiquidity(pools, path[i], path[i + 1]);
      assert l.fst > 0;
    }
  }

  lemma SwapKeepsOwned(s: State, x: Action)
    requires (x.SwapSupply? || x.SwapTarget?) && Inv(s) && Legal(s, x) && AllOwned(s)
    ensures AllOwned(Step(s, x))
  {
    var t := Step(s, x);
    if t != s {
      AcceptedSwap(s, x);
      hide Inv, Legal, Step, QuoteOf, CoveredHops, NeverOverdrawn, Roomy, Outstanding;
      var v := QuoteOf(s, x).value;
      forall p ensures OwnedOrEmpty(t, p) {
        assert OwnedOrEmpty(s, p);
        if ShareCurrency(p).Some? && Outstanding(s, p) == 0 {
          CoveredAvoidsEmpty(s.pools, x.path, v, p);
          OffPathNothingFlows(x.path, v, p);
          PathMovesPool(s.pools, x.path, v, p);
        }
      }
    }
  }

  // ----- liquidity -----

  lemma JoinKeepsOwned(s: State, who: AccountId, a: CurrencyId, b: CurrencyId, maxA: Balance, maxB: Balance,
                       min: Balance)
    requires Inv(s) && who != MODULE_ACCOUNT && AddLiquidity(s, who, a, b, maxA, maxB, min).Ok? && AllOwned(s)
    ensures AllOwned(AddLiquidity(s, who, a, b, maxA, maxB, min).value)
  {
    AddLiquidityEffect(s, who, a, b, maxA, maxB, min);
    hide Inv, AddLiquidity, LiquidityIncrement, Free, Issuance;
    var p, t := NewPair(a, b), AddLiquidity(s, who, a, b, maxA, maxB, min).value;
    OthersStayOwned(s, t, p);
  }

  /** A change of one pair that leaves shares behind. */
  lemma OthersStayOwned(s: State, t: State, p: TradingPair)
    requires AllOwned(s) && OwnedOrEmpty(t, p)
    requires forall q :: q != p ==> PoolOf(t.pools, q) == PoolOf(s.pools, q)
    requires forall c :: ShareCurrency(p) != Some(c) ==> Issuance(t.ledger, c) == Issuance(s.ledger, c)
    ensures AllOwned(t)
  {
    hide Issuance;
    forall q ensures OwnedOrEmpty(t, q) {
      assert OwnedOrEmpty(s, q);
      if q != p && ShareCurrency(q).Some? && ShareCurrency(q) == ShareCurrency(p) { ShareCurrencyIsInjective(q, p); }
    }
  }

  lemma LeaveKeepsOwned(s: State, who: AccountId, a: CurrencyId, b: CurrencyId, shares: Balance, minA: Balance,
                        minB: Balance)
    requires Inv(s) && who != MODULE_ACCOUNT && RemoveLiquidity(s, who, a, b, shares, minA, minB).Ok? && AllOwned(s)
    ensures AllOwned(RemoveLiquidity(s, who, a, b, shares, minA, minB).value)
  {
    if shares > 0 {
      RemoveLiquidityEffect(s, who, a, b, shares, minA, minB);
      hide Inv, RemoveLiquidity, Redeemed, Free, Issuance;
      var p, t := NewPair(a, b), RemoveLiquidity(s, who, a, b, shares, minA, minB).value;
      var total := Issuance(s.ledger, ShareCurrency(p).value);
      if shares == total { AllSharesRedeemEverything(PoolOf(s.pools, p), total); }
      OthersStayOwned(s, t, p);
    }
  }

  // ----- provisions -----

  /** Whoever contributes to the larger side gets shares. */
  lemma LargerSideEarns(acc: Amounts, m: Amounts)
    requires OnLarger(acc, m) > 0
    ensures InitialShares(acc, m) > 0
  {
    hide SaturatingMulInt, RatioOrZero;
  }

  lemma {:induction false} SomebodyEarns(acc: Amounts, all: map<AccountId, Amounts>)
    requires SumLarger(acc, all) > 0
    ensures exists who :: who in all && InitialShares(acc, all[who]) > 0
  {
    if forall who :: who in all ==> OnLarger(acc, all[who]) == 0 {
      NothingOnLarger(acc, all);
    } else {
      var who :| who in all && OnLarger(acc, all[who]) > 0;
      LargerSideEarns(acc, all[who]);
    }
  }

  lemma AllZero<K>(m: map<K, nat>)
    requires forall k :: k in m ==> m[k] == 0
    ensures Sum(m) == 0
    decreases |m|
  {
    if m != map[] {
      var k :| k in m && Sum(m) == m[k] + Sum(m - {k});
      AllZero(m - {k});
    }
  }

  lemma NothingOnLarger(acc: Amounts, all: map<AccountId, Amounts>)
    requires forall who :: who in all ==> OnLarger(acc, all[who]) == 0
    ensures SumLarger(acc, all) == 0
  {
    AllZero(if acc.fst > acc.snd then Fsts(all) else Snds(all));
  }

  /** Issuing never lowers the issuance, and the first contribution that earns shares gets them. */
  lemma {:induction false} SomethingIsIssued(l: Ledger, lp: CurrencyId, acc: Amounts, all: map<AccountId, Amounts>,
                                             order: seq<AccountId>)
    requires Within(order, all) && Consistent(l)
    ensures var m := IssueInitial(l, lp, acc, all, order);
            && Issuance(m, lp) >= Issuance(l, lp)
            && ((exists who :: who in order && InitialShares(acc, all[who]) > 0) ==> Issuance(m, lp) > 0)
    decreases |order|
  {
    hide InitialShares, Consistent;
    if order != [] {
      var shares := InitialShares(acc, all[order[0]]);
      var d := Deposit(l, lp, order[0], shares);
      FreeAtMostIssuance(l, lp, order[0]);
      if d.Some? { DepositEffect(l, lp, order[0], shares); }
      assert shares > 0 ==> Issuance(d.GetOr(l), lp) > 0;
      SomethingIsIssued(d.GetOr(l), lp, acc, all, order[1..]);
      if who :| who in order && InitialShares(acc, all[who]) > 0 {
        assert who == order[0] || who in order[1..];
      }
    }
  }

  /** Enabling issues shares. */
  lemma ConvertKeepsOwned(s: State, p: TradingPair, now: nat, order: seq<AccountId>)
    requires Inv(s) && IsOrderOf(order, ContributionsTo(s, p)) && Within(order, ContributionsTo(s, p)) && AllOwned(s)
    ensures AllOwned(ConvertToEnabled(s, p, now, order))
  {
    var t := ConvertToEnabled(s, p, now, order);
    if t != s {
      ConvertKeepsCustody(s, p, now, order);
      EnablingLeavesShares(s, p, now, order);
      hide Inv, ConvertToEnabled, Issuance;
      OthersStayOwned(s, t, p);
    }
  }

  lemma EnablingLeavesShares(s: State, p: TradingPair, now: nat, order: seq<AccountId>)
    requires Inv(s) && IsOrderOf(order, ContributionsTo(s, p)) && Within(order, ContributionsTo(s, p))
    requires ConvertToEnabled(s, p, now, order) != s
    ensures Outstanding(ConvertToEnabled(s, p, now, order), p) > 0
  {
    hide Sum, Slack, IssueInitial, InitialShares;
    InvIsConsistent(s);
    assert PairOk(s, p);
    var acc, all := StatusOf(s, p).parameters.accumulated, ContributionsTo(s, p);
    SomebodyEarns(acc, all);
    SomethingIsIssued(s.ledger, ShareCurrency(p).value, acc, all, order);
  }

  lemma AddKeepsOwned(s: State, x: Action)
    requires x.Add? && Inv(s) && Legal(s, x) && AllOwned(s)
    ensures AllOwned(Step(s, x))
  {
    hide Inv, AllOwned, AddLiquidity, ConvertToEnabled;
    var q := NewPair(x.a, x.b);
    OrderedKeys(x.order, ContributionsTo(s, q), x.who);
    if AddLiquidity(s, x.who, x.a, x.b, x.maxA, x.maxB, x.minShares).Ok? {
      JoinKeepsOwned(s, x.who, x.a, x.b, x.maxA, x.maxB, x.minShares);
    }
    var r := AddProvision(s, x.who, x.a, x.b, x.maxA, x.maxB);
    if r.Ok? {
      ProvisionKeepsOwned(s, x);
      ProvidedOrder(s, x);
      ConvertKeepsOwned(r.value, q, x.now, x.order);
    }
  }

  lemma ProvisionKeepsOwned(s: State, x: Action)
    requires x.Add? && Inv(s) && Legal(s, x) && AllOwned(s) && AddProvision(s, x.who, x.a, x.b, x.maxA, x.maxB).Ok?
    ensures var t := AddProvision(s, x.who, x.a, x.b, x.maxA, x.maxB).value; Inv(t) && AllOwned(t)
  {
    AddProvisionKeepsCustody(s, x.who, x.a, x.b, x.maxA, x.maxB);
    hide Inv, AddProvision, Issuance;
    var t := AddProvision(s, x.who, x.a, x.b, x.maxA, x.maxB).value;
    SamePoolsStayOwned(s, t);
  }

  lemma ProvidedOrder(s: State, x: Action)
    requires x.Add? && Inv(s) && Legal(s, x) && AddProvision(s, x.who, x.a, x.b, x.maxA, x.maxB).Ok?
    ensures var t, q := AddProvision(s, x.who, x.a, x.b, x.maxA, x.maxB).value, NewPair(x.a, x.b);
            IsOrderOf(x.order, ContributionsTo(t, q)) && Within(x.order, ContributionsTo(t, q))
  {
    AddProvisionEffect(s, x.who, x.a, x.b, x.maxA, x.maxB);
    hide Inv, AddProvision;
    var q, t := NewPair(x.a, x.b), AddProvision(s, x.who, x.a, x.b, x.maxA, x.maxB).value;
    assert forall w :: w in ContributionsTo(t, q) <==> w in ContributionsTo(t, q).Keys;
    OrderedKeys(x.order, ContributionsTo(t, q), MODULE_ACCOUNT);
  }

  lemma SamePoolsStayOwned(s: State, t: State)
    requires AllOwned(s) && t.pools == s.pools
    requires forall c: CurrencyId :: c.LpShare? ==> Issuance(t.ledger, c) == Issuance(s.ledger, c)
    ensures AllOwned(t)
  {
    hide Issuance;
    forall p ensures OwnedOrEmpty(t, p) { assert OwnedOrEmpty(s, p); }
  }

  // ----- whole runs -----

  lemma StepKeepsOwned(s: State, x: Action)
    requires Inv(s) && Legal(s, x) && AllOwned(s)
    ensures AllOwned(Step(s, x))
  {
    hide AllOwned, Inv;
    match x
    case SwapSupply(_, _, _, _, _) => SwapKeepsOwned(s, x);
    case SwapTarget(_, _, _, _, _) => SwapKeepsOwned(s, x);
    case Add(_, _, _, _, _, _, _, _) => AddKeepsOwned(s, x);
    case Remove(who, a, b, shares, minA, minB) =>
      if RemoveLiquidity(s, who, a, b, shares, minA, minB).Ok? { LeaveKeepsOwned(s, who, a, b, shares, minA, minB); }
    case List(_, _, _, _, _, _, _) => StatusStep(s, x); SamePoolsStayOwned(s, Step(s, x));
    case Enable(_, _) => StatusStep(s, x); SamePoolsStayOwned(s, Step(s, x));
    case Disable(_, _, _) => StatusStep(s, x); SamePoolsStayOwned(s, Step(s, x));
    case UpdateFee(_) => SamePoolsStayOwned(s, Step(s, x));
    case OtherTransfer(_, _, _, _) => OtherStep(s, x); SamePoolsStayOwned(s, Step(s, x));
    case OtherIssue(_, _, _) => OtherStep(s, x); SamePoolsStayOwned(s, Step(s, x));
  }

  /** On every run from an exchange without pools, a pair of which no shares are outstanding has
      nothing in its pool. */
  lemma {:induction false} EmptyPoolsOverRuns(s: State, run: seq<Action>)
    requires Inv(s) && LegalRun(s, run) && AllOwned(s)
    ensures AllOwned(Run(s, run))
    decreases |run|
  {
    hide Inv, AllOwned, Legal, Step;
    if run != [] {
      StepKeepsCustody(s, run[0]);
      StepKeepsOwned(s, run[0]);
      EmptyPoolsOverRuns(Step(s, run[0]), run[1..]);
    }
  }

  lemma GenesisIsOwned(s: State)
    requires Genesis(s)
    ensures AllOwned(s)
  {}

  /** Wherever a run from genesis leads, joining a pool and leaving it at once succeeds and gains
      nothing, and the pool is left with at least what it had. */
  lemma JoiningNeverPays(start: State, run: seq<Action>, who: AccountId, a: CurrencyId, b: CurrencyId, maxA: Balance,
                         maxB: Balance, min: Balance)
    requires Genesis(start) && LegalRun(start, run) && who != MODULE_ACCOUNT
    requires AddLiquidity(Run(start, run), who, a, b, maxA, maxB, min).Ok?
    ensures FromTokens(a, b) == Some(NewPair(a, b)) && ShareCurrency(NewPair(a, b)).Some?
    ensures var s, p := Run(start, run), NewPair(a, b);
            var t, inc := AddLiquidity(s, who, a, b, maxA, maxB, min).value, Added(s, a, b, maxA, maxB);
            var r := RemoveLiquidity(t, who, a, b, inc.shares, 0, 0);
            && r.Ok? && GainsNothing(s.ledger, r.value.ledger, who)
            && PoolOf(r.value.pools, p).fst >= PoolOf(s.pools, p).fst
            && PoolOf(r.value.pools, p).snd >= PoolOf(s.pools, p).snd
  {
    hide Inv, AddLiquidity, RemoveLiquidity, GainsNothing, Genesis;
    var s := Run(start, run);
    GenesisKeepsNothing(start);
    GenesisIsOwned(start);
    CustodyOverRuns(start, run);
    EmptyPoolsOverRuns(start, run);
    JoinThenLeave(s, who, a, b, maxA, maxB, min);
    assert OwnedOrEmpty(s, NewPair(a, b));
  }

  /** Wherever a run from genesis leads, enabling a pair as the program text has it would leave its
      pool with nothing of the second currency, and exactly the second provision in no pool. */
  lemma AsWrittenLosesTheProvision(start: State, run: seq<Action>, p: TradingPair, now: nat, order: seq<AccountId>)
    requires Genesis(start) && LegalRun(start, run)
    requires var s := Run(start, run);
             && IsOrderOf(order, ContributionsTo(s, p))
             && StatusOf(s, p).Provisioning? && ReadyToEnable(StatusOf(s, p).parameters, now)
    ensures Within(order, ContributionsTo(Run(start, run), p))
    ensures var s := Run(start, run);
            var t, add := ConvertAsWritten(s, p, now, order), StatusOf(s, p).parameters.accumulated;
            && PoolOf(t.pools, p) == Amounts(add.fst, 0) && add.snd > 0
            && forall c :: Slack(t, c) == Slack(s, c) + Carried(p.second, add.snd, c)
  {
    var s := Run(start, run);
    GenesisKeepsNothing(start);
    GenesisIsOwned(start);
    CustodyOverRuns(start, run);
    EmptyPoolsOverRuns(start, run);
    assert PairOk(s, p) && OwnedOrEmpty(s, p);
    forall i | 0 <= i < |order| ensures order[i] in ContributionsTo(s, p) { assert order[i] in order; }
    hide Inv, Genesis, ConvertAsWritten, Slack, Run, LegalRun, PairOk;
    SubtractingLosesTheProvision(s, p, now, order);
  }
}
