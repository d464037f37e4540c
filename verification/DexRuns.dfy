/** Whole runs of the exchange: any sequence of calls by any accounts, accepted or refused,
    interleaved with whatever else moves balances on the chain. */
module DexRuns {
  import opened Numbers
  import opened Wrappers
  import opened Currencies
  import opened Ledgers
  import opened Pricing
  import opened Dex
  import opened DexPaths
  import opened DexAccounts
  import opened DexProducts
  import opened DexProvision
  import opened DexShares
  import opened DexCustody

  datatype Action =
    | SwapSupply(who: AccountId, path: seq<CurrencyId>, amount: Balance, bound: Balance, limit: Option<Balance>)
    | SwapTarget(who: AccountId, path: seq<CurrencyId>, amount: Balance, bound: Balance, limit: Option<Balance>)
    | Add(who: AccountId, a: CurrencyId, b: CurrencyId, maxA: Balance, maxB: Balance, minShares: Balance,
          now: nat, order: seq<AccountId>)
    | Remove(who: AccountId, a: CurrencyId, b: CurrencyId, shares: Balance, minA: Balance, minB: Balance)
    | List(a: CurrencyId, b: CurrencyId, minA: Balance, minB: Balance, targetA: Balance, targetB: Balance, notBefore: nat)
    | Enable(a: CurrencyId, b: CurrencyId)
    | Disable(a: CurrencyId, b: CurrencyId, order: seq<AccountId>)
    | UpdateFee(newFee: Fee)
    | OtherTransfer(c: CurrencyId, who: AccountId, to: AccountId, amount: Balance)
    | OtherIssue(c: CurrencyId, to: AccountId, amount: Balance)

  /** The module account signs nothing; storage is drained in some order; liquidity shares are
      issued by the exchange only. */
  ghost predicate Permitted(s: State, x: Action) {
    match x
    case SwapSupply(who, _, _, _, _) => who != MODULE_ACCOUNT
    case SwapTarget(who, _, _, _, _) => who != MODULE_ACCOUNT
    case Add(who, a, b, _, _, _, _, order) =>
      who != MODULE_ACCOUNT && IsOrderOf(order, ContributionsTo(s, NewPair(a, b))[who := Amounts(0, 0)])
    case Remove(who, _, _, _, _, _) => who != MODULE_ACCOUNT
    case Disable(a, b, order) => IsOrderOf(order, ContributionsTo(s, NewPair(a, b)))
    case OtherTransfer(_, who, _, _) => who != MODULE_ACCOUNT
    case OtherIssue(c, _, _) => !c.LpShare?
    case _ => true
  }

  /** Moreover, a swap overdraws no pool on its way. */
  ghost predicate Legal(s: State, x: Action) {
    && Permitted(s, x)
    && (x.SwapSupply? ==> SoundTarget(s, x.path, x.amount, x.limit))
    && (x.SwapTarget? ==> SoundSupply(s, x.path, x.amount, x.limit))
  }

  function After(s: State, r: Result<State, Error>): State { if r.Ok? then r.value else s }

  /** The storage after one action; a refused call changes nothing. */
  ghost function Step(s: State, x: Action): State
    requires Legal(s, x)
  {
    match x
    case SwapSupply(who, path, amount, bound, limit) =>
      var r := SwapWithExactSupply(s, who, path, amount, bound, limit); if r.Ok? then r.value.0 else s
    case SwapTarget(who, path, amount, bound, limit) =>
      var r := SwapWithExactTarget(s, who, path, amount, bound, limit); if r.Ok? then r.value.0 else s
    case Add(who, a, b, maxA, maxB, minShares, now, order) =>
      OrderedKeys(order, ContributionsTo(s, NewPair(a, b)), who);
      After(s, AddLiquidityCall(s, who, a, b, maxA, maxB, minShares, now, order))
    case Remove(who, a, b, shares, minA, minB) => After(s, RemoveLiquidity(s, who, a, b, shares, minA, minB))
    case List(a, b, minA, minB, targetA, targetB, notBefore) =>
      After(s, ListTradingPair(s, a, b, minA, minB, targetA, targetB, notBefore))
    case Enable(a, b) => After(s, EnableTradingPair(s, a, b))
    case Disable(a, b, order) =>
      PairIsSymmetric(a, b);
      OrderedKeys(order, ContributionsTo(s, NewPair(a, b)), MODULE_ACCOUNT);
      After(s, DisableTradingPair(s, a, b, order))
    case UpdateFee(newFee) => s.(fee := newFee)
    case OtherTransfer(c, who, to, amount) => s.(ledger := Transfer(s.ledger, c, who, to, amount).GetOr(s.ledger))
    case OtherIssue(c, to, amount) => s.(ledger := Deposit(s.ledger, c, to, amount).GetOr(s.ledger))
  }

  lemma OrderedKeys(order: seq<AccountId>, all: map<AccountId, Amounts>, who: AccountId)
    requires IsOrderOf(order, all) || IsOrderOf(order, all[who := Amounts(0, 0)])
    ensures forall i :: 0 <= i < |order| && order[i] != who ==> order[i] in all
    ensures IsOrderOf(order, all) ==> Within(order, all)
  {
    forall i | 0 <= i < |order| ensures order[i] in order {}
  }

  /** Does the action hand something to the module account from outside the exchange? */
  predicate Donates(x: Action) {
    match x
    case OtherTransfer(_, _, to, _) => to == MODULE_ACCOUNT
    case OtherIssue(_, to, _) => to == MODULE_ACCOUNT
    case _ => false
  }

  // ----- custody -----

  lemma AddStep(s: State, x: Action)
    requires x.Add? && Inv(s) && Legal(s, x)
    ensures Inv(Step(s, x)) && SlackKept(s, Step(s, x))
  {
    var p := NewPair(x.a, x.b);
    PairIsSymmetric(x.a, x.b);
    OrderedKeys(x.order, ContributionsTo(s, p), x.who);
    var r := AddLiquidityCall(s, x.who, x.a, x.b, x.maxA, x.maxB, x.minShares, x.now, x.order);
    if r.Ok? {
      if StatusOf(s, p) == Enabled {
        AddLiquidityKeepsCustody(s, x.who, x.a, x.b, x.maxA, x.maxB, x.minShares);
      } else {
        var mid := AddProvision(s, x.who, x.a, x.b, x.maxA, x.maxB).value;
        AddProvisionKeepsCustody(s, x.who, x.a, x.b, x.maxA, x.maxB);
        AddProvisionEffect(s, x.who, x.a, x.b, x.maxA, x.maxB);
        assert forall w :: w in ContributionsTo(mid, p) <==> w in ContributionsTo(mid, p).Keys;
        assert IsOrderOf(x.order, ContributionsTo(mid, p));
        ConvertKeepsCustody(mid, p, x.now, x.order);
      }
    }
  }

  lemma StatusStep(s: State, x: Action)
    requires (x.List? || x.Enable? || x.Disable?) && Inv(s) && Legal(s, x)
    ensures Inv(Step(s, x)) && SlackKept(s, Step(s, x))
    ensures Step(s, x).pools == s.pools && forall c :: Issuance(Step(s, x).ledger, c) == Issuance(s.ledger, c)
  {
    var p, t := NewPair(x.a, x.b), Step(s, x);
    PairIsSymmetric(x.a, x.b);
    if t != s {
      assert PairOk(s, p);
      if x.Disable? && StatusOf(s, p).Provisioning? {
        DisableRefundsExactly(s, x.a, x.b, x.order);
      } else {
        assert Fsts(map[]) == map[] && Snds(map[]) == map[];
        assert PairOk(t, p);
        StatusOnlyKeepsCustody(s, t, p);
      }
    }
  }

  lemma OtherStep(s: State, x: Action)
    requires (x.OtherTransfer? || x.OtherIssue?) && Inv(s) && Legal(s, x)
    ensures Inv(Step(s, x)) && (!Donates(x) ==> SlackKept(s, Step(s, x)))
    ensures Step(s, x).pools == s.pools
    ensures forall c: CurrencyId :: c.LpShare? ==> Issuance(Step(s, x).ledger, c) == Issuance(s.ledger, c)
  {
    hide Consistent, Free, Issuance, PairOk, SetFree;
    var t := Step(s, x);
    if x.OtherTransfer? && x.who != x.to && Transfer(s.ledger, x.c, x.who, x.to, x.amount).Some? {
      TransferEffect(s.ledger, x.c, x.who, x.to, x.amount);
    }
    if x.OtherIssue? && Deposit(s.ledger, x.c, x.to, x.amount).Some? {
      DepositEffect(s.ledger, x.c, x.to, x.amount);
    }
    forall c ensures Slack(t, c) >= Slack(s, c) >= 0 && (!Donates(x) ==> Slack(t, c) == Slack(s, c)) {
      assert Slack(s, c) >= 0;
    }
    SameIssuanceKeepsPairs(s, t);
  }

  lemma SameIssuanceKeepsPairs(s: State, t: State)
    requires t == s.(ledger := t.ledger) && (forall p :: PairOk(s, p))
    requires forall c: CurrencyId :: c.LpShare? ==> Issuance(t.ledger, c) == Issuance(s.ledger, c)
    ensures forall p :: PairOk(t, p)
  {
    hide SumFst, SumSnd, Issuance;
    forall p ensures PairOk(t, p) { assert PairOk(s, p); }
  }

  /** One step keeps the invariant, and unless it is a donation from outside it keeps the slack of
      every currency exactly. */
  lemma StepKeepsCustody(s: State, x: Action)
    requires Inv(s) && Legal(s, x)
    ensures Inv(Step(s, x)) && (!Donates(x) ==> SlackKept(s, Step(s, x)))
  {
    match x
    case SwapSupply(who, path, amount, bound, limit) =>
      if Step(s, x) != s { ExactSupplyKeepsCustody(s, who, path, amount, bound, limit); }
    case SwapTarget(who, path, amount, bound, limit) =>
      if Step(s, x) != s { ExactTargetKeepsCustody(s, who, path, amount, bound, limit); }
    case Add(_, _, _, _, _, _, _, _) => AddStep(s, x);
    case Remove(who, a, b, shares, minA, minB) =>
      if Step(s, x) != s { RemoveLiquidityKeepsCustody(s, who, a, b, shares, minA, minB); }
    case List(_, _, _, _, _, _, _) => StatusStep(s, x);
    case Enable(_, _) => StatusStep(s, x);
    case Disable(_, _, _) => StatusStep(s, x);
    case UpdateFee(_) =>
      var t := Step(s, x);
      assert forall c :: Slack(t, c) == Slack(s, c);
      forall p ensures PairOk(t, p) { assert PairOk(s, p); }
    case OtherTransfer(_, _, _, _) => OtherStep(s, x);
    case OtherIssue(_, _, _) => OtherStep(s, x);
  }

  ghost predicate LegalRun(s: State, run: seq<Action>)
    decreases |run|
  {
    run == [] || (Legal(s, run[0]) && LegalRun(Step(s, run[0]), run[1..]))
  }

  ghost function Run(s: State, run: seq<Action>): State
    requires LegalRun(s, run)
    decreases |run|
  {
    if run == [] then s else Run(Step(s, run[0]), run[1..])
  }

  /** In every reachable state the module account covers all reserves and all pending provisions;
      without donations it holds exactly what it held beyond them at the start. */
  lemma {:induction false} CustodyOverRuns(s: State, run: seq<Action>)
    requires Inv(s) && LegalRun(s, run)
    ensures Inv(Run(s, run))
    ensures (forall i :: 0 <= i < |run| ==> !Donates(run[i])) ==> SlackKept(s, Run(s, run))
    decreases |run|
  {
    if run != [] {
      var t := Step(s, run[0]);
      StepKeepsCustody(s, run[0]);
      CustodyOverRuns(t, run[1..]);
      if forall i :: 0 <= i < |run| ==> !Donates(run[i]) {
        forall i | 0 <= i < |run[1..]| ensures !Donates(run[1..][i]) { assert run[1..][i] == run[i + 1]; }
        forall c ensures Slack(Run(s, run), c) == Slack(s, c) {
          assert Slack(t, c) == Slack(s, c);
        }
      }
    }
  }

  /** A chain on which the exchange has done nothing yet. */
  ghost predicate Genesis(s: State) {
    && s.pools == map[] && s.statuses == map[] && s.contributions == map[] && Consistent(s.ledger)
    && forall c :: Free(s.ledger, c, MODULE_ACCOUNT) == 0
  }

  lemma GenesisKeepsNothing(s: State)
    requires Genesis(s)
    ensures Inv(s) && forall c :: Slack(s, c) == 0
  {
    forall c ensures Slack(s, c) == 0 {
      assert PledgeParts(map[], c) == map[];
      assert Reserves(map[], c) == 0;
    }
  }

  // ----- value per share -----

  function Outstanding(s: State, p: TradingPair): nat {
    if ShareCurrency(p).Some? then Issuance(s.ledger, ShareCurrency(p).value) else 0
  }

  /** The quote that a swap is settled by, if there is one. */
  function QuoteOf(s: State, x: Action): Result<seq<Balance>, Error>
    requires x.SwapSupply? || x.SwapTarget?
  {
    if x.SwapSupply? then TargetAmounts(s, x.path, x.amount, x.limit) else SupplyAmounts(s, x.path, x.amount, x.limit)
  }

  /** If it is a swap, the net trade that its quote sends through the pool of `p` is fair. */
  ghost predicate FairSwap(s: State, x: Action, p: TradingPair) {
    (x.SwapSupply? || x.SwapTarget?) && QuoteOf(s, x).Ok? ==> FairTrade(PoolOf(s.pools, p), FlowOf(x.path, QuoteOf(s, x).value, p))
  }

  /** Every hop of an exact-target quote is charged in full. */
  ghost predicate FullyCharged(s: State, x: Action) {
    x.SwapTarget? && QuoteOf(s, x).Ok? ==> AllChargedInFull(s, x.path, QuoteOf(s, x).value)
  }

  /** Neither does it for a swap that can be quoted, and the path repeats no hop or is short. */
  ghost predicate PlainSwap(s: State, x: Action) {
    ((x.SwapSupply? || x.SwapTarget?) && QuoteOf(s, x).Ok? ==> Unrepeated(x.path)) && FullyCharged(s, x)
  }

  ghost predicate StepValueKept(s: State, t: State, p: TradingPair) {
    ValueKept(PoolOf(s.pools, p), Outstanding(s, p), PoolOf(t.pools, p), Outstanding(t, p))
  }

  lemma SameSharesKeepValue(s: State, t: State, p: TradingPair)
    requires Outstanding(t, p) == Outstanding(s, p)
    requires Product(PoolOf(t.pools, p)) >= Product(PoolOf(s.pools, p))
    ensures StepValueKept(s, t, p)
  {
    MulLe(Product(PoolOf(s.pools, p)), Product(PoolOf(t.pools, p)), Outstanding(s, p) * Outstanding(s, p));
  }

  /** An accepted swap settles its quote, on a path of tradable currencies with room for it. */
  lemma AcceptedSwap(s: State, x: Action)
    requires (x.SwapSupply? || x.SwapTarget?) && Inv(s) && Legal(s, x) && Step(s, x) != s
    ensures QuoteOf(s, x).Ok?
    ensures var v := QuoteOf(s, x).value;
            && |x.path| == |v| && AllTradable(x.path) && CoveredHops(s.pools, x.path, v)
            && NeverOverdrawn(s.pools, x.path, v) && Roomy(s.pools, x.path, v)
            && Step(s, x).pools == SwapByPath(s.pools, x.path, v)
    ensures forall p :: Outstanding(Step(s, x), p) == Outstanding(s, p)
  {
    hide Inv, Slack, NeverOverdrawn, Roomy, Fits, CoveredHops;
    if x.SwapSupply? {
      ExactSupplyKeepsCustody(s, x.who, x.path, x.amount, x.bound, x.limit);
      TargetQuoteIsGood(s, x.path, x.amount, x.limit);
    } else {
      ExactTargetKeepsCustody(s, x.who, x.path, x.amount, x.bound, x.limit);
      SupplyQuoteIsCovered(s, x.path, x.amount, x.limit);
    }
    SoundPathsAreRoomy(s.pools, x.path, QuoteOf(s, x).value);
  }

  lemma EqualShares(s: State, t: State, p: TradingPair)
    requires Outstanding(t, p) == Outstanding(s, p) > 0
    ensures StepValueKept(s, t, p) <==> Product(PoolOf(t.pools, p)) >= Product(PoolOf(s.pools, p))
  {
    var n := Outstanding(s, p) * Outstanding(s, p);
    MulLt(0, Outstanding(s, p), Outstanding(s, p));
    if Product(PoolOf(t.pools, p)) < Product(PoolOf(s.pools, p)) {
      MulLt(Product(PoolOf(t.pools, p)), Product(PoolOf(s.pools, p)), n);
    } else {
      MulLe(Product(PoolOf(s.pools, p)), Product(PoolOf(t.pools, p)), n);
    }
  }

  /** An accepted swap keeps the value of the shares of a funded pair exactly when its net trade
      through that pair is fair. */
  lemma SwapKeepsValueExactlyWhen(s: State, x: Action, p: TradingPair)
    requires (x.SwapSupply? || x.SwapTarget?) && Inv(s) && Legal(s, x) && Step(s, x) != s && Outstanding(s, p) > 0
    requires PoolOf(s.pools, p).fst > 0 && PoolOf(s.pools, p).snd > 0
    ensures StepValueKept(s, Step(s, x), p) <==> FairSwap(s, x, p)
  {
    AcceptedSwap(s, x);
    hide Inv, Slack, NeverOverdrawn, Roomy, Product, ValueKept, FairTrade;
    EqualShares(s, Step(s, x), p);
    ProductKeptExactlyWhen(s.pools, x.path, QuoteOf(s, x).value, p);
  }

  /** Every plain swap is of that kind, for every pair. */
  lemma PlainSwapsKeepProducts(s: State, x: Action, p: TradingPair)
    requires (x.SwapSupply? || x.SwapTarget?) && Inv(s) && Legal(s, x) && PlainSwap(s, x)
    ensures Product(PoolOf(Step(s, x).pools, p)) >= Product(PoolOf(s.pools, p))
  {
    if Step(s, x) != s {
      AcceptedSwap(s, x);
      if x.SwapSupply? { TargetQuoteIsGood(s, x.path, x.amount, x.limit); } else { SupplyQuoteIsGoodExactlyWhen(s, x.path, x.amount, x.limit); }
      hide Inv, Slack, NeverOverdrawn, Roomy, Product, Unrepeated, CoveredHops, GoodHops;
      UnrepeatedKeepsProducts(s.pools, x.path, QuoteOf(s, x).value, p);
    }
  }

  lemma SwapKeepsValue(s: State, x: Action, p: TradingPair)
    requires (x.SwapSupply? || x.SwapTarget?) && Inv(s) && Legal(s, x) && Outstanding(s, p) > 0
    requires PlainSwap(s, x) || FairSwap(s, x, p)
    ensures StepValueKept(s, Step(s, x), p)
  {
    var t := Step(s, x);
    if t == s {
      EqualShares(s, t, p);
    } else {
      AcceptedSwap(s, x);
      hide Inv, Slack, NeverOverdrawn, Roomy, Product, PlainSwap, Unrepeated, CoveredHops;
      EqualShares(s, t, p);
      if PlainSwap(s, x) {
        PlainSwapsKeepProducts(s, x, p);
      } else if PoolOf(s.pools, p).fst > 0 && PoolOf(s.pools, p).snd > 0 {
        ProductKeptExactlyWhen(s.pools, x.path, QuoteOf(s, x).value, p);
      } else {
        EmptyProduct(PoolOf(s.pools, p), PoolOf(t.pools, p));
      }
    }
  }

  lemma EmptyProduct(m: Amounts, n: Amounts)
    requires m.fst == 0 || m.snd == 0
    ensures Product(n) >= Product(m)
  {}

  /** An accepted addition lowers neither reserve per share. */
  lemma AddKeepsPerShare(s: State, x: Action, p: TradingPair)
    requires x.Add? && Inv(s) && Legal(s, x) && Outstanding(s, p) > 0
    ensures PerShareKept(PoolOf(s.pools, p), Outstanding(s, p), PoolOf(Step(s, x).pools, p), Outstanding(Step(s, x), p))
  {
    hide Slack, SumFst, SumSnd, LiquidityIncrement, Transfer, Deposit;
    var q, t := NewPair(x.a, x.b), Step(s, x);
    PairIsSymmetric(x.a, x.b);
    if ShareCurrency(q) == ShareCurrency(p) { ShareCurrencyIsInjective(q, p); }
    assert PairOk(s, q);
    if t != s {
      if StatusOf(s, q) == Enabled {
        AddLiquidityEffect(s, x.who, x.a, x.b, x.maxA, x.maxB, x.minShares);
        if q == p {
          AddingKeepsPerShare(PoolOf(s.pools, p), Outstanding(s, p), InPairOrder(p, x.a, x.maxA, x.maxB), PoolOf(t.pools, p));
        }
      } else {
        AddStep(s, x);
        ProvisionTouchesOnePair(s, x);
      }
    }
  }

  lemma ProvisionTouchesOnePair(s: State, x: Action)
    requires x.Add? && Inv(s) && Legal(s, x) && StatusOf(s, NewPair(x.a, x.b)).Provisioning?
    ensures var q, t := NewPair(x.a, x.b), Step(s, x);
            && (forall p :: p != q ==> PoolOf(t.pools, p) == PoolOf(s.pools, p))
            && (forall c :: ShareCurrency(q) != Some(c) ==> Issuance(t.ledger, c) == Issuance(s.ledger, c))
  {
    var q := NewPair(x.a, x.b);
    PairIsSymmetric(x.a, x.b);
    OrderedKeys(x.order, ContributionsTo(s, q), x.who);
    var r := AddProvision(s, x.who, x.a, x.b, x.maxA, x.maxB);
    if r.Ok? {
      AddProvisionKeepsCustody(s, x.who, x.a, x.b, x.maxA, x.maxB);
      AddProvisionEffect(s, x.who, x.a, x.b, x.maxA, x.maxB);
      assert forall w :: w in ContributionsTo(r.value, q) <==> w in ContributionsTo(r.value, q).Keys;
      assert IsOrderOf(x.order, ContributionsTo(r.value, q));
      ConvertKeepsCustody(r.value, q, x.now, x.order);
    }
  }

  /** An accepted removal lowers neither reserve per share. */
  lemma RemoveKeepsPerShare(s: State, x: Action, p: TradingPair)
    requires x.Remove? && Inv(s) && Legal(s, x)
    ensures PerShareKept(PoolOf(s.pools, p), Outstanding(s, p), PoolOf(Step(s, x).pools, p), Outstanding(Step(s, x), p))
  {
    hide Inv, Redeemed, Withdraw, TransferBoth;
    var q, t := NewPair(x.a, x.b), Step(s, x);
    if ShareCurrency(q) == ShareCurrency(p) && ShareCurrency(p).Some? { ShareCurrencyIsInjective(q, p); }
    if t != s {
      RemoveLiquidityEffect(s, x.who, x.a, x.b, x.shares, x.minA, x.minB);
      if q == p {
        RemovingKeepsPerShare(PoolOf(s.pools, p), Outstanding(s, p), x.shares, PoolOf(t.pools, p));
      }
    }
  }

  lemma StepKeepsValue(s: State, x: Action, p: TradingPair)
    requires Inv(s) && Legal(s, x) && (PlainSwap(s, x) || FairSwap(s, x, p)) && Outstanding(s, p) > 0
    ensures StepValueKept(s, Step(s, x), p)
  {
    var t := Step(s, x);
    match x
    case SwapSupply(_, _, _, _, _) => SwapKeepsValue(s, x, p);
    case SwapTarget(_, _, _, _, _) => SwapKeepsValue(s, x, p);
    case Add(_, _, _, _, _, _, _, _) =>
      AddKeepsPerShare(s, x, p);
      PerShareKeepsValue(PoolOf(s.pools, p), Outstanding(s, p), PoolOf(t.pools, p), Outstanding(t, p));
    case Remove(_, _, _, _, _, _) =>
      RemoveKeepsPerShare(s, x, p);
      PerShareKeepsValue(PoolOf(s.pools, p), Outstanding(s, p), PoolOf(t.pools, p), Outstanding(t, p));
    case List(_, _, _, _, _, _, _) => StatusStep(s, x); SameSharesKeepValue(s, t, p);
    case Enable(_, _) => StatusStep(s, x); SameSharesKeepValue(s, t, p);
    case Disable(_, _, _) => StatusStep(s, x); SameSharesKeepValue(s, t, p);
    case UpdateFee(_) => SameSharesKeepValue(s, t, p);
    case OtherTransfer(_, _, _, _) => OtherStep(s, x); SameSharesKeepValue(s, t, p);
    case OtherIssue(_, _, _) => OtherStep(s, x); SameSharesKeepValue(s, t, p);
  }

  /** Shares of `p` are outstanding throughout, and every swap repeats no hop, or is short, or trades
      fairly with the pool of `p`. */
  ghost predicate StaysOutstanding(s: State, run: seq<Action>, p: TradingPair)
    requires LegalRun(s, run)
    decreases |run|
  {
    && Outstanding(s, p) > 0
    && (run != [] ==> (PlainSwap(s, run[0]) || FairSwap(s, run[0], p)) && StaysOutstanding(Step(s, run[0]), run[1..], p))
  }

  /** Over any run during which shares are outstanding, `reserve_0 * reserve_1 / shares^2` never
      decreases. */
  lemma {:induction false} ValuePerShareOverRuns(s: State, run: seq<Action>, p: TradingPair)
    requires Inv(s) && LegalRun(s, run) && StaysOutstanding(s, run, p)
    ensures StepValueKept(s, Run(s, run), p)
    decreases |run|
  {
    if run == [] {
      SameSharesKeepValue(s, s, p);
    } else {
      var t := Step(s, run[0]);
      StepKeepsCustody(s, run[0]);
      StepKeepsValue(s, run[0], p);
      ValuePerShareOverRuns(t, run[1..], p);
      var u := Run(s, run);
      ValueKeptTransitive(PoolOf(s.pools, p), Outstanding(s, p), PoolOf(t.pools, p), Outstanding(t, p),
                          PoolOf(u.pools, p), Outstanding(u, p));
    }
  }

  // ----- exchanges with short paths -----

  /** No pair that is listed or enabled names one currency twice. Listing makes sure of that;
      enabling without provision does not. */
  ghost predicate NoTwins(s: State) { forall p :: StatusOf(s, p) != NotEnabled ==> p.first != p.second }

  ghost predicate Short(s: State) { s.pathLimit <= 4 && NoTwins(s) }

  lemma ShortPathIsUnrepeated(s: State, path: seq<CurrencyId>)
    requires Short(s) && 2 <= |path| <= s.pathLimit
    requires forall i :: 0 <= i < |path| - 1 ==> StatusOf(s, Hop(path, i)) == Enabled
    ensures Unrepeated(path)
  {
    forall i | 0 <= i < |path| - 1 ensures path[i] != path[i + 1] {
      assert Hop(path, i).first != Hop(path, i).second;
    }
  }

  lemma QuotedPathIsUnrepeated(s: State, x: Action)
    requires (x.SwapSupply? || x.SwapTarget?) && Short(s) && QuoteOf(s, x).Ok?
    ensures Unrepeated(x.path)
  {
    hide Short, Unrepeated, TargetsAlong, SuppliesAlong;
    forall i | 0 <= i < |x.path| - 1 ensures StatusOf(s, Hop(x.path, i)) == Enabled {
      if x.SwapSupply? { TargetQuoteUsesEnabled(s, x.path, x.amount, x.limit, i); } else { SupplyQuoteUsesEnabled(s, x.path, x.amount, x.limit, i); }
    }
    ShortPathIsUnrepeated(s, x.path);
  }

  /** With at most four currencies to a path every swap is sound, and plain if its hops are charged in full. */
  lemma ShortSwapsAreSound(s: State, x: Action)
    requires Inv(s) && Short(s) && Permitted(s, x)
    ensures Legal(s, x) && (FullyCharged(s, x) ==> PlainSwap(s, x))
  {
    hide Short, Unrepeated, Inv, TargetAmounts, SupplyAmounts, NeverOverdrawn;
    if (x.SwapSupply? || x.SwapTarget?) && QuoteOf(s, x).Ok? {
      QuotedPathIsUnrepeated(s, x);
      UnrepeatedPathsAreSound(s, x.path, x.amount, x.limit);
    }
  }

  lemma ConvertKeepsShort(s: State, p: TradingPair, now: nat, order: seq<AccountId>)
    requires Within(order, ContributionsTo(s, p)) && Short(s)
    ensures Short(ConvertToEnabled(s, p, now, order))
  {
    hide IssueInitial, ReadyToEnable;
    var t := ConvertToEnabled(s, p, now, order);
    forall q | StatusOf(t, q) != NotEnabled ensures q.first != q.second { assert StatusOf(s, q) != NotEnabled; }
  }

  lemma AddKeepsShort(s: State, x: Action)
    requires x.Add? && Short(s) && Legal(s, x)
    ensures Short(Step(s, x))
  {
    hide AddLiquidity, LiquidityIncrement, TransferBoth, Short, ConvertToEnabled;
    OrderedKeys(x.order, ContributionsTo(s, NewPair(x.a, x.b)), x.who);
    PairIsSymmetric(x.a, x.b);
    if AddLiquidity(s, x.who, x.a, x.b, x.maxA, x.maxB, x.minShares).Ok? {
      AddLiquidityKeepsShort(s, x.who, x.a, x.b, x.maxA, x.maxB, x.minShares);
    }
    var r := AddProvision(s, x.who, x.a, x.b, x.maxA, x.maxB);
    if r.Ok? {
      ProvisionKeepsShort(s, x.who, x.a, x.b, x.maxA, x.maxB);
      if Within(x.order, ContributionsTo(r.value, NewPair(x.a, x.b))) {
        ConvertKeepsShort(r.value, NewPair(x.a, x.b), x.now, x.order);
      }
    }
  }

  lemma AddLiquidityKeepsShort(s: State, who: AccountId, a: CurrencyId, b: CurrencyId, maxA: Balance, maxB: Balance,
                               min: Balance)
    requires Short(s) && AddLiquidity(s, who, a, b, maxA, maxB, min).Ok?
    ensures Short(AddLiquidity(s, who, a, b, maxA, maxB, min).value)
  {}

  lemma ProvisionKeepsShort(s: State, who: AccountId, a: CurrencyId, b: CurrencyId, x: Balance, y: Balance)
    requires Short(s) && AddProvision(s, who, a, b, x, y).Ok?
    ensures Short(AddProvision(s, who, a, b, x, y).value)
  {
    hide TransferBoth;
    var t := AddProvision(s, who, a, b, x, y).value;
    forall q | StatusOf(t, q) != NotEnabled ensures q.first != q.second { assert StatusOf(s, q) != NotEnabled; }
  }

  lemma StepKeepsShort(s: State, x: Action)
    requires Short(s) && Legal(s, x) && (x.Enable? ==> x.a != x.b)
    ensures Short(Step(s, x))
  {
    if x.Add? {
      AddKeepsShort(s, x);
    } else {
      hide Settle, TargetAmounts, SupplyAmounts, RemoveLiquidity, Refund, TransferBoth, NeverOverdrawn;
      if x.Remove? { RemovalKeepsShort(s, x); }
      if x.SwapSupply? || x.SwapTarget? { SwapKeepsShort(s, x); }
      var t := Step(s, x);
      if x.List? || x.Enable? { PairIsSymmetric(x.a, x.b); }
      if !x.Remove? && !x.SwapSupply? && !x.SwapTarget? {
        forall q | StatusOf(t, q) != NotEnabled ensures q.first != q.second {}
      }
    }
  }

  lemma RemovalKeepsShort(s: State, x: Action)
    requires x.Remove? && Short(s) && Legal(s, x)
    ensures Short(Step(s, x))
  {
    hide Redeemed, TransferBoth;
  }

  lemma SwapKeepsShort(s: State, x: Action)
    requires (x.SwapSupply? || x.SwapTarget?) && Short(s) && Legal(s, x)
    ensures Short(Step(s, x))
  {
    hide TargetAmounts, SupplyAmounts, NeverOverdrawn, SwapByPath;
  }

  /** Any permitted actions at all, except that no pair of one currency twice is enabled. */
  ghost predicate ShortRun(s: State, run: seq<Action>)
    decreases |run|
  {
    run == [] || (Permitted(s, run[0]) && (run[0].Enable? ==> run[0].a != run[0].b)
                  && (Legal(s, run[0]) ==> ShortRun(Step(s, run[0]), run[1..])))
  }

  /** On an exchange whose paths have at most four currencies, custody needs no assumption on the
      swaps. */
  lemma {:induction false} ShortRunsKeepCustody(s: State, run: seq<Action>)
    requires Inv(s) && Short(s) && ShortRun(s, run)
    ensures LegalRun(s, run) && Inv(Run(s, run))
    decreases |run|
  {
    if run != [] {
      hide Inv, Short, Legal, Step;
      ShortSwapsAreSound(s, run[0]);
      StepKeepsCustody(s, run[0]);
      StepKeepsShort(s, run[0]);
      ShortRunsKeepCustody(Step(s, run[0]), run[1..]);
    }
  }

  /** Shares of `p` are outstanding throughout, and exact-target quotes are charged in full. */
  ghost predicate Funded(s: State, run: seq<Action>, p: TradingPair)
    requires LegalRun(s, run)
    decreases |run|
  {
    Outstanding(s, p) > 0 && (run != [] ==> FullyCharged(s, run[0]) && Funded(Step(s, run[0]), run[1..], p))
  }

  /** Nor does value per share. */
  lemma {:induction false} ShortRunsKeepValue(s: State, run: seq<Action>, p: TradingPair)
    requires Inv(s) && Short(s) && ShortRun(s, run) && LegalRun(s, run) && Funded(s, run, p)
    ensures StaysOutstanding(s, run, p) && StepValueKept(s, Run(s, run), p)
    decreases |run|
  {
    hide Inv, Short, Legal, Step, StepValueKept, PlainSwap, FullyCharged, Outstanding;
    if run != [] {
      ShortSwapsAreSound(s, run[0]);
      StepKeepsCustody(s, run[0]);
      StepKeepsShort(s, run[0]);
      ShortRunsKeepValue(Step(s, run[0]), run[1..], p);
    }
    ValuePerShareOverRuns(s, run, p);
  }
}
