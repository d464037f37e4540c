/** The smallest kind of path on which quotes from the untouched pools go wrong, worked out in full:
    the hop from A to B is taken twice, each time priced from the same pool of ten. A larger swap
    runs the pool dry, which costs custody; a smaller one only costs the providers. */
module DexRepeatedHop {
  import opened Numbers
  import opened Wrappers
  import opened Currencies
  import opened MapSums
  import opened Ledgers
  import opened Pricing
  import opened Dex
  import opened DexPaths
  import opened DexAccounts
  import opened DexProducts
  import opened DexShares
  import opened DexCustody
  import opened DexRuns

  const A := Token(0)
  const B := Token(1)
  const C := Token(2)
  const AB := TradingPair(A, B)
  const BC := TradingPair(B, C)
  const AC := TradingPair(A, C)
  const LP := LpShare(TokenShare(0), TokenShare(1))
  const TRADER: AccountId := 1
  const PROVIDER: AccountId := 2

  const STATUSES: map<TradingPair, Status> := map[AB := Enabled][BC := Enabled][AC := Enabled]

  /** Three pools, of which the one that leads back to A holds `n` of it. */
  function Pools(n: Balance): map<TradingPair, Amounts> {
    map[AB := Amounts(10, 10)][BC := Amounts(1, 1000)][AC := Amounts(n, 1)]
  }

  function Books(n: Balance): Ledger
    requires n <= 1000
  {
    Ledger(map[A := map[MODULE_ACCOUNT := n + 10][TRADER := 1000]][B := map[MODULE_ACCOUNT := 11]]
              [C := map[MODULE_ACCOUNT := 1001]][LP := map[PROVIDER := 10]],
           map[A := n + 1010][B := 11][C := 1001][LP := 10])
  }

  function Start(n: Balance): State
    requires n <= 1000
  {
    State(Pools(n), STATUSES, map[], Fee(0, 1), 5, Books(n))
  }

  const PATH: seq<CurrencyId> := [A, B, C, A, B]

  // ----- the starting point is sound -----

  lemma StartReserves(n: Balance, c: CurrencyId)
    ensures Reserves(Pools(n), c) == if c == A then n + 10 else if c == B then 11 else if c == C then 1001 else 0
  {
    var one, two := map[AB := Amounts(10, 10)], map[AB := Amounts(10, 10)][BC := Amounts(1, 1000)];
    var none: map<TradingPair, Amounts> := map[];
    assert one == none[AB := Amounts(10, 10)];
    assert Reserves(none, c) == 0;
    ReservesUpdate(none, AB, Amounts(10, 10), c);
    ReservesUpdate(one, BC, Amounts(1, 1000), c);
    ReservesUpdate(two, AC, Amounts(n, 1), c);
  }

  lemma StartBooks(n: Balance)
    requires n <= 1000
    ensures Consistent(Books(n))
  {
    SumOfOne(MODULE_ACCOUNT, 11);
    SumOfOne(MODULE_ACCOUNT, 1001);
    SumOfOne(PROVIDER, 10);
    forall c ensures Sum(Holders(Books(n), c)) == Issuance(Books(n), c) {
      if c == A {
        SumOfTwo(Holders(Books(n), c), MODULE_ACCOUNT, n + 10, TRADER, 1000);
      } else if c == B {
        assert Holders(Books(n), c) == map[MODULE_ACCOUNT := 11];
      } else if c == C {
        assert Holders(Books(n), c) == map[MODULE_ACCOUNT := 1001];
      } else if c == LP {
        assert Holders(Books(n), c) == map[PROVIDER := 10];
      } else {
        assert Holders(Books(n), c) == map[];
        assert Sum(Holders(Books(n), c)) == 0;
      }
    }
  }

  lemma StartIsSound(n: Balance)
    requires n <= 1000
    ensures Inv(Start(n)) && forall c :: Slack(Start(n), c) == 0
  {
    StartBooks(n);
    forall c ensures Slack(Start(n), c) == 0 {
      StartReserves(n, c);
      assert PledgeParts(map[], c) == map[];
    }
    forall p ensures PairOk(Start(n), p) {}
  }

  // ----- quotes -----

  lemma OneMoreHop(s: State, path: seq<CurrencyId>, x: Balance, y: Balance, rest: seq<Balance>)
    requires |path| >= 2 && TargetOfHop(s, path[0], path[1], x, None) == Ok(y)
    requires TargetsAlong(s, path[1..], y, None) == Ok(rest)
    ensures TargetsAlong(s, path, x, None) == Ok([x] + rest)
  {}

  lemma QuoteFromHops(n: Balance, v0: Balance, v1: Balance, v2: Balance, v3: Balance, v4: Balance)
    requires n <= 1000
    requires var s := Start(n);
             && TargetOfHop(s, A, B, v0, None) == Ok(v1) && TargetOfHop(s, B, C, v1, None) == Ok(v2)
             && TargetOfHop(s, C, A, v2, None) == Ok(v3) && TargetOfHop(s, A, B, v3, None) == Ok(v4)
    ensures TargetAmounts(Start(n), PATH, v0, None) == Ok([v0, v1, v2, v3, v4])
  {
    hide TargetOfHop;
    var s := Start(n);
    var path1 := PATH[1..];
    var path2 := path1[1..];
    var path3 := path2[1..];
    assert path3[1..] == [B];
    OneMoreHop(s, path3, v3, v4, [v4]);
    OneMoreHop(s, path2, v2, v3, [v3] + [v4]);
    OneMoreHop(s, path1, v1, v2, [v2] + ([v3] + [v4]));
    OneMoreHop(s, PATH, v0, v1, [v1] + ([v2] + ([v3] + [v4])));
    assert [v0] + ([v1] + ([v2] + ([v3] + [v4]))) == [v0, v1, v2, v3, v4];
  }

  const LARGE: seq<Balance> := [1000, 9, 900, 998, 9]
  const SMALL: seq<Balance> := [5, 3, 750, 5, 3]

  lemma StartLiquidity(n: Balance)
    requires n <= 1000
    ensures var s := Start(n);
            && GetLiquidity(s.pools, A, B) == Amounts(10, 10) && StatusOf(s, NewPair(A, B)) == Enabled
            && GetLiquidity(s.pools, B, C) == Amounts(1, 1000) && StatusOf(s, NewPair(B, C)) == Enabled
            && GetLiquidity(s.pools, C, A) == Amounts(1, n) && StatusOf(s, NewPair(C, A)) == Enabled
            && s.fee == Fee(0, 1)
  {}

  lemma HopQuote(s: State, a: CurrencyId, b: CurrencyId, l: Amounts, x: Balance, y: Balance)
    requires GetLiquidity(s.pools, a, b) == l && StatusOf(s, NewPair(a, b)) == Enabled && l.fst > 0 && l.snd > 0
    requires y > 0 && GetTargetAmount(s.fee, l.fst, l.snd, x) == y
    ensures TargetOfHop(s, a, b, x, None) == Ok(y)
  {}

  lemma LargePrices()
    ensures GetTargetAmount(Fee(0, 1), 10, 10, 1000) == 9 && GetTargetAmount(Fee(0, 1), 1, 1000, 9) == 900
  {}

  lemma LargePricesOnward()
    ensures GetTargetAmount(Fee(0, 1), 1, 1000, 900) == 998 && GetTargetAmount(Fee(0, 1), 10, 10, 998) == 9
  {}

  lemma SmallPrices()
    ensures GetTargetAmount(Fee(0, 1), 10, 10, 5) == 3 && GetTargetAmount(Fee(0, 1), 1, 1000, 3) == 750
  {}

  lemma SmallPricesOnward()
    ensures GetTargetAmount(Fee(0, 1), 1, 6, 750) == 5
  {}

  lemma LargeQuote()
    ensures TargetAmounts(Start(1000), PATH, 1000, None) == Ok(LARGE)
  {
    StartLiquidity(1000);
    LargePrices();
    LargePricesOnward();
    hide Start, GetLiquidity, GetTargetAmount, StatusOf, NewPair, TargetOfHop, TargetAmounts;
    var s := Start(1000);
    HopQuote(s, A, B, Amounts(10, 10), 1000, 9);
    HopQuote(s, B, C, Amounts(1, 1000), 9, 900);
    HopQuote(s, C, A, Amounts(1, 1000), 900, 998);
    HopQuote(s, A, B, Amounts(10, 10), 998, 9);
    QuoteFromHops(1000, 1000, 9, 900, 998, 9);
  }

  lemma SmallQuote()
    ensures TargetAmounts(Start(6), PATH, 5, None) == Ok(SMALL)
  {
    StartLiquidity(6);
    SmallPrices();
    SmallPricesOnward();
    hide Start, GetLiquidity, GetTargetAmount, StatusOf, NewPair, TargetOfHop, TargetAmounts;
    var s := Start(6);
    HopQuote(s, A, B, Amounts(10, 10), 5, 3);
    HopQuote(s, B, C, Amounts(1, 1000), 3, 750);
    HopQuote(s, C, A, Amounts(1, 6), 750, 5);
    QuoteFromHops(6, 5, 3, 750, 5, 3);
  }

  /** The pools after each hop of a settled path. */
  lemma FourSteps(pools: map<TradingPair, Amounts>, v: seq<Balance>, p1: map<TradingPair, Amounts>,
                  p2: map<TradingPair, Amounts>, p3: map<TradingPair, Amounts>, c: CurrencyId)
    requires |v| == 5
    requires p1 == SwapHop(pools, A, B, v[0], v[1]) && p2 == SwapHop(p1, B, C, v[1], v[2]) && p3 == SwapHop(p2, C, A, v[2], v[3])
    ensures NeverOverdrawn(pools, PATH, v)
            <==> v[1] <= GetLiquidity(pools, A, B).snd && v[2] <= GetLiquidity(p1, B, C).snd
                 && v[3] <= GetLiquidity(p2, C, A).snd && v[4] <= GetLiquidity(p3, A, B).snd
    ensures Roomy(pools, PATH, v)
            <==> GetLiquidity(pools, A, B).fst + v[0] <= U128_MAX && GetLiquidity(p1, B, C).fst + v[1] <= U128_MAX
                 && GetLiquidity(p2, C, A).fst + v[2] <= U128_MAX && GetLiquidity(p3, A, B).fst + v[3] <= U128_MAX
    ensures Overdraft(pools, PATH, v, c)
            == Carried(B, SatSub(v[1], GetLiquidity(pools, A, B).snd), c) + Carried(C, SatSub(v[2], GetLiquidity(p1, B, C).snd), c)
               + Carried(A, SatSub(v[3], GetLiquidity(p2, C, A).snd), c) + Carried(B, SatSub(v[4], GetLiquidity(p3, A, B).snd), c)
  {
    hide SwapHop, GetLiquidity, NeverOverdrawn, Roomy, Overdraft, Carried;
    var path1, v1 := PATH[1..], v[1..];
    var path2, v2 := path1[1..], v1[1..];
    var path3, v3 := path2[1..], v2[1..];
    FirstStep(pools, PATH, v, c);
    FirstStep(p1, path1, v1, c);
    FirstStep(p2, path2, v2, c);
    FirstStep(p3, path3, v3, c);
    NoStep(FirstHop(p3, path3, v3), path3[1..], v3[1..], c);
  }

  // ----- the large swap -----

  /** The second time the hop is short of eight. */
  lemma LargeIsOverdrawn()
    ensures Roomy(Pools(1000), PATH, LARGE) && Overdraft(Pools(1000), PATH, LARGE, B) == 8
  {
    var p1 := Pools(1000)[AB := Amounts(1010, 1)];
    var p2 := p1[BC := Amounts(10, 100)];
    FourSteps(Pools(1000), LARGE, p1, p2, p2[AC := Amounts(2, 901)], B);
  }

  lemma LargeSettles()
    ensures Settle(Start(1000), TRADER, PATH, LARGE).Some?
  {
    hide SwapByPath;
    var paid := Transfer(Books(1000), A, TRADER, MODULE_ACCOUNT, 1000);
    assert paid.Some? && Free(paid.value, B, MODULE_ACCOUNT) == 11 && Free(paid.value, B, TRADER) == 0;
  }

  /** From a state in which every currency is held exactly, an accepted swap along a path that
      repeats a hop leaves the exchange eight short of the reserves it shows. */
  lemma RepeatedHopLosesCustody()
    ensures Inv(Start(1000)) && Slack(Start(1000), B) == 0
    ensures var r := SwapWithExactSupply(Start(1000), TRADER, PATH, 1000, 0, None);
            r.Ok? && Slack(r.value.0, B) == -8 && !Inv(r.value.0)
  {
    LargeHops();
    hide Inv, Settle, TargetAmounts, Overdraft, Roomy, Slack, Start, Books, Pools, Outstanding, NeverOverdrawn,
         PATH, LARGE, AllTradable, SwapWithExactSupply;
    StartIsSound(1000);
    PoolsOfStart(1000);
    LargeQuote();
    LargeSettles();
    LargeIsOverdrawn();
    var s := Start(1000);
    var t := Settle(s, TRADER, PATH, LARGE).value;
    SettledSwap(s, LARGE, t);
    OverdraftIsMissing(s, PATH, LARGE, t, B);
  }

  lemma LargeHops()
    ensures |PATH| == |LARGE| == 5 && LARGE[0] == 1000 && AllTradable(PATH)
  {}

  /** What is overdrawn is missing, if nothing was to spare. */
  lemma OverdraftIsMissing(s: State, path: seq<CurrencyId>, v: seq<Balance>, t: State, c: CurrencyId)
    requires Inv(s) && Slack(s, c) == 0 && |path| == |v| >= 2 && AllTradable(path) && Roomy(s.pools, path, v)
    requires Settle(s, TRADER, path, v) == Some(t) && Overdraft(s.pools, path, v, c) > 0
    ensures Slack(t, c) + Overdraft(s.pools, path, v, c) == 0 && !Inv(t)
  {
    hide Inv, Settle, Overdraft, Roomy, Slack, NeverOverdrawn, AllTradable;
    SettleKeepsCustodyExactlyWhen(s, TRADER, path, v, t);
    NegativeSlackBreaksCustody(t, c);
  }

  lemma SettledSwap(s: State, v: seq<Balance>, t: State)
    requires |v| == 5 && TargetAmounts(s, PATH, v[0], None) == Ok(v) && Settle(s, TRADER, PATH, v) == Some(t)
    ensures SwapWithExactSupply(s, TRADER, PATH, v[0], 0, None) == Ok((t, v[4]))
  {
    hide Settle, TargetAmounts;
  }

  lemma PoolsOfStart(n: Balance)
    requires n <= 1000
    ensures Start(n).pools == Pools(n) && Outstanding(Start(n), AB) == 10
  {}

  lemma NegativeSlackBreaksCustody(t: State, c: CurrencyId)
    requires Slack(t, c) < 0
    ensures !Inv(t)
  {}

  // ----- the small swap -----

  lemma SmallIsSound()
    ensures NeverOverdrawn(Pools(6), PATH, SMALL)
  {
    var p1 := Pools(6)[AB := Amounts(15, 7)];
    var p2 := p1[BC := Amounts(4, 250)];
    FourSteps(Pools(6), SMALL, p1, p2, p2[AC := Amounts(1, 751)], B);
  }

  lemma SmallSettles()
    ensures Settle(Start(6), TRADER, PATH, SMALL).Some?
  {
    hide SwapByPath;
    var paid := Transfer(Books(6), A, TRADER, MODULE_ACCOUNT, 5);
    assert paid.Some? && Free(paid.value, B, MODULE_ACCOUNT) == 11 && Free(paid.value, B, TRADER) == 0;
  }

  /** Ten go into the first pool and six come out, where a single hop would have paid five. */
  lemma SmallIsUnfair()
    ensures FlowOf(PATH, SMALL, AB) == Flow(10, 0, 0, 6) && !FairTrade(Amounts(10, 10), Flow(10, 0, 0, 6))
  {
    SmallFlow();
    assert !GoodHop(10, 10, 10, 6);
  }

  lemma FlowOfFive(path: seq<CurrencyId>, v: seq<Balance>, p: TradingPair)
    requires |path| == |v| == 5
    ensures FlowOf(path, v, p)
            == PlusFlow(HopFlow(path[0], path[1], v[0], v[1], p), PlusFlow(HopFlow(path[1], path[2], v[1], v[2], p),
               PlusFlow(HopFlow(path[2], path[3], v[2], v[3], p), PlusFlow(HopFlow(path[3], path[4], v[3], v[4], p), Flow(0, 0, 0, 0)))))
  {
    hide FlowOf, HopFlow, PlusFlow;
    var path1, v1 := path[1..], v[1..];
    var path2, v2 := path1[1..], v1[1..];
    var path3, v3 := path2[1..], v2[1..];
    FlowUnfold(path, v, p);
    FlowUnfold(path1, v1, p);
    FlowUnfold(path2, v2, p);
    FlowUnfold(path3, v3, p);
    NoHopNoFlow(path3[1..], v3[1..], p);
  }

  lemma SmallFlow()
    ensures FlowOf(PATH, SMALL, AB) == Flow(10, 0, 0, 6)
  {
    SmallHopFlows();
    FlowOfFive(PATH, SMALL, AB);
    hide FlowOf, HopFlow;
  }

  lemma SmallHopFlows()
    ensures HopFlow(A, B, 5, 3, AB) == Flow(5, 0, 0, 3)
    ensures HopFlow(B, C, 3, 750, AB) == HopFlow(C, A, 750, 5, AB) == Flow(0, 0, 0, 0)
  {}

  const SWAP := SwapSupply(TRADER, PATH, 5, 0, None)

  /** Another accepted swap along the same path overdraws nothing, so custody is kept, but the
      shares of the first pair, all still outstanding, are worth less than before. */
  lemma RepeatedHopLosesValue()
    ensures Inv(Start(6)) && Legal(Start(6), SWAP) && Outstanding(Start(6), AB) == 10
    ensures SwapWithExactSupply(Start(6), TRADER, PATH, 5, 0, None).Ok? && Inv(Step(Start(6), SWAP))
    ensures !FairSwap(Start(6), SWAP, AB) && !StepValueKept(Start(6), Step(Start(6), SWAP), AB)
  {
    StartIsSound(6);
    PoolsOfStart(6);
    SmallQuote();
    SmallSettles();
    SmallIsSound();
    SmallIsUnfair();
    assert PoolOf(Pools(6), AB) == Amounts(10, 10);
    hide Inv, Settle, TargetAmounts, NeverOverdrawn, Slack, Start, Books, Pools, FlowOf, FairTrade, StepValueKept,
         Outstanding, PoolOf, PATH, SMALL;
    var s := Start(6);
    var t := Settle(s, TRADER, PATH, SMALL).value;
    SmallSwap(s, t);
    StepKeepsCustody(s, SWAP);
    SettledDiffers(s, t);
    SwapKeepsValueExactlyWhen(s, SWAP, AB);
  }

  lemma SmallSwap(s: State, t: State)
    requires TargetAmounts(s, PATH, 5, None) == Ok(SMALL) && Settle(s, TRADER, PATH, SMALL) == Some(t)
    requires NeverOverdrawn(s.pools, PATH, SMALL)
    ensures SwapWithExactSupply(s, TRADER, PATH, 5, 0, None).Ok? && Legal(s, SWAP) && Step(s, SWAP) == t
    ensures QuoteOf(s, SWAP) == Ok(SMALL)
    ensures FairSwap(s, SWAP, AB) <==> FairTrade(PoolOf(s.pools, AB), FlowOf(PATH, SMALL, AB))
  {
    hide Settle, TargetAmounts, NeverOverdrawn, FlowOf, FairTrade, PoolOf;
  }

  lemma SettledDiffers(s: State, t: State)
    requires s == Start(6) && Settle(s, TRADER, PATH, SMALL) == Some(t)
    ensures t != s
  {
    hide SwapByPath;
    var paid := Transfer(s.ledger, A, TRADER, MODULE_ACCOUNT, 5).value;
    assert Free(paid, A, TRADER) == 995;
    assert Free(t.ledger, A, TRADER) == 995;
  }
}
