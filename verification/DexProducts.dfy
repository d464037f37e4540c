/** What settling a path does to the product of each pool's reserves. Every hop is priced against
    the pools as they are before the swap; what counts for a pool is the net trade that goes through
    it along the whole path. */
module DexProducts {
  import opened Numbers
  import opened Currencies
  import opened Pricing
  import opened Dex
  import opened DexPaths
  import opened DexAccounts

  /** What a path pays into and draws from the two sides of one pair. */
  datatype Flow = Flow(inFst: nat, outFst: nat, inSnd: nat, outSnd: nat)

  function HopFlow(a: CurrencyId, b: CurrencyId, x: nat, y: nat, p: TradingPair): Flow {
    if NewPair(a, b) != p then Flow(0, 0, 0, 0)
    else if a == p.first then Flow(x, 0, 0, y)
    else Flow(0, y, x, 0)
  }

  function PlusFlow(f: Flow, g: Flow): Flow {
    Flow(f.inFst + g.inFst, f.outFst + g.outFst, f.inSnd + g.inSnd, f.outSnd + g.outSnd)
  }

  function FlowOf(path: seq<CurrencyId>, v: seq<Balance>, p: TradingPair): Flow
    requires |path| == |v|
    decreases |path|
  {
    if |path| < 2 then Flow(0, 0, 0, 0)
    else PlusFlow(HopFlow(path[0], path[1], v[0], v[1], p), FlowOf(path[1..], v[1..], p))
  }

  /** The pool gains on both sides, or the net trade through it is one that a single hop could have
      made without shrinking its product. */
  ghost predicate FairTrade(m: Amounts, f: Flow) {
    if f.inFst >= f.outFst then
      f.inSnd >= f.outSnd || GoodHop(m.fst, m.snd, f.inFst - f.outFst, f.outSnd - f.inSnd)
    else
      f.inSnd >= f.outSnd && GoodHop(m.snd, m.fst, f.inSnd - f.outSnd, f.outFst - f.inFst)
  }

  // ----- the pools after a path -----

  lemma HopMovesPool(pools: map<TradingPair, Amounts>, a: CurrencyId, b: CurrencyId, x: Balance, y: Balance,
                     p: TradingPair)
    requires Tradable(a) && Tradable(b)
    requires var l := GetLiquidity(pools, a, b); y <= l.snd && l.fst + x <= U128_MAX
    ensures var m, n, f := PoolOf(pools, p), PoolOf(SwapHop(pools, a, b, x, y), p), HopFlow(a, b, x, y, p);
            n.fst + f.outFst == m.fst + f.inFst && n.snd + f.outSnd == m.snd + f.inSnd
  {
    PairIsSymmetric(a, b);
  }

  /** A settled path moves each pool by exactly the flow through it. */
  lemma {:induction false} PathMovesPool(pools: map<TradingPair, Amounts>, path: seq<CurrencyId>, v: seq<Balance>,
                                         p: TradingPair)
    requires |path| == |v| && AllTradable(path) && NeverOverdrawn(pools, path, v) && Roomy(pools, path, v)
    ensures var m, n, f := PoolOf(pools, p), PoolOf(SwapByPath(pools, path, v), p), FlowOf(path, v, p);
            n.fst + f.outFst == m.fst + f.inFst && n.snd + f.outSnd == m.snd + f.inSnd
    decreases |path|
  {
    hide SwapHop, GetLiquidity, HopFlow, Tradable;
    if |path| > 1 {
      HopMovesPool(pools, path[0], path[1], v[0], v[1], p);
      PathMovesPool(FirstHop(pools, path, v), path[1..], v[1..], p);
    }
  }

  lemma FairTradeKeeps(m: Amounts, f: Flow, n: Amounts)
    requires n.fst + f.outFst == m.fst + f.inFst && n.snd + f.outSnd == m.snd + f.inSnd
    requires m.fst > 0 && m.snd > 0
    ensures Product(n) >= Product(m) <==> FairTrade(m, f)
  {
    MulLt(0, m.fst, m.snd);
    if f.inFst >= f.outFst && f.inSnd >= f.outSnd {
      MulLe(m.fst, n.fst, m.snd);
      MulLe(m.snd, n.snd, n.fst);
    } else if f.inFst < f.outFst && f.inSnd < f.outSnd {
      MulLe(n.fst, m.fst - 1, n.snd);
      MulLe(n.snd, m.snd, m.fst - 1);
    } else if n.fst == 0 || n.snd == 0 {
      assert Product(n) == 0;
    }
  }

  /** A settled path that overdraws nothing keeps the product of a pool exactly when the net trade
      through that pool is fair, which can be read off the quote. */
  lemma ProductKeptExactlyWhen(pools: map<TradingPair, Amounts>, path: seq<CurrencyId>, v: seq<Balance>, p: TradingPair)
    requires |path| == |v| && AllTradable(path) && NeverOverdrawn(pools, path, v) && Roomy(pools, path, v)
    requires PoolOf(pools, p).fst > 0 && PoolOf(pools, p).snd > 0
    ensures Product(PoolOf(SwapByPath(pools, path, v), p)) >= Product(PoolOf(pools, p))
            <==> FairTrade(PoolOf(pools, p), FlowOf(path, v, p))
  {
    hide Product;
    PathMovesPool(pools, path, v, p);
    FairTradeKeeps(PoolOf(pools, p), FlowOf(path, v, p), PoolOf(SwapByPath(pools, path, v), p));
  }

  /** Nothing flows through a pair that is not on the path. */
  lemma {:induction false} OffPathNothingFlows(path: seq<CurrencyId>, v: seq<Balance>, p: TradingPair)
    requires |path| == |v| && !OnPath(path, p)
    ensures FlowOf(path, v, p) == Flow(0, 0, 0, 0)
    decreases |path|
  {
    if |path| > 1 {
      OnPathSplit(path, p);
      OffPathNothingFlows(path[1..], v[1..], p);
    }
  }

  // ----- paths that repeat no hop -----

  lemma GoodHopAsShare(sp: nat, tp: nat, x: nat, y: nat)
    ensures GoodHop(sp, tp, x, y) <==> y < tp && y * (sp + x) <= x * tp
  {
    if y < tp { assert (sp + x) * (tp - y) == sp * tp + x * tp - y * (sp + x); }
  }

  /** A trade that was good stays good when there is less to pay into and more to draw on. */
  lemma GoodHopEasier(sp: nat, tp: nat, sp': nat, tp': nat, x: nat, y: nat)
    requires GoodHop(sp, tp, x, y) && sp' <= sp && tp <= tp'
    ensures GoodHop(sp', tp', x, y)
  {
    GoodHopAsShare(sp, tp, x, y);
    GoodHopAsShare(sp', tp', x, y);
    MulLe(sp' + x, sp + x, y);
    MulLe(tp, tp', x);
  }

  lemma RestIsGood(pools: map<TradingPair, Amounts>, path: seq<CurrencyId>, v: seq<Balance>)
    requires |path| == |v| > 1 && AllTradable(path) && DirectedOnce(path)
    requires CoveredHops(pools, path, v) && GoodHops(pools, path, v)
    ensures GoodHops(FirstHop(pools, path, v), path[1..], v[1..])
  {
    hide SwapHop, GetLiquidity, Tradable, GoodHop;
    var mid, rest, w := FirstHop(pools, path, v), path[1..], v[1..];
    forall i | 0 <= i < |rest| - 1
      ensures var l := GetLiquidity(mid, rest[i], rest[i + 1]); GoodHop(l.fst, l.snd, w[i], w[i + 1])
    {
      assert !SameHop(path, 0, i + 1);
      OtherHopsGain(pools, path[0], path[1], v[0], v[1], path[i + 1], path[i + 2]);
      var l, m := GetLiquidity(pools, path[i + 1], path[i + 2]), GetLiquidity(mid, rest[i], rest[i + 1]);
      GoodHopEasier(l.fst, l.snd, m.fst, m.snd, v[i + 1], v[i + 2]);
    }
  }

  lemma FirstHopKeepsProduct(pools: map<TradingPair, Amounts>, path: seq<CurrencyId>, v: seq<Balance>, p: TradingPair)
    requires |path| == |v| > 1 && AllTradable(path) && CoveredHops(pools, path, v) && GoodHops(pools, path, v)
    requires GetLiquidity(pools, path[0], path[1]).fst + v[0] <= U128_MAX
    ensures var m, n := PoolOf(pools, p), PoolOf(FirstHop(pools, path, v), p);
            if Hop(path, 0) == p then n.fst > 0 && n.snd > 0 && Product(n) >= Product(m) else n == m
  {
    var l := GetLiquidity(pools, path[0], path[0 + 1]);
    assert l.fst > 0 && v[0 + 1] < l.snd && GoodHop(l.fst, l.snd, v[0], v[0 + 1]);
    SwapHopPool(pools, path[0], path[1], v[0], v[1]);
  }

  /** Settling a path that repeats no hop keeps every touched pool's reserves positive and shrinks
      no product, whatever else the path does; untouched pools stay as they are. */
  lemma {:induction false} DirectedOnceKeepsProducts(pools: map<TradingPair, Amounts>, path: seq<CurrencyId>,
                                                     v: seq<Balance>, p: TradingPair)
    requires |path| == |v| && AllTradable(path) && DirectedOnce(path) && Roomy(pools, path, v)
    requires CoveredHops(pools, path, v) && GoodHops(pools, path, v)
    ensures KeepsProduct(pools, path, v, p)
    decreases |path|
  {
    hide SwapHop, GetLiquidity, Tradable, DirectedOnce, CoveredHops, GoodHops, OnPath, Product;
    if |path| > 1 {
      FirstHopKeepsProduct(pools, path, v, p);
      RestIsCovered(pools, path, v);
      RestIsGood(pools, path, v);
      RestIsDirectedOnce(path);
      OnPathSplit(path, p);
      DirectedOnceKeepsProducts(FirstHop(pools, path, v), path[1..], v[1..], p);
    } else {
      TooShort(path, p);
    }
  }

  lemma TooShort(path: seq<CurrencyId>, p: TradingPair)
    requires |path| <= 1
    ensures !OnPath(path, p)
  {}

  ghost predicate KeepsProduct(pools: map<TradingPair, Amounts>, path: seq<CurrencyId>, v: seq<Balance>, p: TradingPair)
    requires |path| == |v|
  {
    var m, n := PoolOf(pools, p), PoolOf(SwapByPath(pools, path, v), p);
    if OnPath(path, p) then n.fst > 0 && n.snd > 0 && Product(n) >= Product(m) else n == m
  }

  /** Going there, back and there again: what comes back does not exceed what was paid. */
  lemma ThreeGoodHops(a: nat, b: nat, x: nat, y: nat, z: nat, w: nat)
    requires GoodHop(a, b, x, y) && GoodHop(b, a, y, z) && GoodHop(a, b, z, w)
    ensures w < b && a * b <= (a + x) * (b - w)
  {
    GoodHopAsShare(a, b, x, y);
    GoodHopAsShare(b, a, y, z);
    assert z <= x by {
      assert z * (b + y) <= x * (b + y) by {
        assert y * a <= x * (b - y);
        MulLe(b - y, b + y, x);
      }
      MulCancelLe(z, x, b + y);
    }
    MulLe(a + z, a + x, b - w);
  }

  lemma ThreeHopFlows(a: CurrencyId, b: CurrencyId, p: TradingPair, x: nat, y: nat, z: nat, w: nat)
    requires a != b
    ensures PlusFlow(HopFlow(a, b, x, y, p), PlusFlow(HopFlow(b, a, y, z, p), HopFlow(a, b, z, w, p)))
            == if NewPair(a, b) != p then Flow(0, 0, 0, 0)
               else if a == p.first then Flow(x + z, z, y, y + w) else Flow(y, y + w, x + z, z)
  {
    PairIsSymmetric(a, b);
    hide Before;
  }

  lemma FlowUnfold(path: seq<CurrencyId>, v: seq<Balance>, p: TradingPair)
    requires |path| == |v| >= 2
    ensures FlowOf(path, v, p) == PlusFlow(HopFlow(path[0], path[1], v[0], v[1], p), FlowOf(path[1..], v[1..], p))
  {}

  lemma FourFlow(a: CurrencyId, b: CurrencyId, v: seq<Balance>, p: TradingPair, x: nat, y: nat, z: nat, w: nat)
    requires a != b && |v| == 4 && v[0] == x && v[1] == y && v[2] == z && v[3] == w
    ensures FlowOf([a, b, a, b], v, p)
            == if NewPair(a, b) != p then Flow(0, 0, 0, 0)
               else if a == p.first then Flow(x + z, z, y, y + w) else Flow(y, y + w, x + z, z)
  {
    hide HopFlow, NewPair, FlowOf;
    var path := [a, b, a, b];
    var path1, v1 := path[1..], v[1..];
    var path2, v2 := path1[1..], v1[1..];
    FlowUnfold(path, v, p);
    FlowUnfold(path1, v1, p);
    FlowUnfold(path2, v2, p);
    NoHopNoFlow(path2[1..], v2[1..], p);
    ThreeHopFlows(a, b, p, x, y, z, w);
  }

  lemma NoHopNoFlow(path: seq<CurrencyId>, v: seq<Balance>, p: TradingPair)
    requires |path| == |v| < 2
    ensures FlowOf(path, v, p) == Flow(0, 0, 0, 0)
  {}

  lemma FourHops(pools: map<TradingPair, Amounts>, a: CurrencyId, b: CurrencyId, v: seq<Balance>)
    requires a != b && |v| == 4 && CoveredHops(pools, [a, b, a, b], v) && GoodHops(pools, [a, b, a, b], v)
    ensures var l := GetLiquidity(pools, a, b);
            && l.fst > 0 && v[3] < l.snd
            && l.fst * l.snd <= (l.fst + v[0]) * (l.snd - v[3])
  {
    var path := [a, b, a, b];
    var l, back := GetLiquidity(pools, path[0], path[0 + 1]), GetLiquidity(pools, path[1], path[1 + 1]);
    PairIsSymmetric(a, b);
    assert GetLiquidity(pools, path[2], path[2 + 1]) == l;
    assert l.fst > 0 && GoodHop(l.fst, l.snd, v[0], v[0 + 1]) && GoodHop(back.fst, back.snd, v[1], v[1 + 1]);
    assert GoodHop(l.fst, l.snd, v[2], v[2 + 1]);
    assert back == Amounts(l.snd, l.fst);
    ThreeGoodHops(l.fst, l.snd, v[0], v[1], v[2], v[3]);
  }

  lemma ThereBackAndThereKeepsProduct(pools: map<TradingPair, Amounts>, a: CurrencyId, b: CurrencyId, v: seq<Balance>,
                                      p: TradingPair)
    requires Tradable(a) && Tradable(b) && a != b && |v| == 4 && Roomy(pools, [a, b, a, b], v)
    requires CoveredHops(pools, [a, b, a, b], v) && GoodHops(pools, [a, b, a, b], v)
    ensures KeepsProduct(pools, [a, b, a, b], v, p)
  {
    hide Roomy, NeverOverdrawn, SwapByPath, FlowOf, CoveredHops, GoodHops;
    var path := [a, b, a, b];
    ThereBackAndThere(pools, a, b, v);
    PathMovesPool(pools, path, v, p);
    FourFlow(a, b, v, p, v[0], v[1], v[2], v[3]);
    FourHops(pools, a, b, v);
    OnFourPath(a, b, p);
  }

  lemma OnFourPath(a: CurrencyId, b: CurrencyId, p: TradingPair)
    ensures OnPath([a, b, a, b], p) <==> NewPair(a, b) == p
  {
    PairIsSymmetric(a, b);
    assert Hop([a, b, a, b], 0) == NewPair(a, b);
  }

  /** So does every path of at most four currencies with distinct neighbours. */
  lemma UnrepeatedKeepsProducts(pools: map<TradingPair, Amounts>, path: seq<CurrencyId>, v: seq<Balance>,
                                p: TradingPair)
    requires |path| == |v| && AllTradable(path) && Unrepeated(path) && Roomy(pools, path, v)
    requires CoveredHops(pools, path, v) && GoodHops(pools, path, v)
    ensures KeepsProduct(pools, path, v, p)
  {
    if DirectedOnce(path) {
      DirectedOnceKeepsProducts(pools, path, v, p);
    } else {
      RepeatedShortPath(path);
      ThereBackAndThereKeepsProduct(pools, path[0], path[1], v, p);
    }
  }
}
