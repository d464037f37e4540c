/** Multi-hop paths: quoting forwards and backwards agree, and settling a quoted path moves
    value through the pools without shrinking any of them and without losing any of it. */
module DexPaths {
  import opened Numbers
  import opened Wrappers
  import opened Currencies
  import opened Pricing
  import opened MapSums
  import opened Dex

  // ----- quotes, hop by hop -----

  ghost predicate TargetHops(s: State, path: seq<CurrencyId>, v: seq<Balance>, limit: Option<Balance>) {
    |path| == |v|
    && forall i :: 0 <= i < |path| - 1 ==> TargetOfHop(s, path[i], path[i + 1], v[i], limit) == Ok(v[i + 1])
  }

  ghost predicate SupplyHops(s: State, path: seq<CurrencyId>, v: seq<Balance>, limit: Option<Balance>) {
    |path| == |v|
    && forall i :: 0 <= i < |path| - 1 ==> SupplyOfHop(s, path[i], path[i + 1], v[i + 1], limit) == Ok(v[i])
  }

  lemma {:induction false} TargetsAlongHops(s: State, path: seq<CurrencyId>, x: Balance, limit: Option<Balance>)
    requires path != [] && TargetsAlong(s, path, x, limit).Ok?
    ensures TargetHops(s, path, TargetsAlong(s, path, x, limit).value, limit)
  {
    if |path| > 1 {
      TargetsAlongHops(s, path[1..], TargetOfHop(s, path[0], path[1], x, limit).value, limit);
      var v := TargetsAlong(s, path, x, limit).value;
      assert v[1..] == TargetsAlong(s, path[1..], v[1], limit).value;
      forall i | 0 <= i < |path| - 1
        ensures TargetOfHop(s, path[i], path[i + 1], v[i], limit) == Ok(v[i + 1])
      {
        if i > 0 { assert path[i] == path[1..][i - 1] && v[i] == v[1..][i - 1]; }
      }
    }
  }

  lemma {:induction false} SuppliesAlongHops(s: State, path: seq<CurrencyId>, t: Balance, limit: Option<Balance>)
    requires path != [] && SuppliesAlong(s, path, t, limit).Ok?
    ensures SupplyHops(s, path, SuppliesAlong(s, path, t, limit).value, limit)
  {
    var n := |path|;
    if n > 1 {
      var x := SupplyOfHop(s, path[n - 2], path[n - 1], t, limit).value;
      SuppliesAlongHops(s, path[..n - 1], x, limit);
      var v := SuppliesAlong(s, path, t, limit).value;
      assert v[..n - 1] == SuppliesAlong(s, path[..n - 1], x, limit).value;
      forall i | 0 <= i < n - 1
        ensures SupplyOfHop(s, path[i], path[i + 1], v[i + 1], limit) == Ok(v[i])
      {
        if i < n - 2 { assert path[i] == path[..n - 1][i] && v[i] == v[..n - 1][i]; }
      }
    }
  }

  /** Every quoted target is reachable from its pool. */
  ghost predicate AllReachable(s: State, path: seq<CurrencyId>, v: seq<Balance>) {
    |path| == |v|
    && forall i :: 0 <= i < |path| - 1 ==>
         var l := GetLiquidity(s.pools, path[i], path[i + 1]); Reachable(s.fee, l.fst, l.snd, v[i + 1])
  }

  lemma {:induction false} TargetsReach(s: State, path: seq<CurrencyId>, v: seq<Balance>, limit: Option<Balance>,
                                        x: Balance)
    requires path != [] && SupplyHops(s, path, v, limit) && AllReachable(s, path, v)
    requires x >= v[0]
    ensures TargetsAlong(s, path, x, None).Ok?
    ensures TargetsAlong(s, path, x, None).value[|path| - 1] >= v[|path| - 1]
    decreases |path|
  {
    if |path| > 1 {
      assert SupplyOfHop(s, path[0], path[1], v[1], limit) == Ok(v[0]);
      var l := GetLiquidity(s.pools, path[0], path[1]);
      var y := GetTargetAmount(s.fee, l.fst, l.snd, x);
      assert y >= v[1] by {
        SupplyAmountSufficesExactlyWhen(s.fee, l.fst, l.snd, v[1]);
        TargetAmountMonotone(s.fee, l.fst, l.snd, v[0], x);
      }
      assert v[1] > 0;
      var rest, w := path[1..], v[1..];
      assert SupplyHops(s, rest, w, limit) && AllReachable(s, rest, w) by {
        forall i | 0 <= i < |rest| - 1
          ensures SupplyOfHop(s, rest[i], rest[i + 1], w[i + 1], limit) == Ok(w[i])
          ensures var m := GetLiquidity(s.pools, rest[i], rest[i + 1]); Reachable(s.fee, m.fst, m.snd, w[i + 1])
        {
          assert SupplyOfHop(s, path[i + 1], path[i + 2], v[i + 2], limit) == Ok(v[i + 1]);
        }
      }
      TargetsReach(s, rest, w, limit, y);
    }
  }

  /** Round trip over any path: supplying what was quoted for a target, with no impact limit,
      succeeds and yields at least that target. The converse fails for paths of more than one hop:
      the unit that one quote adds can make up for a unit by which an earlier hop falls short. */
  lemma QuotedSupplyReachesTarget(s: State, path: seq<CurrencyId>, t: Balance, limit: Option<Balance>)
    requires SupplyAmounts(s, path, t, limit).Ok?
    requires AllReachable(s, path, SupplyAmounts(s, path, t, limit).value)
    ensures var x := SupplyAmounts(s, path, t, limit).value[0];
            TargetAmounts(s, path, x, None).Ok? && TargetAmounts(s, path, x, None).value[|path| - 1] >= t
  {
    SuppliesAlongHops(s, path, t, limit);
    var v := SupplyAmounts(s, path, t, limit).value;
    TargetsReach(s, path, v, limit, v[0]);
  }

  /** A target that is not reachable from the last pool never arrives, whatever is supplied. */
  lemma UnreachableNeverArrives(s: State, path: seq<CurrencyId>, x: Balance, t: Balance, limit: Option<Balance>)
    requires TargetAmounts(s, path, x, limit).Ok? && t > 0
    requires var l := GetLiquidity(s.pools, path[|path| - 2], path[|path| - 1]); !Reachable(s.fee, l.fst, l.snd, t)
    ensures TargetAmounts(s, path, x, limit).value[|path| - 1] < t
  {
    TargetsAlongHops(s, path, x, limit);
    var v, n := TargetAmounts(s, path, x, limit).value, |path|;
    assert TargetOfHop(s, path[n - 2], path[n - 2 + 1], v[n - 2], limit) == Ok(v[n - 1]);
    if v[n - 1] >= t {
      var l := GetLiquidity(s.pools, path[n - 2], path[n - 1]);
      ReachedIsReachable(s.fee, l.fst, l.snd, v[n - 2], t);
    }
  }

  /** Over a single hop the round trip succeeds exactly when the target is reachable. */
  lemma OneHopRoundTripExactlyWhen(s: State, path: seq<CurrencyId>, t: Balance, limit: Option<Balance>)
    requires |path| == 2 && SupplyAmounts(s, path, t, limit).Ok?
    ensures var x := SupplyAmounts(s, path, t, limit).value[0];
            (TargetAmounts(s, path, x, None).Ok? && TargetAmounts(s, path, x, None).value[1] >= t)
            <==> AllReachable(s, path, SupplyAmounts(s, path, t, limit).value)
  {
    var v := SupplyAmounts(s, path, t, limit).value;
    SuppliesAlongHops(s, path, t, limit);
    assert SupplyOfHop(s, path[0], path[0 + 1], v[1], limit) == Ok(v[0]);
    var l := GetLiquidity(s.pools, path[0], path[1]);
    if Reachable(s.fee, l.fst, l.snd, v[1]) {
      QuotedSupplyReachesTarget(s, path, t, limit);
    } else if TargetAmounts(s, path, v[0], None).Ok? {
      UnreachableNeverArrives(s, path, v[0], t, None);
    }
  }

  // ----- settling a path -----

  function Hop(path: seq<CurrencyId>, i: nat): TradingPair
    requires i + 1 < |path|
  {
    NewPair(path[i], path[i + 1])
  }

  ghost predicate AllTradable(path: seq<CurrencyId>) {
    forall i :: 0 <= i < |path| ==> Tradable(path[i])
  }

  /** Every hop pays out less than its pool holds. */
  ghost predicate CoveredHops(pools: map<TradingPair, Amounts>, path: seq<CurrencyId>, v: seq<Balance>) {
    |path| == |v|
    && forall i :: 0 <= i < |path| - 1 ==>
         var l := GetLiquidity(pools, path[i], path[i + 1]);
         l.fst > 0 && v[i + 1] < l.snd
  }

  /** Every hop keeps the product of its reserves. */
  ghost predicate GoodHops(pools: map<TradingPair, Amounts>, path: seq<CurrencyId>, v: seq<Balance>) {
    |path| == |v|
    && forall i :: 0 <= i < |path| - 1 ==>
         var l := GetLiquidity(pools, path[i], path[i + 1]);
         GoodHop(l.fst, l.snd, v[i], v[i + 1])
  }

  /** How much of currency `c` an amount of each side of pair `p` contains. */
  function Part(p: TradingPair, m: Amounts, c: CurrencyId): nat {
    (if p.first == c then m.fst else 0) + (if p.second == c then m.snd else 0)
  }

  ghost function Reserves(pools: map<TradingPair, Amounts>, c: CurrencyId): nat {
    Sum(map p | p in pools :: Part(p, pools[p], c))
  }

  lemma ReservesUpdate(pools: map<TradingPair, Amounts>, p: TradingPair, m: Amounts, c: CurrencyId)
    ensures Reserves(pools[p := m], c) + Part(p, PoolOf(pools, p), c) == Reserves(pools, c) + Part(p, m, c)
  {
    var parts := map q | q in pools :: Part(q, pools[q], c);
    SumUpdate(parts, p, Part(p, m, c));
    var after := pools[p := m];
    assert (map q | q in after :: Part(q, after[q], c)) == parts[p := Part(p, m, c)];
  }

  lemma ReservesAtLeast(pools: map<TradingPair, Amounts>, p: TradingPair, c: CurrencyId)
    ensures Part(p, PoolOf(pools, p), c) <= Reserves(pools, c)
  {
    var parts := map q | q in pools :: Part(q, pools[q], c);
    if p in pools { SumAtLeast(parts, p); }
  }

  function Carried(a: CurrencyId, x: nat, c: CurrencyId): nat { if a == c then x else 0 }

  /** One hop changes its own pool only and keeps both reserves positive. */
  lemma SwapHopPool(pools: map<TradingPair, Amounts>, a: CurrencyId, b: CurrencyId, x: Balance, y: Balance)
    requires Tradable(a) && Tradable(b)
    requires var l := GetLiquidity(pools, a, b); l.fst > 0 && y < l.snd && l.fst + x <= U128_MAX
    ensures var p, after := NewPair(a, b), SwapHop(pools, a, b, x, y);
            && p in after && after == pools[p := after[p]]
            && after[p].fst > 0 && after[p].snd > 0
            && (var l := GetLiquidity(pools, a, b);
                GoodHop(l.fst, l.snd, x, y) ==> Product(after[p]) >= Product(PoolOf(pools, p)))
            && forall c :: Part(p, after[p], c) + Carried(b, y, c) == Part(p, PoolOf(pools, p), c) + Carried(a, x, c)
  {
    PairIsSymmetric(a, b);
    var p := NewPair(a, b);
    var was, now := PoolOf(pools, p), SwapHop(pools, a, b, x, y)[p];
    if a == p.first {
      assert now == Amounts(was.fst + x, was.snd - y);
    } else {
      assert now == Amounts(was.fst - y, was.snd + x);
      assert Product(now) == (was.snd + x) * (was.fst - y);
    }
  }

  function FirstHop(pools: map<TradingPair, Amounts>, path: seq<CurrencyId>, v: seq<Balance>): map<TradingPair, Amounts>
    requires |path| == |v| >= 2
  {
    SwapHop(pools, path[0], path[1], v[0], v[1])
  }

  ghost predicate OnPath(path: seq<CurrencyId>, p: TradingPair) {
    exists i :: 0 <= i < |path| - 1 && Hop(path, i) == p
  }

  lemma OnPathSplit(path: seq<CurrencyId>, p: TradingPair)
    requires |path| > 1
    ensures OnPath(path, p) <==> Hop(path, 0) == p || OnPath(path[1..], p)
  {
    var rest := path[1..];
    assert forall i :: 0 <= i < |rest| - 1 ==> Hop(rest, i) == Hop(path, i + 1);
    if OnPath(path, p) {
      var i :| 0 <= i < |path| - 1 && Hop(path, i) == p;
      if i > 0 { assert Hop(rest, i - 1) == p; }
    }
  }

  // ----- quoted paths consist of good hops -----

  lemma TargetQuoteIsGood(s: State, path: seq<CurrencyId>, x: Balance, limit: Option<Balance>)
    requires TargetAmounts(s, path, x, limit).Ok?
    ensures var v := TargetAmounts(s, path, x, limit).value;
            CoveredHops(s.pools, path, v) && GoodHops(s.pools, path, v)
  {
    hide GetTargetAmount, GoodHop;
    var v := TargetAmounts(s, path, x, limit).value;
    TargetsAlongHops(s, path, x, limit);
    forall i | 0 <= i < |path| - 1
      ensures var l := GetLiquidity(s.pools, path[i], path[i + 1]);
              l.fst > 0 && v[i + 1] < l.snd && GoodHop(l.fst, l.snd, v[i], v[i + 1])
    {
      assert TargetOfHop(s, path[i], path[i + 1], v[i], limit) == Ok(v[i + 1]);
      var l := GetLiquidity(s.pools, path[i], path[i + 1]);
      TargetAmountKeepsProduct(s.fee, l.fst, l.snd, v[i]);
    }
  }

  lemma SupplyQuoteIsCovered(s: State, path: seq<CurrencyId>, t: Balance, limit: Option<Balance>)
    requires SupplyAmounts(s, path, t, limit).Ok?
    ensures CoveredHops(s.pools, path, SupplyAmounts(s, path, t, limit).value)
  {
    var v := SupplyAmounts(s, path, t, limit).value;
    SuppliesAlongHops(s, path, t, limit);
    forall i | 0 <= i < |path| - 1
      ensures var l := GetLiquidity(s.pools, path[i], path[i + 1]); l.fst > 0 && v[i + 1] < l.snd
    {
      assert SupplyOfHop(s, path[i], path[i + 1], v[i + 1], limit) == Ok(v[i]);
      var l := GetLiquidity(s.pools, path[i], path[i + 1]);
      if v[i + 1] >= l.snd { SupplyAmountOfTooMuchIsZero(s.fee, l.fst, l.snd, v[i + 1]); }
    }
  }

  /** Every hop of an exact-target quote is charged in full. */
  ghost predicate AllChargedInFull(s: State, path: seq<CurrencyId>, v: seq<Balance>) {
    |path| == |v|
    && forall i :: 0 <= i < |path| - 1 ==>
         var l := GetLiquidity(s.pools, path[i], path[i + 1]); ChargedInFull(s.fee, l.fst, l.snd, v[i + 1])
  }

  /** The hops of an exact-target quote keep the products of their pools exactly when each is charged
      in full. */
  lemma SupplyQuoteIsGoodExactlyWhen(s: State, path: seq<CurrencyId>, t: Balance, limit: Option<Balance>)
    requires SupplyAmounts(s, path, t, limit).Ok?
    ensures var v := SupplyAmounts(s, path, t, limit).value;
            GoodHops(s.pools, path, v) <==> AllChargedInFull(s, path, v)
  {
    hide GetSupplyAmount, GoodHop, ChargedInFull;
    var v := SupplyAmounts(s, path, t, limit).value;
    SuppliesAlongHops(s, path, t, limit);
    forall i | 0 <= i < |path| - 1
      ensures var l := GetLiquidity(s.pools, path[i], path[i + 1]);
              GoodHop(l.fst, l.snd, v[i], v[i + 1]) <==> ChargedInFull(s.fee, l.fst, l.snd, v[i + 1])
    {
      assert SupplyOfHop(s, path[i], path[i + 1], v[i + 1], limit) == Ok(v[i]);
      var l := GetLiquidity(s.pools, path[i], path[i + 1]);
      SupplyAmountKeepsProductExactlyWhen(s.fee, l.fst, l.snd, v[i + 1]);
    }
  }

  /** Pairs used by a quote are enabled. */
  lemma TargetQuoteUsesEnabled(s: State, path: seq<CurrencyId>, x: Balance, limit: Option<Balance>, i: nat)
    requires TargetAmounts(s, path, x, limit).Ok? && i + 1 < |path|
    ensures StatusOf(s, Hop(path, i)) == Enabled
  {
    TargetsAlongHops(s, path, x, limit);
    var v := TargetAmounts(s, path, x, limit).value;
    assert TargetOfHop(s, path[i], path[i + 1], v[i], limit) == Ok(v[i + 1]);
  }

  lemma SupplyQuoteUsesEnabled(s: State, path: seq<CurrencyId>, x: Balance, limit: Option<Balance>, i: nat)
    requires SupplyAmounts(s, path, x, limit).Ok? && i + 1 < |path|
    ensures StatusOf(s, Hop(path, i)) == Enabled
  {
    SuppliesAlongHops(s, path, x, limit);
    var v := SupplyAmounts(s, path, x, limit).value;
    assert SupplyOfHop(s, path[i], path[i + 1], v[i + 1], limit) == Ok(v[i]);
  }
}
