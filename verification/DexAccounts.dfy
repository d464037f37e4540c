/** What settling a path does to the reserves when a pool is drawn on more than once. The amounts
    are quoted from the pools as they are before the swap and reserves are subtracted with
    saturation, so a pool that runs dry on the way gives up less than is paid out. */
module DexAccounts {
  import opened Numbers
  import opened Currencies
  import opened MapSums
  import opened Pricing
  import opened Dex
  import opened DexPaths

  /** Every hop finds its payment in the pool as it is by then. */
  predicate NeverOverdrawn(pools: map<TradingPair, Amounts>, path: seq<CurrencyId>, v: seq<Balance>)
    requires |path| == |v|
    decreases |path|
  {
    |path| < 2 || (v[1] <= GetLiquidity(pools, path[0], path[1]).snd
                   && NeverOverdrawn(FirstHop(pools, path, v), path[1..], v[1..]))
  }

  /** No reserve grows beyond 128 bits on the way. */
  predicate Roomy(pools: map<TradingPair, Amounts>, path: seq<CurrencyId>, v: seq<Balance>)
    requires |path| == |v|
    decreases |path|
  {
    |path| < 2 || (GetLiquidity(pools, path[0], path[1]).fst + v[0] <= U128_MAX
                   && Roomy(FirstHop(pools, path, v), path[1..], v[1..]))
  }

  /** How much of `c` is paid out along the way without being in the pools. */
  function Overdraft(pools: map<TradingPair, Amounts>, path: seq<CurrencyId>, v: seq<Balance>, c: CurrencyId): nat
    requires |path| == |v|
    decreases |path|
  {
    if |path| < 2 then 0
    else Carried(path[1], SatSub(v[1], GetLiquidity(pools, path[0], path[1]).snd), c)
         + Overdraft(FirstHop(pools, path, v), path[1..], v[1..], c)
  }

  /** One step of the three. */
  lemma FirstStep(pools: map<TradingPair, Amounts>, path: seq<CurrencyId>, v: seq<Balance>, c: CurrencyId)
    requires |path| == |v| >= 2
    ensures var l, mid := GetLiquidity(pools, path[0], path[1]), FirstHop(pools, path, v);
            && (NeverOverdrawn(pools, path, v) <==> v[1] <= l.snd && NeverOverdrawn(mid, path[1..], v[1..]))
            && (Roomy(pools, path, v) <==> l.fst + v[0] <= U128_MAX && Roomy(mid, path[1..], v[1..]))
            && Overdraft(pools, path, v, c) == Carried(path[1], SatSub(v[1], l.snd), c) + Overdraft(mid, path[1..], v[1..], c)
  {}

  lemma NoStep(pools: map<TradingPair, Amounts>, path: seq<CurrencyId>, v: seq<Balance>, c: CurrencyId)
    requires |path| == |v| < 2
    ensures NeverOverdrawn(pools, path, v) && Roomy(pools, path, v) && Overdraft(pools, path, v, c) == 0
  {}

  lemma HopParts(pools: map<TradingPair, Amounts>, a: CurrencyId, b: CurrencyId, x: Balance, y: Balance, c: CurrencyId)
    requires Tradable(a) && Tradable(b) && GetLiquidity(pools, a, b).fst + x <= U128_MAX
    ensures var p, after := NewPair(a, b), SwapHop(pools, a, b, x, y);
            && p in after && after == pools[p := after[p]]
            && Part(p, after[p], c) + Carried(b, y, c)
               == Part(p, PoolOf(pools, p), c) + Carried(a, x, c) + Carried(b, SatSub(y, GetLiquidity(pools, a, b).snd), c)
  {
    PairIsSymmetric(a, b);
  }

  lemma HopAccounts(pools: map<TradingPair, Amounts>, a: CurrencyId, b: CurrencyId, x: Balance, y: Balance,
                    c: CurrencyId)
    requires Tradable(a) && Tradable(b) && GetLiquidity(pools, a, b).fst + x <= U128_MAX
    ensures Reserves(SwapHop(pools, a, b, x, y), c) + Carried(b, y, c)
            == Reserves(pools, c) + Carried(a, x, c) + Carried(b, SatSub(y, GetLiquidity(pools, a, b).snd), c)
  {
    HopParts(pools, a, b, x, y, c);
    var p, after := NewPair(a, b), SwapHop(pools, a, b, x, y);
    ReservesUpdate(pools, p, after[p], c);
  }

  /** Along any path the reserves give up exactly what leaves at the end, less what is overdrawn. */
  lemma {:induction false} PathAccounts(pools: map<TradingPair, Amounts>, path: seq<CurrencyId>, v: seq<Balance>,
                                        c: CurrencyId)
    requires 0 < |path| == |v| && AllTradable(path) && Roomy(pools, path, v)
    ensures Reserves(SwapByPath(pools, path, v), c) + Carried(path[|path| - 1], v[|path| - 1], c)
            == Reserves(pools, c) + Carried(path[0], v[0], c) + Overdraft(pools, path, v, c)
    decreases |path|
  {
    hide SwapHop, Reserves, GetLiquidity, Tradable;
    if |path| > 1 {
      HopAccounts(pools, path[0], path[1], v[0], v[1], c);
      PathAccounts(FirstHop(pools, path, v), path[1..], v[1..], c);
    }
  }

  lemma {:induction false} SoundHasNoOverdraft(pools: map<TradingPair, Amounts>, path: seq<CurrencyId>,
                                               v: seq<Balance>, c: CurrencyId)
    requires |path| == |v| && NeverOverdrawn(pools, path, v)
    ensures Overdraft(pools, path, v, c) == 0
    decreases |path|
  {
    hide SwapHop, GetLiquidity;
    if |path| > 1 { SoundHasNoOverdraft(FirstHop(pools, path, v), path[1..], v[1..], c); }
  }

  lemma {:induction false} NoOverdraftIsSound(pools: map<TradingPair, Amounts>, path: seq<CurrencyId>, v: seq<Balance>)
    requires |path| == |v| && forall c :: Overdraft(pools, path, v, c) == 0
    ensures NeverOverdrawn(pools, path, v)
    decreases |path|
  {
    hide SwapHop, GetLiquidity;
    if |path| > 1 {
      var mid := FirstHop(pools, path, v);
      assert Overdraft(pools, path, v, path[1]) == 0;
      forall c ensures Overdraft(mid, path[1..], v[1..], c) == 0 { assert Overdraft(pools, path, v, c) == 0; }
      NoOverdraftIsSound(mid, path[1..], v[1..]);
    }
  }

  /** What comes in fits beside the reserves. */
  ghost predicate Fits(pools: map<TradingPair, Amounts>, a: CurrencyId, x: Balance) {
    forall c :: Reserves(pools, c) + Carried(a, x, c) <= U128_MAX
  }

  lemma HopFits(pools: map<TradingPair, Amounts>, a: CurrencyId, b: CurrencyId, x: Balance, y: Balance)
    requires Tradable(a) && Tradable(b) && Fits(pools, a, x) && y <= GetLiquidity(pools, a, b).snd
    ensures GetLiquidity(pools, a, b).fst + x <= U128_MAX && Fits(SwapHop(pools, a, b, x, y), b, y)
  {
    hide Reserves, SwapHop;
    PairIsSymmetric(a, b);
    ReservesAtLeast(pools, NewPair(a, b), a);
    assert Reserves(pools, a) + Carried(a, x, a) <= U128_MAX;
    forall c ensures Reserves(SwapHop(pools, a, b, x, y), c) + Carried(b, y, c) <= U128_MAX {
      HopAccounts(pools, a, b, x, y, c);
    }
  }

  /** Without overdrafts no reserve can outgrow 128 bits. */
  lemma {:induction false} SoundPathsAreRoomy(pools: map<TradingPair, Amounts>, path: seq<CurrencyId>, v: seq<Balance>)
    requires 0 < |path| == |v| && AllTradable(path) && NeverOverdrawn(pools, path, v) && Fits(pools, path[0], v[0])
    ensures Roomy(pools, path, v)
    decreases |path|
  {
    hide SwapHop, GetLiquidity, Fits, Tradable;
    if |path| > 1 {
      HopFits(pools, path[0], path[1], v[0], v[1]);
      SoundPathsAreRoomy(FirstHop(pools, path, v), path[1..], v[1..]);
    }
  }

  // ----- which paths are never overdrawn -----

  predicate SameHop(path: seq<CurrencyId>, i: nat, j: nat)
    requires i + 1 < |path| && j + 1 < |path|
  {
    path[i] == path[j] && path[i + 1] == path[j + 1]
  }

  /** No hop is taken twice in the same direction. */
  ghost predicate DirectedOnce(path: seq<CurrencyId>) {
    forall i, j :: 0 <= i < j < |path| - 1 ==> !SameHop(path, i, j)
  }

  /** A hop leaves at least as much to draw on, and no more to be paid into, for every hop but a
      repetition of itself. */
  lemma OtherHopsGain(pools: map<TradingPair, Amounts>, a: CurrencyId, b: CurrencyId, x: Balance, y: Balance,
                      a': CurrencyId, b': CurrencyId)
    requires Tradable(a) && Tradable(b) && (a' != a || b' != b) && y < GetLiquidity(pools, a, b).snd
    ensures var l, m := GetLiquidity(pools, a', b'), GetLiquidity(SwapHop(pools, a, b, x, y), a', b');
            m.snd >= l.snd && m.fst <= l.fst && (l.fst > 0 ==> m.fst > 0)
  {
    PairIsSymmetric(a, b);
    PairIsSymmetric(a', b');
  }

  lemma RestIsCovered(pools: map<TradingPair, Amounts>, path: seq<CurrencyId>, v: seq<Balance>)
    requires |path| == |v| > 1 && AllTradable(path) && DirectedOnce(path) && CoveredHops(pools, path, v)
    ensures CoveredHops(FirstHop(pools, path, v), path[1..], v[1..])
  {
    hide SwapHop, GetLiquidity, Tradable;
    var mid, rest, w := FirstHop(pools, path, v), path[1..], v[1..];
    forall i | 0 <= i < |rest| - 1
      ensures var l := GetLiquidity(mid, rest[i], rest[i + 1]); l.fst > 0 && w[i + 1] < l.snd
    {
      assert !SameHop(path, 0, i + 1);
      OtherHopsGain(pools, path[0], path[1], v[0], v[1], path[i + 1], path[i + 2]);
    }
  }

  lemma RestIsDirectedOnce(path: seq<CurrencyId>)
    requires path != [] && DirectedOnce(path)
    ensures DirectedOnce(path[1..])
  {
    var rest := path[1..];
    forall i, j | 0 <= i < j < |rest| - 1 ensures !SameHop(rest, i, j) { assert !SameHop(path, i + 1, j + 1); }
  }

  /** When no hop repeats, quoted amounts never overdraw a pool. */
  lemma {:induction false} DirectedOnceIsSound(pools: map<TradingPair, Amounts>, path: seq<CurrencyId>, v: seq<Balance>)
    requires |path| == |v| && AllTradable(path) && DirectedOnce(path) && CoveredHops(pools, path, v)
    ensures NeverOverdrawn(pools, path, v)
    decreases |path|
  {
    hide SwapHop, GetLiquidity, Tradable, DirectedOnce;
    if |path| > 1 {
      RestIsCovered(pools, path, v);
      RestIsDirectedOnce(path);
      DirectedOnceIsSound(FirstHop(pools, path, v), path[1..], v[1..]);
    }
  }

  /** A hop taken there, back and there again finds what it found at first. */
  lemma ThereBackAndThere(pools: map<TradingPair, Amounts>, a: CurrencyId, b: CurrencyId, v: seq<Balance>)
    requires Tradable(a) && Tradable(b) && a != b && |v| == 4 && CoveredHops(pools, [a, b, a, b], v)
    ensures NeverOverdrawn(pools, [a, b, a, b], v)
  {
    var path := [a, b, a, b];
    PairIsSymmetric(a, b);
    var l, back := GetLiquidity(pools, path[0], path[1]), GetLiquidity(pools, path[1], path[2]);
    assert v[1] < l.snd && v[2] < back.snd && v[3] < GetLiquidity(pools, path[2], path[3]).snd;
    var once := FirstHop(pools, path, v);
    var path1, v1 := path[1..], v[1..];
    assert path1 == [b, a, b] && v1 == [v[1], v[2], v[3]];
    assert GetLiquidity(once, b, a) == Amounts(l.snd - v[1], SatAdd(l.fst, v[0]));
    var twice := FirstHop(once, path1, v1);
    var path2, v2 := path1[1..], v1[1..];
    assert path2 == [a, b] && v2 == [v[2], v[3]];
    assert GetLiquidity(twice, a, b).snd == l.snd;
    assert NeverOverdrawn(twice, path2, v2);
    assert NeverOverdrawn(once, path1, v1);
  }

  /** No hop is repeated, or the path is too short for that to matter. */
  ghost predicate Unrepeated(path: seq<CurrencyId>) {
    DirectedOnce(path) || (|path| <= 4 && forall i :: 0 <= i < |path| - 1 ==> path[i] != path[i + 1])
  }

  /** A short path repeats a hop only by going there, back and there again. */
  lemma RepeatedShortPath(path: seq<CurrencyId>)
    requires Unrepeated(path) && !DirectedOnce(path)
    ensures |path| == 4 && path == [path[0], path[1], path[0], path[1]] && path[0] != path[1]
  {
    var i, j :| 0 <= i < j < |path| - 1 && SameHop(path, i, j);
  }

  /** No quoted path that repeats no hop, or has at most four currencies with distinct neighbours,
      overdraws a pool. */
  lemma UnrepeatedIsSound(pools: map<TradingPair, Amounts>, path: seq<CurrencyId>, v: seq<Balance>)
    requires |path| == |v| && AllTradable(path) && CoveredHops(pools, path, v) && Unrepeated(path)
    ensures NeverOverdrawn(pools, path, v)
  {
    if DirectedOnce(path) {
      DirectedOnceIsSound(pools, path, v);
    } else {
      RepeatedShortPath(path);
      ThereBackAndThere(pools, path[0], path[1], v);
    }
  }
}
