/** Two worked instances: an accepted call that takes more than the caller offered, and a quote that
    arrives although one of its hops falls short. */
module DexInstances {
  import opened Numbers
  import opened Wrappers
  import opened Currencies
  import opened MapSums
  import opened Ledgers
  import opened Pricing
  import opened FixedPoint
  import opened Dex
  import opened DexPaths
  import opened DexMaxima
  import opened DexCustody

  const A := Token(0)
  const B := Token(1)
  const C := Token(2)
  const AB := TradingPair(A, B)
  const BC := TradingPair(B, C)
  const LP := LpShare(TokenShare(0), TokenShare(1))
  const TRADER: AccountId := 1
  const PROVIDER: AccountId := 2

  // ----- a call that takes more than was offered -----

  const PLENTY: Balance := 10_000_000_000_000_000_000
  const OFFER: Balance := 5_000_000_000_000_000_000

  const LOPSIDED_POOL: map<TradingPair, Amounts> := map[AB := Amounts(PLENTY, 1)]

  const BOOKS: Ledger :=
    Ledger(map[A := map[MODULE_ACCOUNT := PLENTY][TRADER := PLENTY]][B := map[MODULE_ACCOUNT := 1][TRADER := 1]]
              [LP := map[PROVIDER := 100]],
           map[A := 2 * PLENTY][B := 2][LP := 100])

  const LOPSIDED: State := State(LOPSIDED_POOL, map[AB := Enabled], map[], Fee(0, 1), 3, BOOKS)

  lemma LopsidedBooks()
    ensures Consistent(BOOKS)
  {
    SumOfOne(PROVIDER, 100);
    forall c ensures Sum(Holders(BOOKS, c)) == Issuance(BOOKS, c) {
      if c == A {
        SumOfTwo(Holders(BOOKS, c), MODULE_ACCOUNT, PLENTY, TRADER, PLENTY);
      } else if c == B {
        SumOfTwo(Holders(BOOKS, c), MODULE_ACCOUNT, 1, TRADER, 1);
      } else if c == LP {
        assert Holders(BOOKS, c) == map[PROVIDER := 100];
      } else {
        assert Holders(BOOKS, c) == map[];
        assert Sum(Holders(BOOKS, c)) == 0;
      }
    }
  }

  lemma LopsidedReserves(c: CurrencyId)
    ensures Reserves(LOPSIDED_POOL, c) == if c == A then PLENTY else if c == B then 1 else 0
  {
    var none: map<TradingPair, Amounts> := map[];
    assert Reserves(none, c) == 0;
    ReservesUpdate(none, AB, Amounts(PLENTY, 1), c);
    assert none[AB := Amounts(PLENTY, 1)] == LOPSIDED_POOL;
  }

  lemma LopsidedIsSound()
    ensures Inv(LOPSIDED)
  {
    LopsidedBooks();
    forall c ensures Slack(LOPSIDED, c) == 0 {
      LopsidedReserves(c);
      assert PledgeParts(map[], c) == map[];
    }
    forall p ensures PairOk(LOPSIDED, p) {}
  }

  lemma LopsidedIncrement()
    ensures LiquidityIncrement(Amounts(PLENTY, 1), 100, Amounts(OFFER, 1)) == Increment(Amounts(PLENTY, 1), 100)
  {}

  lemma LopsidedTransfer()
    ensures TransferBoth(BOOKS, AB, TRADER, MODULE_ACCOUNT, Amounts(PLENTY, 1)).Some?
    ensures Issuance(TransferBoth(BOOKS, AB, TRADER, MODULE_ACCOUNT, Amounts(PLENTY, 1)).value, LP) == 100
    ensures Free(TransferBoth(BOOKS, AB, TRADER, MODULE_ACCOUNT, Amounts(PLENTY, 1)).value, LP, TRADER) == 0
  {}

  /** In a state that meets the invariant a call offers five units of the first currency to a pool of
      ten against one (in units of 10^18) and is accepted; it takes ten. */
  lemma OverchargedCall()
    ensures Inv(LOPSIDED) && Joins(LOPSIDED, TRADER, A, B, OFFER, 1, 0)
    ensures Offered(A, B, OFFER, 1) == Amounts(OFFER, 1) && 1 * ONE < OFFER
    ensures Added(LOPSIDED, A, B, OFFER, 1).amounts == Amounts(2 * OFFER, 1)
  {
    LopsidedIsSound();
    LopsidedIncrement();
    LopsidedTransfer();
    hide LiquidityIncrement, TransferBoth, Inv;
  }

  // ----- a hop that falls short without consequence -----

  const THIRD: Balance := 0x5555_5555_5555_5555_5555_5555_5555_5556

  const NARROW: State :=
    State(map[AB := Amounts(THIRD, 100)][BC := Amounts(98, 4)], map[AB := Enabled][BC := Enabled], map[], Fee(1, 3), 3,
          Ledger(map[], map[]))

  const ROUTE: seq<CurrencyId> := [A, B, C]
  const PRICE: Balance := 0x8000_0000_0000_0000_0000_0000_0000_0002

  lemma NarrowSupplies()
    ensures GetSupplyAmount(Fee(1, 3), 98, 4, 1) == 50 && GetSupplyAmount(Fee(1, 3), THIRD, 100, 50) == PRICE
    ensures !Reachable(Fee(1, 3), THIRD, 100, 50)
  {}

  lemma NarrowTargets()
    ensures GetTargetAmount(Fee(1, 3), THIRD, 100, PRICE) == 49 && GetTargetAmount(Fee(1, 3), 98, 4, 49) == 1
  {}

  lemma NarrowHops()
    ensures SupplyOfHop(NARROW, B, C, 1, None) == Ok(50) && SupplyOfHop(NARROW, A, B, 50, None) == Ok(PRICE)
    ensures TargetOfHop(NARROW, A, B, PRICE, None) == Ok(49) && TargetOfHop(NARROW, B, C, 49, None) == Ok(1)
    ensures GetLiquidity(NARROW.pools, A, B) == Amounts(THIRD, 100) && NARROW.fee == Fee(1, 3)
  {
    NarrowSupplies();
    NarrowTargets();
    hide GetSupplyAmount, GetTargetAmount, Reachable;
  }

  /** The quoted supply arrives although the target of the first hop is not reachable: it delivers
      49 instead of the 50 that were quoted, of which one was rounding. */
  lemma ShortfallMadeUpFor()
    ensures SupplyAmounts(NARROW, ROUTE, 1, None) == Ok([PRICE, 50, 1]) && !AllReachable(NARROW, ROUTE, [PRICE, 50, 1])
    ensures TargetAmounts(NARROW, ROUTE, PRICE, None) == Ok([PRICE, 49, 1])
  {
    NarrowSupplies();
    NarrowHops();
    hide GetSupplyAmount, GetTargetAmount, TargetOfHop, SupplyOfHop, GetLiquidity, Reachable;
    var s := NARROW;
    assert ROUTE[..2] == [A, B] && ROUTE[..2][..1] == [A] && ROUTE[1..] == [B, C] && ROUTE[1..][1..] == [C];
    assert SuppliesAlong(s, [A], PRICE, None) == Ok([PRICE]);
    assert SuppliesAlong(s, [A, B], 50, None) == Ok([PRICE] + [50]);
    assert SuppliesAlong(s, ROUTE, 1, None) == Ok([PRICE] + [50] + [1]);
    assert TargetsAlong(s, [C], 1, None) == Ok([1]);
    assert TargetsAlong(s, [B, C], 49, None) == Ok([49] + [1]);
    assert TargetsAlong(s, ROUTE, PRICE, None) == Ok([PRICE] + ([49] + [1]));
    assert [PRICE] + [50] + [1] == [PRICE, 50, 1] && [PRICE] + ([49] + [1]) == [PRICE, 49, 1];
    assert !AllReachable(s, ROUTE, [PRICE, 50, 1]) by {
      var l := GetLiquidity(s.pools, ROUTE[0], ROUTE[0 + 1]);
      assert !Reachable(s.fee, l.fst, l.snd, [PRICE, 50, 1][0 + 1]);
    }
  }
}
