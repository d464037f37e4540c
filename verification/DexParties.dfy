/** What a call to the exchange costs the account that makes it, what it gets, and that nobody else
    notices. */
module DexParties {
  import opened Numbers
  import opened Wrappers
  import opened Currencies
  import opened Ledgers
  import opened Dex
  import opened DexPaths
  import opened DexProvision
  import opened DexCustody

  function Shares(p: TradingPair, n: Balance, c: CurrencyId): nat { if ShareCurrency(p) == Some(c) then n else 0 }

  const NONE := Amounts(0, 0)

  /** Everyone but the exchange holds what it held, except that `who` has given `given` of the pair
      and `spent` shares, and got `got` and `earned`. */
  ghost predicate Traded(l: Ledger, m: Ledger, who: AccountId, p: TradingPair, given: Amounts, spent: Balance,
                         got: Amounts, earned: Balance) {
    forall c, a :: a != MODULE_ACCOUNT ==>
      Free(m, c, a) + (if a == who then Part(p, given, c) + Shares(p, spent, c) else 0)
      == Free(l, c, a) + (if a == who then Part(p, got, c) + Shares(p, earned, c) else 0)
  }

  /** Amounts follow the currencies they were given for, whichever is named first. */
  lemma AmountsFollowTheirCurrencies(a: CurrencyId, b: CurrencyId, x: Balance, y: Balance)
    requires a != b
    ensures var p := NewPair(a, b); Part(p, InPairOrder(p, a, x, y), a) == x && Part(p, InPairOrder(p, a, x, y), b) == y
    ensures InPairOrder(NewPair(a, b), a, x, y) == InPairOrder(NewPair(b, a), b, y, x)
  {
    PairIsSymmetric(a, b);
  }

  /** Naming the two currencies the other way round, each with its own amount, is the same call. */
  lemma AddingIsSymmetric(s: State, who: AccountId, a: CurrencyId, b: CurrencyId, x: Balance, y: Balance, min: Balance)
    requires a != b
    ensures AddLiquidity(s, who, a, b, x, y, min) == AddLiquidity(s, who, b, a, y, x, min)
  {
    AmountsFollowTheirCurrencies(a, b, x, y);
    PairIsSymmetric(a, b);
  }

  lemma RemovingIsSymmetric(s: State, who: AccountId, a: CurrencyId, b: CurrencyId, shares: Balance, x: Balance,
                            y: Balance)
    requires a != b
    ensures RemoveLiquidity(s, who, a, b, shares, x, y) == RemoveLiquidity(s, who, b, a, shares, y, x)
  {
    AmountsFollowTheirCurrencies(a, b, x, y);
    PairIsSymmetric(a, b);
  }

  lemma ProvisioningIsSymmetric(s: State, who: AccountId, a: CurrencyId, b: CurrencyId, x: Balance, y: Balance)
    requires a != b
    ensures AddProvision(s, who, a, b, x, y) == AddProvision(s, who, b, a, y, x)
  {
    AmountsFollowTheirCurrencies(a, b, x, y);
    PairIsSymmetric(a, b);
  }

  lemma PaysAndEarns(l: Ledger, who: AccountId, p: TradingPair, lp: CurrencyId, given: Amounts, earned: Balance)
    requires who != MODULE_ACCOUNT && ShareCurrency(p) == Some(lp)
    requires TransferBoth(l, p, who, MODULE_ACCOUNT, given).Some?
    requires Deposit(TransferBoth(l, p, who, MODULE_ACCOUNT, given).value, lp, who, earned).Some?
    ensures Traded(l, Deposit(TransferBoth(l, p, who, MODULE_ACCOUNT, given).value, lp, who, earned).value,
                   who, p, given, 0, NONE, earned)
  {
    TransferBothEffect(l, p, who, MODULE_ACCOUNT, given);
    DepositEffect(TransferBoth(l, p, who, MODULE_ACCOUNT, given).value, lp, who, earned);
    hide TransferBoth, Deposit, Free;
  }

  lemma SpendsAndGets(l: Ledger, who: AccountId, p: TradingPair, lp: CurrencyId, spent: Balance, got: Amounts)
    requires who != MODULE_ACCOUNT && ShareCurrency(p) == Some(lp) && Consistent(l)
    requires Withdraw(l, lp, who, spent).Some?
    requires TransferBoth(Withdraw(l, lp, who, spent).value, p, MODULE_ACCOUNT, who, got).Some?
    ensures Traded(l, TransferBoth(Withdraw(l, lp, who, spent).value, p, MODULE_ACCOUNT, who, got).value,
                   who, p, NONE, spent, got, 0)
  {
    WithdrawEffect(l, lp, who, spent);
    TransferBothEffect(Withdraw(l, lp, who, spent).value, p, MODULE_ACCOUNT, who, got);
    hide TransferBoth, Withdraw, Free, Consistent;
  }

  /** A provider pays exactly the amounts that enter the pool and receives exactly the shares, at
      least as many as it asked for. */
  lemma ProviderPays(s: State, who: AccountId, a: CurrencyId, b: CurrencyId, maxA: Balance, maxB: Balance,
                     minShares: Balance)
    requires who != MODULE_ACCOUNT && AddLiquidity(s, who, a, b, maxA, maxB, minShares).Ok?
    ensures var t, p := AddLiquidity(s, who, a, b, maxA, maxB, minShares).value, NewPair(a, b);
            var inc := LiquidityIncrement(PoolOf(s.pools, p), Issuance(s.ledger, ShareCurrency(p).value), InPairOrder(p, a, maxA, maxB));
            inc.shares >= minShares && Traded(s.ledger, t.ledger, who, p, inc.amounts, 0, NONE, inc.shares)
  {
    hide LiquidityIncrement, TransferBoth, Deposit, Traded;
    var p := NewPair(a, b);
    var lp := ShareCurrency(p).value;
    var inc := LiquidityIncrement(PoolOf(s.pools, p), Issuance(s.ledger, lp), InPairOrder(p, a, maxA, maxB));
    PaysAndEarns(s.ledger, who, p, lp, inc.amounts, inc.shares);
  }

  /** A withdrawing provider gives up exactly its shares and receives exactly what leaves the pool,
      at least what it asked for. */
  lemma ProviderIsPaid(s: State, who: AccountId, a: CurrencyId, b: CurrencyId, shares: Balance, minA: Balance,
                       minB: Balance)
    requires who != MODULE_ACCOUNT && shares > 0 && Consistent(s.ledger)
    requires RemoveLiquidity(s, who, a, b, shares, minA, minB).Ok?
    ensures var t, p := RemoveLiquidity(s, who, a, b, shares, minA, minB).value, FromTokens(a, b).value;
            var out, min := Redeemed(PoolOf(s.pools, p), Issuance(s.ledger, ShareCurrency(p).value), shares), InPairOrder(p, a, minA, minB);
            out.fst >= min.fst && out.snd >= min.snd && Traded(s.ledger, t.ledger, who, p, NONE, shares, out, 0)
  {
    hide Redeemed, TransferBoth, Withdraw, Traded, Consistent;
    var p := FromTokens(a, b).value;
    var lp := ShareCurrency(p).value;
    SpendsAndGets(s.ledger, who, p, lp, shares, Redeemed(PoolOf(s.pools, p), Issuance(s.ledger, lp), shares));
  }

  /** A contributor pays exactly the provision, which is added in full to what is recorded for it,
      and to nobody else's record. */
  lemma ContributorPays(s: State, who: AccountId, a: CurrencyId, b: CurrencyId, x: Balance, y: Balance)
    requires Inv(s) && who != MODULE_ACCOUNT && AddProvision(s, who, a, b, x, y).Ok?
    ensures var t, p := AddProvision(s, who, a, b, x, y).value, NewPair(a, b);
            var given, was, now := InPairOrder(p, a, x, y), ContributionsTo(s, p), ContributionsTo(t, p);
            var so := if who in was then was[who] else NONE;
            && Traded(s.ledger, t.ledger, who, p, given, 0, NONE, 0)
            && who in now && now == was[who := now[who]]
            && now[who].fst == so.fst + given.fst && now[who].snd == so.snd + given.snd
  {
    var p, all := NewPair(a, b), ContributionsTo(s, NewPair(a, b));
    var given := InPairOrder(p, a, x, y);
    TransferBothEffect(s.ledger, p, who, MODULE_ACCOUNT, given);
    hide TransferBoth, Free;
    RecordFits(s, who, p, given, TransferBoth(s.ledger, p, who, MODULE_ACCOUNT, given).value);
  }

  lemma RecordFits(s: State, who: AccountId, p: TradingPair, given: Amounts, l: Ledger)
    requires Inv(s)
    requires forall c :: Free(l, c, MODULE_ACCOUNT) == Free(s.ledger, c, MODULE_ACCOUNT) + Part(p, given, c)
    ensures var all := ContributionsTo(s, p);
            who in all ==> all[who].fst + given.fst <= U128_MAX && all[who].snd + given.snd <= U128_MAX
  {
    PledgesFit(s, p, given, l);
    if who in ContributionsTo(s, p) { SumsSplit(ContributionsTo(s, p), who); }
  }
}
