/** Currency identifiers and trading pairs. */
module Currencies {
  import opened Wrappers

  type AccountId = nat

  datatype DexShare = TokenShare(symbol: nat) | Erc20Share(address: nat)

  datatype CurrencyId =
    | Token(symbol: nat)
    | LpShare(left: DexShare, right: DexShare)
    | Erc20(address: nat)
    | ChainBridge(resource: nat)

  predicate Tradable(c: CurrencyId) { c.Token? || c.Erc20? }

  // The derived order: by variant first, then by the fields from left to right.

  function Rank(c: CurrencyId): nat {
    match c
    case Token(_) => 0
    case LpShare(_, _) => 1
    case Erc20(_) => 2
    case ChainBridge(_) => 3
  }

  predicate ShareBefore(a: DexShare, b: DexShare) {
    match (a, b)
    case (TokenShare(x), TokenShare(y)) => x < y
    case (Erc20Share(x), Erc20Share(y)) => x < y
    case (TokenShare(_), Erc20Share(_)) => true
    case (Erc20Share(_), TokenShare(_)) => false
  }

  predicate Before(a: CurrencyId, b: CurrencyId) {
    match (a, b)
    case (Token(x), Token(y)) => x < y
    case (LpShare(l, r), LpShare(l', r')) => ShareBefore(l, l') || (l == l' && ShareBefore(r, r'))
    case (Erc20(x), Erc20(y)) => x < y
    case (ChainBridge(x), ChainBridge(y)) => x < y
    case _ => Rank(a) < Rank(b)
  }

  datatype TradingPair = TradingPair(first: CurrencyId, second: CurrencyId)

  /** The pair of two currencies, smaller one first. */
  function NewPair(a: CurrencyId, b: CurrencyId): TradingPair {
    if Before(b, a) then TradingPair(b, a) else TradingPair(a, b)
  }

  function FromTokens(a: CurrencyId, b: CurrencyId): Option<TradingPair> {
    if Tradable(a) && Tradable(b) then Some(NewPair(b, a)) else None
  }

  function ToShare(c: CurrencyId): Option<DexShare> {
    match c
    case Token(s) => Some(TokenShare(s))
    case Erc20(e) => Some(Erc20Share(e))
    case _ => None
  }

  /** The currency of the liquidity shares of a pair. */
  function ShareCurrency(p: TradingPair): Option<CurrencyId> {
    match (ToShare(p.first), ToShare(p.second))
    case (Some(l), Some(r)) => Some(LpShare(l, r))
    case _ => None
  }

  /** The order in which the two currencies are named does not matter. */
  lemma PairIsSymmetric(a: CurrencyId, b: CurrencyId)
    ensures NewPair(a, b) == NewPair(b, a)
    ensures {NewPair(a, b).first, NewPair(a, b).second} == {a, b}
  {}

  /** No two pairs share their liquidity currency. */
  lemma ShareCurrencyIsInjective(p: TradingPair, q: TradingPair)
    requires ShareCurrency(p).Some? && ShareCurrency(p) == ShareCurrency(q)
    ensures p == q
  {}

  /** A pair names its currencies in ascending order, so there is only one for any two of them. */
  lemma PairIsOrdered(a: CurrencyId, b: CurrencyId)
    ensures var p := NewPair(a, b); p.first == p.second || (Before(p.first, p.second) && !Before(p.second, p.first))
  {}

  /** Pairs of tokens, and only those, have liquidity shares; what is listed is always such a pair. */
  lemma TokenPairsHaveShares(a: CurrencyId, b: CurrencyId)
    ensures ShareCurrency(NewPair(a, b)).Some? <==> Tradable(a) && Tradable(b)
    ensures FromTokens(a, b) == if Tradable(a) && Tradable(b) then Some(NewPair(a, b)) else None
    ensures ShareCurrency(NewPair(a, b)).Some? ==> ShareCurrency(NewPair(a, b)).value.LpShare?
  {
    PairIsSymmetric(a, b);
  }
}
