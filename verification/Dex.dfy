/** The exchange: its storage and the effect of each of its operations on that storage. An
    operation that is refused leaves the storage alone, so it yields only its error. */
module Dex {
  import opened Numbers
  import opened Wrappers
  import opened FixedPoint
  import opened Currencies
  import opened Ledgers
  import opened Pricing

  /** The account that holds everything the exchange has in custody. */
  const MODULE_ACCOUNT: AccountId := 0

  datatype Error =
    | NotEnabledTradingPair
    | MustBeEnabled
    | MustBeProvisioning
    | MustBeNotEnabled
    | NotAllowedList
    | InvalidContributionIncrement
    | InvalidLiquidityIncrement
    | InvalidCurrencyId
    | InvalidTradingPathLength
    | InsufficientTargetAmount
    | ExcessiveSupplyAmount
    | ExceedPriceImpactLimit
    | InsufficientLiquidity
    | ZeroSupplyAmount
    | ZeroTargetAmount
    | UnacceptableShareIncrement
    | UnacceptableLiquidityWithdrawn
    | LedgerRefused

  /** An amount of each of the two currencies of a pair. */
  datatype Amounts = Amounts(fst: Balance, snd: Balance)

  function Product(m: Amounts): nat { m.fst * m.snd }

  datatype Provision = Provision(
    minContribution: Amounts,
    target: Amounts,
    accumulated: Amounts,
    notBefore: nat)

  datatype Status = NotEnabled | Provisioning(parameters: Provision) | Enabled

  datatype State = State(
    pools: map<TradingPair, Amounts>,
    statuses: map<TradingPair, Status>,
    contributions: map<TradingPair, map<AccountId, Amounts>>,
    fee: Fee,
    pathLimit: nat,
    ledger: Ledger)

  function PoolOf(pools: map<TradingPair, Amounts>, p: TradingPair): Amounts {
    if p in pools then pools[p] else Amounts(0, 0)
  }

  function StatusOf(s: State, p: TradingPair): Status {
    if p in s.statuses then s.statuses[p] else NotEnabled
  }

  function ContributionsTo(s: State, p: TradingPair): map<AccountId, Amounts> {
    if p in s.contributions then s.contributions[p] else map[]
  }

  /** Amounts given for the currencies `a` and the other one, in the order of the pair. */
  function InPairOrder(p: TradingPair, a: CurrencyId, forA: Balance, forOther: Balance): Amounts {
    if a == p.first then Amounts(forA, forOther) else Amounts(forOther, forA)
  }

  function GetLiquidity(pools: map<TradingPair, Amounts>, a: CurrencyId, b: CurrencyId): Amounts {
    var p := NewPair(a, b);
    InPairOrder(p, a, PoolOf(pools, p).fst, PoolOf(pools, p).snd)
  }

  // ----- quoting a path -----

  function ImpactExceeds(limit: Option<Balance>, amount: Balance, pool: Balance): bool {
    limit.Some? && RatioOrZero(amount, pool) > limit.value
  }

  function TargetOfHop(s: State, a: CurrencyId, b: CurrencyId, supply: Balance, limit: Option<Balance>)
    : Result<Balance, Error>
  {
    var l := GetLiquidity(s.pools, a, b);
    var target := GetTargetAmount(s.fee, l.fst, l.snd, supply);
    if StatusOf(s, NewPair(a, b)) != Enabled then Err(MustBeEnabled)
    else if l.fst == 0 || l.snd == 0 then Err(InsufficientLiquidity)
    else if target == 0 then Err(ZeroTargetAmount)
    else if ImpactExceeds(limit, target, l.snd) then Err(ExceedPriceImpactLimit)
    else Ok(target)
  }

  function SupplyOfHop(s: State, a: CurrencyId, b: CurrencyId, target: Balance, limit: Option<Balance>)
    : Result<Balance, Error>
  {
    var l := GetLiquidity(s.pools, a, b);
    var supply := GetSupplyAmount(s.fee, l.fst, l.snd, target);
    if StatusOf(s, NewPair(a, b)) != Enabled then Err(MustBeEnabled)
    else if l.fst == 0 || l.snd == 0 then Err(InsufficientLiquidity)
    else if supply == 0 then Err(ZeroSupplyAmount)
    else if ImpactExceeds(limit, target, l.snd) then Err(ExceedPriceImpactLimit)
    else Ok(supply)
  }

  /** The amounts along a path, worked out from its first currency. */
  function TargetsAlong(s: State, path: seq<CurrencyId>, supply: Balance, limit: Option<Balance>)
    : (r: Result<seq<Balance>, Error>)
    requires path != []
    ensures r.Ok? ==> |r.value| == |path| && r.value[0] == supply
  {
    if |path| == 1 then Ok([supply])
    else match TargetOfHop(s, path[0], path[1], supply, limit)
      case Err(e) => Err(e)
      case Ok(t) =>
        match TargetsAlong(s, path[1..], t, limit)
        case Err(e) => Err(e)
        case Ok(rest) => Ok([supply] + rest)
  }

  /** The amounts along a path, worked out backwards from its last currency. */
  function SuppliesAlong(s: State, path: seq<CurrencyId>, target: Balance, limit: Option<Balance>)
    : (r: Result<seq<Balance>, Error>)
    requires path != []
    ensures r.Ok? ==> |r.value| == |path| && r.value[|path| - 1] == target
  {
    var n := |path|;
    if n == 1 then Ok([target])
    else match SupplyOfHop(s, path[n - 2], path[n - 1], target, limit)
      case Err(e) => Err(e)
      case Ok(x) =>
        match SuppliesAlong(s, path[..n - 1], x, limit)
        case Err(e) => Err(e)
        case Ok(rest) => Ok(rest + [target])
  }

  predicate PathLengthOk(s: State, path: seq<CurrencyId>) { 2 <= |path| <= s.pathLimit }

  function TargetAmounts(s: State, path: seq<CurrencyId>, supply: Balance, limit: Option<Balance>)
    : (r: Result<seq<Balance>, Error>)
    ensures r.Ok? ==> |r.value| == |path| >= 2 && r.value[0] == supply
  {
    if PathLengthOk(s, path) then TargetsAlong(s, path, supply, limit) else Err(InvalidTradingPathLength)
  }

  function SupplyAmounts(s: State, path: seq<CurrencyId>, target: Balance, limit: Option<Balance>)
    : (r: Result<seq<Balance>, Error>)
    ensures r.Ok? ==> |r.value| == |path| >= 2 && r.value[|path| - 1] == target
  {
    if PathLengthOk(s, path) then SuppliesAlong(s, path, target, limit) else Err(InvalidTradingPathLength)
  }

  // ----- swapping -----

  function SwapHop(pools: map<TradingPair, Amounts>, a: CurrencyId, b: CurrencyId, x: Balance, y: Balance)
    : map<TradingPair, Amounts>
  {
    match FromTokens(a, b)
    case None => pools
    case Some(p) =>
      var pool := PoolOf(pools, p);
      pools[p := if a == p.first then Amounts(SatAdd(pool.fst, x), SatSub(pool.snd, y))
                 else Amounts(SatSub(pool.fst, y), SatAdd(pool.snd, x))]
  }

  function SwapByPath(pools: map<TradingPair, Amounts>, path: seq<CurrencyId>, amounts: seq<Balance>)
    : map<TradingPair, Amounts>
    requires |path| == |amounts|
    decreases |path|
  {
    if |path| < 2 then pools
    else SwapByPath(SwapHop(pools, path[0], path[1], amounts[0], amounts[1]), path[1..], amounts[1..])
  }

  /** Takes the supply, moves the reserves along the path, pays the target. */
  function Settle(s: State, who: AccountId, path: seq<CurrencyId>, amounts: seq<Balance>): Option<State>
    requires |path| == |amounts| >= 2
  {
    var n := |path|;
    match Transfer(s.ledger, path[0], who, MODULE_ACCOUNT, amounts[0])
    case None => None
    case Some(paid) =>
      match Transfer(paid, path[n - 1], MODULE_ACCOUNT, who, amounts[n - 1])
      case None => None
      case Some(l) => Some(s.(pools := SwapByPath(s.pools, path, amounts), ledger := l))
  }

  function SwapWithExactSupply(s: State, who: AccountId, path: seq<CurrencyId>, supply: Balance,
                               minTarget: Balance, limit: Option<Balance>): Result<(State, Balance), Error>
  {
    match TargetAmounts(s, path, supply, limit)
    case Err(e) => Err(e)
    case Ok(amounts) =>
      if amounts[|path| - 1] < minTarget then Err(InsufficientTargetAmount)
      else match Settle(s, who, path, amounts)
        case None => Err(LedgerRefused)
        case Some(t) => Ok((t, amounts[|path| - 1]))
  }

  function SwapWithExactTarget(s: State, who: AccountId, path: seq<CurrencyId>, target: Balance,
                               maxSupply: Balance, limit: Option<Balance>): Result<(State, Balance), Error>
  {
    match SupplyAmounts(s, path, target, limit)
    case Err(e) => Err(e)
    case Ok(amounts) =>
      if amounts[0] > maxSupply then Err(ExcessiveSupplyAmount)
      else match Settle(s, who, path, amounts)
        case None => Err(LedgerRefused)
        case Some(t) => Ok((t, amounts[0]))
  }

  // ----- liquidity -----

  /** The shares for `amounts` when one side is converted at the price of the `reference` amounts. */
  function InitialShares(reference: Amounts, amounts: Amounts): Balance {
    if reference.fst > reference.snd then
      SatAdd(SaturatingMulInt(RatioOrZero(reference.fst, reference.snd), amounts.snd), amounts.fst)
    else
      SatAdd(SaturatingMulInt(RatioOrZero(reference.snd, reference.fst), amounts.fst), amounts.snd)
  }

  datatype Increment = Increment(amounts: Amounts, shares: Balance)

  /** Does the first branch apply: is the offered price of the first currency at most the pool's? */
  predicate FirstIsAbundant(pool: Amounts, max: Amounts) {
    RatioOrZero(max.snd, max.fst) <= RatioOrZero(pool.snd, pool.fst)
  }

  function SharesFor(amount: Balance, reserve: Balance, total: Balance): Balance {
    match CheckedFromRational(amount, reserve)
    case None => 0
    case Some(r) => CheckedMulInt(r, total).GetOr(0)
  }

  function LiquidityIncrement(pool: Amounts, total: Balance, max: Amounts): Increment {
    if total == 0 then Increment(max, InitialShares(max, max))
    else if FirstIsAbundant(pool, max) then
      var amount := SaturatingMulInt(RatioOrZero(pool.fst, pool.snd), max.snd);
      Increment(Amounts(amount, max.snd), SharesFor(amount, pool.fst, total))
    else
      var amount := SaturatingMulInt(RatioOrZero(pool.snd, pool.fst), max.fst);
      Increment(Amounts(max.fst, amount), SharesFor(amount, pool.snd, total))
  }

  /** Both amounts of a pair, moved from one account to another. */
  function TransferBoth(l: Ledger, p: TradingPair, from: AccountId, to: AccountId, amounts: Amounts): Option<Ledger> {
    match Transfer(l, p.first, from, to, amounts.fst)
    case None => None
    case Some(m) => Transfer(m, p.second, from, to, amounts.snd)
  }

  function AddLiquidity(s: State, who: AccountId, a: CurrencyId, b: CurrencyId,
                        maxA: Balance, maxB: Balance, minShares: Balance): Result<State, Error>
  {
    var p := NewPair(a, b);
    if ShareCurrency(p).None? then Err(InvalidCurrencyId)
    else if StatusOf(s, p) != Enabled then Err(MustBeEnabled)
    else
      var lp, pool := ShareCurrency(p).value, PoolOf(s.pools, p);
      var inc := LiquidityIncrement(pool, Issuance(s.ledger, lp), InPairOrder(p, a, maxA, maxB));
      if inc.shares == 0 || inc.amounts.fst == 0 || inc.amounts.snd == 0 then Err(InvalidLiquidityIncrement)
      else if inc.shares < minShares then Err(UnacceptableShareIncrement)
      else match TransferBoth(s.ledger, p, who, MODULE_ACCOUNT, inc.amounts)
        case None => Err(LedgerRefused)
        case Some(paid) =>
          match Deposit(paid, lp, who, inc.shares)
          case None => Err(LedgerRefused)
          case Some(l) =>
            Ok(s.(ledger := l,
                  pools := s.pools[p := Amounts(SatAdd(pool.fst, inc.amounts.fst),
                                                SatAdd(pool.snd, inc.amounts.snd))]))
  }

  /** What a redeemed number of shares is worth. */
  function Redeemed(pool: Amounts, total: Balance, shares: Balance): Amounts {
    var proportion := RatioOrZero(shares, total);
    Amounts(SaturatingMulInt(proportion, pool.fst), SaturatingMulInt(proportion, pool.snd))
  }

  function RemoveLiquidity(s: State, who: AccountId, a: CurrencyId, b: CurrencyId, shares: Balance,
                           minA: Balance, minB: Balance): Result<State, Error>
  {
    if shares == 0 then Ok(s)
    else match FromTokens(a, b)
      case None => Err(InvalidCurrencyId)
      case Some(p) =>
        if ShareCurrency(p).None? then Err(InvalidCurrencyId)
        else
          var lp, pool, min := ShareCurrency(p).value, PoolOf(s.pools, p), InPairOrder(p, a, minA, minB);
          var out := Redeemed(pool, Issuance(s.ledger, lp), shares);
          if out.fst < min.fst || out.snd < min.snd then Err(UnacceptableLiquidityWithdrawn)
          else match Withdraw(s.ledger, lp, who, shares)
            case None => Err(LedgerRefused)
            case Some(burned) =>
              match TransferBoth(burned, p, MODULE_ACCOUNT, who, out)
              case None => Err(LedgerRefused)
              case Some(l) =>
                Ok(s.(ledger := l,
                      pools := s.pools[p := Amounts(SatSub(pool.fst, out.fst), SatSub(pool.snd, out.snd))]))
  }

  // ----- provisioning -----

  function Plus(a: Amounts, b: Amounts): Amounts { Amounts(SatAdd(a.fst, b.fst), SatAdd(a.snd, b.snd)) }

  function AddProvision(s: State, who: AccountId, a: CurrencyId, b: CurrencyId,
                        amountA: Balance, amountB: Balance): Result<State, Error>
  {
    var p := NewPair(a, b);
    match StatusOf(s, p)
    case NotEnabled | Enabled => Err(MustBeProvisioning)
    case Provisioning(par) =>
      var given := InPairOrder(p, a, amountA, amountB);
      if given.fst < par.minContribution.fst && given.snd < par.minContribution.snd then
        Err(InvalidContributionIncrement)
      else
        match TransferBoth(s.ledger, p, who, MODULE_ACCOUNT, given)
        case None => Err(LedgerRefused)
        case Some(l) =>
          var all := ContributionsTo(s, p);
          var so := if who in all then all[who] else Amounts(0, 0);
          Ok(s.(ledger := l,
                contributions := s.contributions[p := all[who := Plus(so, given)]],
                statuses := s.statuses[p := Provisioning(par.(accumulated := Plus(par.accumulated, given)))]))
  }

  /** An order in which the entries of a storage prefix may be drained. */
  ghost predicate IsOrderOf(order: seq<AccountId>, all: map<AccountId, Amounts>) {
    (forall i, j :: 0 <= i < j < |order| ==> order[i] != order[j])
    && (forall who :: who in order <==> who in all)
  }

  predicate Within(order: seq<AccountId>, all: map<AccountId, Amounts>) {
    forall i :: 0 <= i < |order| ==> order[i] in all
  }

  predicate ReadyToEnable(par: Provision, now: nat) {
    && now >= par.notBefore
    && par.accumulated.fst != 0
    && par.accumulated.snd != 0
    && (par.accumulated.fst >= par.target.fst || par.accumulated.snd >= par.target.snd)
  }

  /** Issues the initial shares to the contributors in turn; a refused deposit is skipped. */
  function IssueInitial(l: Ledger, lp: CurrencyId, accumulated: Amounts, all: map<AccountId, Amounts>,
                        order: seq<AccountId>): Ledger
    requires Within(order, all)
    decreases |order|
  {
    if order == [] then l
    else
      var shares := InitialShares(accumulated, all[order[0]]);
      IssueInitial(Deposit(l, lp, order[0], shares).GetOr(l), lp, accumulated, all, order[1..])
  }

  /** Enables a pair whose provision is complete; the provision is added to both reserves. */
  function ConvertToEnabled(s: State, p: TradingPair, now: nat, order: seq<AccountId>): State
    requires Within(order, ContributionsTo(s, p))
  {
    match StatusOf(s, p)
    case NotEnabled | Enabled => s
    case Provisioning(par) =>
      if !ReadyToEnable(par, now) || ShareCurrency(p).None? then s
      else
        s.(ledger := IssueInitial(s.ledger, ShareCurrency(p).value, par.accumulated, ContributionsTo(s, p), order),
           contributions := s.contributions - {p},
           pools := s.pools[p := Plus(PoolOf(s.pools, p), par.accumulated)],
           statuses := s.statuses[p := Enabled])
  }

  /** The same step with the reserves updated as the program text has it: the second provision
      is subtracted. */
  function ConvertAsWritten(s: State, p: TradingPair, now: nat, order: seq<AccountId>): State
    requires Within(order, ContributionsTo(s, p))
  {
    var t := ConvertToEnabled(s, p, now, order);
    if t == s || !StatusOf(s, p).Provisioning? then t
    else
      var pool, add := PoolOf(s.pools, p), StatusOf(s, p).parameters.accumulated;
      t.(pools := s.pools[p := Amounts(SatAdd(pool.fst, add.fst), SatSub(pool.snd, add.snd))])
  }

  /** Pays every contribution back, in turn. */
  function Refund(l: Ledger, p: TradingPair, all: map<AccountId, Amounts>, order: seq<AccountId>): Option<Ledger>
    requires Within(order, all)
    decreases |order|
  {
    if order == [] then Some(l)
    else match TransferBoth(l, p, MODULE_ACCOUNT, order[0], all[order[0]])
      case None => None
      case Some(m) => Refund(m, p, all, order[1..])
  }

  function DisableTradingPair(s: State, a: CurrencyId, b: CurrencyId, order: seq<AccountId>): Result<State, Error>
    requires FromTokens(a, b).Some? ==> Within(order, ContributionsTo(s, FromTokens(a, b).value))
  {
    match FromTokens(a, b)
    case None => Err(InvalidCurrencyId)
    case Some(p) =>
      match StatusOf(s, p)
      case NotEnabled => Err(NotEnabledTradingPair)
      case Enabled => Ok(s.(statuses := s.statuses[p := NotEnabled]))
      case Provisioning(_) =>
        match Refund(s.ledger, p, ContributionsTo(s, p), order)
        case None => Err(LedgerRefused)
        case Some(l) =>
          Ok(s.(ledger := l, contributions := s.contributions - {p}, statuses := s.statuses - {p}))
  }

  function ListTradingPair(s: State, a: CurrencyId, b: CurrencyId, minA: Balance, minB: Balance,
                           targetA: Balance, targetB: Balance, notBefore: nat): Result<State, Error>
  {
    if a == b then Err(NotAllowedList)
    else match FromTokens(a, b)
      case None => Err(InvalidCurrencyId)
      case Some(p) =>
        if ShareCurrency(p).None? then Err(InvalidCurrencyId)
        else if StatusOf(s, p) != NotEnabled then Err(MustBeNotEnabled)
        else if Issuance(s.ledger, ShareCurrency(p).value) != 0 then Err(NotAllowedList)
        else
          var par := Provision(InPairOrder(p, a, minA, minB), InPairOrder(p, a, targetA, targetB),
                               Amounts(0, 0), notBefore);
          Ok(s.(statuses := s.statuses[p := Provisioning(par)]))
  }

  function EnableTradingPair(s: State, a: CurrencyId, b: CurrencyId): Result<State, Error> {
    match FromTokens(a, b)
    case None => Err(InvalidCurrencyId)
    case Some(p) =>
      if StatusOf(s, p) != NotEnabled then Err(MustBeNotEnabled)
      else Ok(s.(statuses := s.statuses[p := Enabled]))
  }

  /** The `add_liquidity` call: liquidity for an enabled pair, provision for a provisioning one. */
  function AddLiquidityCall(s: State, who: AccountId, a: CurrencyId, b: CurrencyId, maxA: Balance, maxB: Balance,
                            minShares: Balance, now: nat, order: seq<AccountId>): Result<State, Error>
    requires forall i :: 0 <= i < |order| && order[i] != who ==> order[i] in ContributionsTo(s, NewPair(a, b))
  {
    match FromTokens(a, b)
    case None => Err(InvalidCurrencyId)
    case Some(p) =>
      match StatusOf(s, p)
      case Enabled => AddLiquidity(s, who, a, b, maxA, maxB, minShares)
      case NotEnabled => Err(NotEnabledTradingPair)
      case Provisioning(_) =>
        match AddProvision(s, who, a, b, maxA, maxB)
        case Err(e) => Err(e)
        case Ok(t) =>
          Ok(ConvertToEnabled(t, p, now, order))
  }
}
