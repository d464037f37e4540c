/** Staking liquidity shares: deposits and withdrawals, the two reward pools of every share
    currency, and the periodic issue of rewards into the vaults. */
module Incentives {
  import opened Numbers
  import opened Wrappers
  import opened Currencies
  import opened MapSums
  import opened Ledgers

  datatype PoolId = DexIncentive(lp: CurrencyId) | DexPremium(lp: CurrencyId)

  /** The account that keeps staked shares, the vaults and what they are filled with. */
  datatype Setup = Setup(
    keeper: AccountId,
    incentiveVault: AccountId, incentiveCurrency: CurrencyId,
    premiumVault: AccountId, premiumCurrency: CurrencyId)

  function VaultOf(k: Setup, id: PoolId): AccountId { if id.DexIncentive? then k.incentiveVault else k.premiumVault }

  function CurrencyOf(k: Setup, id: PoolId): CurrencyId {
    if id.DexIncentive? then k.incentiveCurrency else k.premiumCurrency
  }

  datatype Pool = Pool(total: Balance, shares: map<AccountId, Balance>)

  const EMPTY := Pool(0, map[])

  datatype State = State(ledger: Ledger, pools: map<PoolId, Pool>, rates: map<PoolId, Balance>)

  datatype Error = InvalidCurrencyId | NotEnough | LedgerRefused

  function PoolOf(s: State, id: PoolId): Pool { if id in s.pools then s.pools[id] else EMPTY }

  function ShareIn(p: Pool, who: AccountId): Balance { if who in p.shares then p.shares[who] else 0 }

  function Share(s: State, id: PoolId, who: AccountId): Balance { ShareIn(PoolOf(s, id), who) }

  function RateOf(s: State, id: PoolId): Balance { if id in s.rates then s.rates[id] else 0 }

  function AddShare(p: Pool, who: AccountId, amount: Balance): Pool {
    if amount == 0 then p
    else Pool(SatAdd(p.total, amount), p.shares[who := SatAdd(ShareIn(p, who), amount)])
  }

  function RemoveShare(p: Pool, who: AccountId, amount: Balance): Pool {
    var removed := Min(amount, ShareIn(p, who));
    if removed == 0 then p
    else Pool(SatSub(p.total, removed), p.shares[who := ShareIn(p, who) - removed])
  }

  function DepositShare(k: Setup, s: State, who: AccountId, lp: CurrencyId, amount: Balance): Result<State, Error> {
    if !lp.LpShare? then Err(InvalidCurrencyId)
    else match Transfer(s.ledger, lp, who, k.keeper, amount)
      case None => Err(LedgerRefused)
      case Some(l) =>
        Ok(s.(ledger := l,
              pools := s.pools[DexIncentive(lp) := AddShare(PoolOf(s, DexIncentive(lp)), who, amount)]
                              [DexPremium(lp) := AddShare(PoolOf(s, DexPremium(lp)), who, amount)]))
  }

  function WithdrawShare(k: Setup, s: State, who: AccountId, lp: CurrencyId, amount: Balance): Result<State, Error> {
    if !lp.LpShare? then Err(InvalidCurrencyId)
    else if Share(s, DexIncentive(lp), who) < amount || Share(s, DexPremium(lp), who) < amount then Err(NotEnough)
    else match Transfer(s.ledger, lp, k.keeper, who, amount)
      case None => Err(LedgerRefused)
      case Some(l) =>
        Ok(s.(ledger := l,
              pools := s.pools[DexIncentive(lp) := RemoveShare(PoolOf(s, DexIncentive(lp)), who, amount)]
                              [DexPremium(lp) := RemoveShare(PoolOf(s, DexPremium(lp)), who, amount)]))
  }

  // ----- rewards -----

  /** What one pool gets; nothing without shares or a rate, or if the ledger refuses. */
  function Issued(k: Setup, s: State, l: Ledger, id: PoolId): Option<Ledger> {
    if PoolOf(s, id).total == 0 || RateOf(s, id) == 0 then None
    else Deposit(l, CurrencyOf(k, id), VaultOf(k, id), RateOf(s, id))
  }

  /** The rewards of the pools in the given order: the ledger afterwards and what was announced. */
  function IssueAll(k: Setup, s: State, l: Ledger, order: seq<PoolId>): (Ledger, seq<(PoolId, Balance)>)
    decreases |order|
  {
    if order == [] then (l, [])
    else match Issued(k, s, l, order[0])
      case None => IssueAll(k, s, l, order[1..])
      case Some(m) =>
        var (last, rest) := IssueAll(k, s, m, order[1..]);
        (last, [(order[0], RateOf(s, order[0]))] + rest)
  }

  /** What was announced to incentive pools, or to premium pools. */
  function Announced(calls: seq<(PoolId, Balance)>, incentive: bool): nat {
    if calls == [] then 0
    else (if calls[0].0.DexIncentive? == incentive then calls[0].1 else 0) + Announced(calls[1..], incentive)
  }

  function Payout(k: Setup, s: State, who: AccountId, id: PoolId, amount: Balance): State {
    s.(ledger := Transfer(s.ledger, CurrencyOf(k, id), VaultOf(k, id), who, amount).GetOr(s.ledger))
  }

  // ----- the shares are backed -----

  ghost predicate PoolOk(p: Pool) { p.total == Sum(p.shares) }

  ghost predicate SameShares(p: Pool, q: Pool) { forall who :: ShareIn(p, who) == ShareIn(q, who) }

  /** Both pools of a share currency know the same shares, and the keeper holds at least their sum. */
  ghost predicate StakeOk(k: Setup, s: State, lp: CurrencyId) {
    && PoolOk(PoolOf(s, DexIncentive(lp))) && PoolOk(PoolOf(s, DexPremium(lp)))
    && SameShares(PoolOf(s, DexIncentive(lp)), PoolOf(s, DexPremium(lp)))
    && PoolOf(s, DexIncentive(lp)).total == PoolOf(s, DexPremium(lp)).total
    && Share(s, DexIncentive(lp), k.keeper) == 0
    && Free(s.ledger, lp, k.keeper) >= PoolOf(s, DexIncentive(lp)).total
  }

  ghost predicate Inv(k: Setup, s: State) {
    Consistent(s.ledger) && forall lp: CurrencyId :: lp.LpShare? ==> StakeOk(k, s, lp)
  }

  /** What the keeper holds beyond the staked shares, sent there by other means. */
  function Surplus(k: Setup, s: State, lp: CurrencyId): int {
    Free(s.ledger, lp, k.keeper) - PoolOf(s, DexIncentive(lp)).total
  }

  lemma AddShareExact(p: Pool, who: AccountId, amount: Balance)
    requires PoolOk(p) && p.total + amount <= U128_MAX
    ensures var q := AddShare(p, who, amount);
            && PoolOk(q) && q.total == p.total + amount
            && forall a :: ShareIn(q, a) == ShareIn(p, a) + (if a == who then amount else 0)
  {
    if who in p.shares { SumAtLeast(p.shares, who); }
    SumUpdate(p.shares, who, SatAdd(ShareIn(p, who), amount));
  }

  lemma RemoveShareExact(p: Pool, who: AccountId, amount: Balance)
    requires PoolOk(p) && ShareIn(p, who) >= amount
    ensures var q := RemoveShare(p, who, amount);
            && p.total >= amount
            && PoolOk(q) && q.total == p.total - amount
            && forall a :: ShareIn(q, a) == ShareIn(p, a) - (if a == who then amount else 0)
  {
    if who in p.shares { SumAtLeast(p.shares, who); }
    if amount > 0 { SumUpdate(p.shares, who, ShareIn(p, who) - amount); }
  }

  lemma OtherStakes(k: Setup, s: State, t: State, lp: CurrencyId)
    requires Inv(k, s) && Consistent(t.ledger)
    requires forall id: PoolId :: id.lp != lp ==> PoolOf(t, id) == PoolOf(s, id)
    requires forall c :: c != lp ==> Free(t.ledger, c, k.keeper) == Free(s.ledger, c, k.keeper)
    requires StakeOk(k, t, lp)
    ensures Inv(k, t)
  {
    forall c: CurrencyId | c.LpShare? ensures StakeOk(k, t, c) {
      if c != lp { assert StakeOk(k, s, c); }
    }
  }

  /** A deposit adds exactly the amount to the account's share in both pools and to what the
      keeper holds. */
  lemma DepositKeepsStakes(k: Setup, s: State, who: AccountId, lp: CurrencyId, amount: Balance)
    requires Inv(k, s) && who != k.keeper && DepositShare(k, s, who, lp, amount).Ok?
    ensures var t := DepositShare(k, s, who, lp, amount).value;
            && Inv(k, t) && Surplus(k, t, lp) == Surplus(k, s, lp)
            && Share(t, DexIncentive(lp), who) == Share(s, DexIncentive(lp), who) + amount
            && Free(t.ledger, lp, who) == Free(s.ledger, lp, who) - amount
  {
    hide PoolOk, AddShare;
    assert StakeOk(k, s, lp);
    TransferEffect(s.ledger, lp, who, k.keeper, amount);
    var t := DepositShare(k, s, who, lp, amount).value;
    AddShareExact(PoolOf(s, DexIncentive(lp)), who, amount);
    AddShareExact(PoolOf(s, DexPremium(lp)), who, amount);
    OtherStakes(k, s, t, lp);
  }

  /** A withdrawal succeeds exactly when the account has the shares, and takes exactly them out;
      checking one of the two pools would be enough. */
  lemma WithdrawKeepsStakes(k: Setup, s: State, who: AccountId, lp: CurrencyId, amount: Balance)
    requires Inv(k, s) && who != k.keeper && lp.LpShare?
    ensures WithdrawShare(k, s, who, lp, amount).Ok? <==> Share(s, DexIncentive(lp), who) >= amount
    ensures WithdrawShare(k, s, who, lp, amount).Ok? ==>
              var t := WithdrawShare(k, s, who, lp, amount).value;
              && Inv(k, t) && Surplus(k, t, lp) == Surplus(k, s, lp)
              && Share(t, DexIncentive(lp), who) == Share(s, DexIncentive(lp), who) - amount
              && Free(t.ledger, lp, who) == Free(s.ledger, lp, who) + amount
  {
    hide PoolOk, RemoveShare;
    assert StakeOk(k, s, lp);
    if Share(s, DexIncentive(lp), who) >= amount {
      RemoveShareExact(PoolOf(s, DexIncentive(lp)), who, amount);
      RemoveShareExact(PoolOf(s, DexPremium(lp)), who, amount);
      TransferSucceeds(s.ledger, lp, k.keeper, who, amount);
      TransferEffect(s.ledger, lp, k.keeper, who, amount);
      OtherStakes(k, s, WithdrawShare(k, s, who, lp, amount).value, lp);
    }
  }

  /** What was deposited can be withdrawn at once, and everybody's balances and shares are then as
      before. */
  lemma DepositThenWithdraw(k: Setup, s: State, who: AccountId, lp: CurrencyId, amount: Balance)
    requires Inv(k, s) && who != k.keeper && DepositShare(k, s, who, lp, amount).Ok?
    ensures var t := DepositShare(k, s, who, lp, amount).value;
            var r := WithdrawShare(k, t, who, lp, amount);
            && r.Ok?
            && (forall c, a :: Free(r.value.ledger, c, a) == Free(s.ledger, c, a))
            && (forall id, a :: Share(r.value, id, a) == Share(s, id, a))
  {
    hide Inv;
    var t := DepositShare(k, s, who, lp, amount).value;
    DepositKeepsStakes(k, s, who, lp, amount);
    WithdrawKeepsStakes(k, t, who, lp, amount);
    var u := WithdrawShare(k, t, who, lp, amount).value;
    TransferEffect(s.ledger, lp, who, k.keeper, amount);
    TransferEffect(t.ledger, lp, k.keeper, who, amount);
    forall id: PoolId, a ensures Share(u, id, a) == Share(s, id, a) { SharesRestored(k, s, t, u, who, lp, amount, id, a); }
  }

  lemma SharesRestored(k: Setup, s: State, t: State, u: State, who: AccountId, lp: CurrencyId, amount: Balance,
                       id: PoolId, a: AccountId)
    requires Inv(k, s) && who != k.keeper
    requires DepositShare(k, s, who, lp, amount) == Ok(t) && WithdrawShare(k, t, who, lp, amount) == Ok(u)
    ensures Share(u, id, a) == Share(s, id, a)
  {
    if id.lp == lp {
      hide PoolOk, AddShare, RemoveShare, Transfer, SameShares, Consistent, Surplus, Free;
      assert StakeOk(k, s, lp);
      DepositKeepsStakes(k, s, who, lp, amount);
      assert StakeOk(k, t, lp);
      TransferEffect(s.ledger, lp, who, k.keeper, amount);
      AddShareExact(PoolOf(s, id), who, amount);
      RemoveShareExact(PoolOf(t, id), who, amount);
    }
  }

  // ----- the rewards are exact -----

  ghost predicate Filled(k: Setup, l: Ledger, m: Ledger, incentive: nat, premium: nat) {
    && (Consistent(l) ==> Consistent(m))
    && forall c, a :: Free(m, c, a) == Free(l, c, a)
         + (if c == k.incentiveCurrency && a == k.incentiveVault then incentive else 0)
         + (if c == k.premiumCurrency && a == k.premiumVault then premium else 0)
  }

  lemma IssuedFills(k: Setup, s: State, l: Ledger, id: PoolId)
    requires Issued(k, s, l, id).Some?
    ensures var x := RateOf(s, id);
            Filled(k, l, Issued(k, s, l, id).value, if id.DexIncentive? then x else 0, if id.DexIncentive? then 0 else x)
  {
    DepositEffect(l, CurrencyOf(k, id), VaultOf(k, id), RateOf(s, id));
  }

  lemma FilledTwice(k: Setup, l: Ledger, m: Ledger, n: Ledger, i: nat, p: nat, i': nat, p': nat)
    requires Filled(k, l, m, i, p) && Filled(k, m, n, i', p')
    ensures Filled(k, l, n, i + i', p + p')
  {
    forall c, a ensures Free(n, c, a) == Free(l, c, a)
         + (if c == k.incentiveCurrency && a == k.incentiveVault then i + i' else 0)
         + (if c == k.premiumCurrency && a == k.premiumVault then p + p' else 0)
    {
      assert Free(n, c, a) == Free(m, c, a)
         + (if c == k.incentiveCurrency && a == k.incentiveVault then i' else 0)
         + (if c == k.premiumCurrency && a == k.premiumVault then p' else 0);
    }
  }

  /** In any order, the vaults grow by exactly what is announced to their pools, nothing else
      changes, and every announcement names a pool with shares at its rate. */
  lemma {:induction false} VaultsGrowAsAnnounced(k: Setup, s: State, l: Ledger, order: seq<PoolId>)
    ensures var (m, calls) := IssueAll(k, s, l, order);
            && Filled(k, l, m, Announced(calls, true), Announced(calls, false))
            && forall i :: 0 <= i < |calls| ==>
                 calls[i].0 in order && PoolOf(s, calls[i].0).total > 0 && calls[i].1 == RateOf(s, calls[i].0) > 0
    decreases |order|
  {
    hide Filled;
    if order == [] {
      NothingFilled(k, l);
    } else {
      match Issued(k, s, l, order[0])
      case None => VaultsGrowAsAnnounced(k, s, l, order[1..]);
      case Some(m) =>
        VaultsGrowAsAnnounced(k, s, m, order[1..]);
        IssuedFills(k, s, l, order[0]);
        var (last, rest) := IssueAll(k, s, m, order[1..]);
        var calls, x := [(order[0], RateOf(s, order[0]))] + rest, RateOf(s, order[0]);
        assert calls[1..] == rest;
        var i, p := if order[0].DexIncentive? then x else 0, if order[0].DexIncentive? then 0 else x;
        FilledTwice(k, l, m, last, i, p, Announced(rest, true), Announced(rest, false));
        assert order[0] in order;
    }
  }

  lemma NothingFilled(k: Setup, l: Ledger)
    ensures Filled(k, l, l, 0, 0)
  {}

  /** So what is announced always fits, and the running totals cannot saturate. */
  lemma AnnouncementsFit(k: Setup, s: State, l: Ledger, order: seq<PoolId>)
    ensures var calls := IssueAll(k, s, l, order).1; Announced(calls, true) <= U128_MAX && Announced(calls, false) <= U128_MAX
  {
    VaultsGrowAsAnnounced(k, s, l, order);
    var (m, calls) := IssueAll(k, s, l, order);
    assert Free(m, k.incentiveCurrency, k.incentiveVault) >= Announced(calls, true);
    assert Free(m, k.premiumCurrency, k.premiumVault) >= Announced(calls, false);
  }

  // ----- who gets what -----

  /** Staking is for liquidity shares that the account has. */
  lemma DepositAcceptedExactlyWhen(k: Setup, s: State, who: AccountId, lp: CurrencyId, amount: Balance)
    requires who != k.keeper
    ensures var r := DepositShare(k, s, who, lp, amount);
            && (r.Ok? <==> lp.LpShare? && (amount == 0
                           || (Free(s.ledger, lp, who) >= amount && Free(s.ledger, lp, k.keeper) + amount <= U128_MAX)))
            && (!lp.LpShare? <==> r == Err(InvalidCurrencyId))
  {
    hide AddShare;
  }

  lemma {:induction false} IssuingInTurn(k: Setup, s: State, l: Ledger, first: seq<PoolId>, rest: seq<PoolId>)
    ensures var (m, calls) := IssueAll(k, s, l, first);
            var (n, more) := IssueAll(k, s, m, rest);
            IssueAll(k, s, l, first + rest) == (n, calls + more)
    decreases |first|
  {
    if first == [] {
      assert first + rest == rest;
      assert [] + IssueAll(k, s, l, rest).1 == IssueAll(k, s, l, rest).1;
    } else {
      assert (first + rest)[1..] == first[1..] + rest;
      match Issued(k, s, l, first[0])
      case None => IssuingInTurn(k, s, l, first[1..], rest);
      case Some(m) =>
        IssuingInTurn(k, s, m, first[1..], rest);
        var (n, calls) := IssueAll(k, s, m, first[1..]);
        var (_, more) := IssueAll(k, s, n, rest);
        var one := [(first[0], RateOf(s, first[0]))];
        assert one + (calls + more) == (one + calls) + more;
    }
  }

  lemma IssuingOne(k: Setup, s: State, m: Ledger, id: PoolId)
    ensures IssueAll(k, s, m, [id])
            == if Issued(k, s, m, id).None? then (m, []) else (Issued(k, s, m, id).value, [(id, RateOf(s, id))])
  {
    hide Issued;
    assert [id][1..] == [];
    assert forall n :: IssueAll(k, s, n, []) == (n, []);
    assert [(id, RateOf(s, id))] + [] == [(id, RateOf(s, id))];
  }

  /** When its turn comes, a pool is announced, at its rate, exactly when it has shares and a rate and
      the reward fits into the vault and the issuance. */
  lemma AnnouncedExactlyWhen(k: Setup, s: State, l: Ledger, first: seq<PoolId>, id: PoolId, rest: seq<PoolId>)
    ensures var (m, calls), c, v, rate := IssueAll(k, s, l, first), CurrencyOf(k, id), VaultOf(k, id), RateOf(s, id);
            var all := IssueAll(k, s, l, first + [id] + rest).1;
            && calls <= all
            && if PoolOf(s, id).total > 0 && rate > 0 && Issuance(m, c) + rate <= U128_MAX && Free(m, c, v) + rate <= U128_MAX then
                 all == calls + [(id, rate)] + IssueAll(k, s, IssueAll(k, s, l, first + [id]).0, rest).1
               else all == calls + IssueAll(k, s, m, rest).1
  {
    IssuingInTurn(k, s, l, first, [id]);
    IssuingInTurn(k, s, l, first + [id], rest);
    var m := IssueAll(k, s, l, first).0;
    IssuingOne(k, s, m, id);
    hide IssueAll, SetFree;
  }

  /** A reward is paid out exactly when the vault has it. */
  lemma PayoutExactlyWhen(k: Setup, s: State, who: AccountId, id: PoolId, amount: Balance)
    requires who != VaultOf(k, id) && amount > 0
    ensures var t, c, v := Payout(k, s, who, id, amount), CurrencyOf(k, id), VaultOf(k, id);
            && t.pools == s.pools && t.rates == s.rates
            && if Free(s.ledger, c, v) >= amount && Free(s.ledger, c, who) + amount <= U128_MAX then
                 && Free(t.ledger, c, v) == Free(s.ledger, c, v) - amount
                 && Free(t.ledger, c, who) == Free(s.ledger, c, who) + amount
               else t == s
  {
    if Transfer(s.ledger, CurrencyOf(k, id), VaultOf(k, id), who, amount).Some? {
      TransferEffect(s.ledger, CurrencyOf(k, id), VaultOf(k, id), who, amount);
    }
  }

  // ----- whole runs -----

  datatype Action =
    | Stake(who: AccountId, lp: CurrencyId, amount: Balance)
    | Unstake(who: AccountId, lp: CurrencyId, amount: Balance)
    | Accumulate(order: seq<PoolId>)
    | PayOut(who: AccountId, id: PoolId, amount: Balance)
    | SetRates(rates: map<PoolId, Balance>)
    | Elsewhere(ledger: Ledger)

  /** The keeper does not stake, and other modules do not take shares from it. */
  ghost predicate Legal(k: Setup, s: State, x: Action) {
    match x
    case Stake(who, _, _) => who != k.keeper
    case Unstake(who, _, _) => who != k.keeper
    case Accumulate(_) => true
    case PayOut(_, _, _) => true
    case SetRates(_) => true
    case Elsewhere(l) =>
      Consistent(l) && forall c: CurrencyId :: c.LpShare? ==> Free(l, c, k.keeper) >= Free(s.ledger, c, k.keeper)
  }

  function Step(k: Setup, s: State, x: Action): State {
    match x
    case Stake(who, lp, amount) => var r := DepositShare(k, s, who, lp, amount); if r.Ok? then r.value else s
    case Unstake(who, lp, amount) => var r := WithdrawShare(k, s, who, lp, amount); if r.Ok? then r.value else s
    case Accumulate(order) => s.(ledger := IssueAll(k, s, s.ledger, order).0)
    case PayOut(who, id, amount) => Payout(k, s, who, id, amount)
    case SetRates(rates) => s.(rates := rates)
    case Elsewhere(l) => s.(ledger := l)
  }

  lemma OnlyMoreKept(k: Setup, s: State, t: State)
    requires Inv(k, s) && t.pools == s.pools && Consistent(t.ledger)
    requires forall c: CurrencyId :: c.LpShare? ==> Free(t.ledger, c, k.keeper) >= Free(s.ledger, c, k.keeper)
    ensures Inv(k, t)
  {
    forall c: CurrencyId | c.LpShare? ensures StakeOk(k, t, c) { assert StakeOk(k, s, c); }
  }

  /** Rewards are not paid in liquidity shares. */
  predicate PlainRewards(k: Setup) { !k.incentiveCurrency.LpShare? && !k.premiumCurrency.LpShare? }

  lemma PayoutKeepsStakes(k: Setup, s: State, who: AccountId, id: PoolId, amount: Balance)
    requires Inv(k, s) && PlainRewards(k)
    ensures Inv(k, Payout(k, s, who, id, amount))
    ensures var t, v := Payout(k, s, who, id, amount), VaultOf(k, id);
            t == s || v == who
            || (Free(t.ledger, CurrencyOf(k, id), v) == Free(s.ledger, CurrencyOf(k, id), v) - amount
                && Free(t.ledger, CurrencyOf(k, id), who) == Free(s.ledger, CurrencyOf(k, id), who) + amount)
  {
    var v, c := VaultOf(k, id), CurrencyOf(k, id);
    if Transfer(s.ledger, c, v, who, amount).Some? && v != who {
      TransferEffect(s.ledger, c, v, who, amount);
      OnlyMoreKept(k, s, Payout(k, s, who, id, amount));
    }
  }

  lemma StepKeepsStakes(k: Setup, s: State, x: Action)
    requires Inv(k, s) && PlainRewards(k) && Legal(k, s, x)
    ensures Inv(k, Step(k, s, x))
  {
    hide Inv, DepositShare, IssueAll, Payout;
    match x
    case Stake(who, lp, amount) =>
      if DepositShare(k, s, who, lp, amount).Ok? { DepositKeepsStakes(k, s, who, lp, amount); }
    case Unstake(who, lp, amount) =>
      if lp.LpShare? { WithdrawKeepsStakes(k, s, who, lp, amount); }
    case Accumulate(order) => AccumulateKeepsStakes(k, s, order);
    case PayOut(who, id, amount) => PayoutKeepsStakes(k, s, who, id, amount);
    case SetRates(rates) => OtherRates(k, s, rates);
    case Elsewhere(l) => OnlyMoreKept(k, s, s.(ledger := l));
  }

  lemma OtherRates(k: Setup, s: State, rates: map<PoolId, Balance>)
    requires Inv(k, s)
    ensures Inv(k, s.(rates := rates))
  {
    OnlyMoreKept(k, s, s.(rates := rates));
  }

  lemma AccumulateKeepsStakes(k: Setup, s: State, order: seq<PoolId>)
    requires Inv(k, s)
    ensures Inv(k, s.(ledger := IssueAll(k, s, s.ledger, order).0))
  {
    VaultsGrowAsAnnounced(k, s, s.ledger, order);
    OnlyMoreKept(k, s, s.(ledger := IssueAll(k, s, s.ledger, order).0));
  }

  ghost predicate LegalRun(k: Setup, s: State, run: seq<Action>)
    decreases |run|
  {
    run == [] || (Legal(k, s, run[0]) && LegalRun(k, Step(k, s, run[0]), run[1..]))
  }

  function Run(k: Setup, s: State, run: seq<Action>): State
    decreases |run|
  {
    if run == [] then s else Run(k, Step(k, s, run[0]), run[1..])
  }

  /** Over any run both pools agree on every share, and everybody can withdraw exactly what they
      have staked. */
  lemma {:induction false} StakesOverRuns(k: Setup, s: State, run: seq<Action>, who: AccountId, lp: CurrencyId,
                                          amount: Balance)
    requires Inv(k, s) && PlainRewards(k) && LegalRun(k, s, run) && who != k.keeper && lp.LpShare?
    ensures var t := Run(k, s, run);
            && Inv(k, t)
            && Share(t, DexIncentive(lp), who) == Share(t, DexPremium(lp), who)
            && (WithdrawShare(k, t, who, lp, amount).Ok? <==> Share(t, DexIncentive(lp), who) >= amount)
    decreases |run|
  {
    if run == [] {
      assert StakeOk(k, s, lp);
      WithdrawKeepsStakes(k, s, who, lp, amount);
    } else {
      hide Inv, Step, Legal, WithdrawShare;
      StepKeepsStakes(k, s, run[0]);
      StakesOverRuns(k, Step(k, s, run[0]), run[1..], who, lp, amount);
    }
  }

  lemma OtherSurplus(k: Setup, s: State, who: AccountId, lp: CurrencyId, amount: Balance, c: CurrencyId)
    requires Inv(k, s) && who != k.keeper && c.LpShare? && c != lp
    ensures DepositShare(k, s, who, lp, amount).Ok? ==> Surplus(k, DepositShare(k, s, who, lp, amount).value, c) == Surplus(k, s, c)
    ensures WithdrawShare(k, s, who, lp, amount).Ok? ==> Surplus(k, WithdrawShare(k, s, who, lp, amount).value, c) == Surplus(k, s, c)
  {
    hide AddShare, RemoveShare, Inv;
    if Transfer(s.ledger, lp, who, k.keeper, amount).Some? { TransferEffect(s.ledger, lp, who, k.keeper, amount); }
    if Transfer(s.ledger, lp, k.keeper, who, amount).Some? { TransferEffect(s.ledger, lp, k.keeper, who, amount); }
  }

  lemma StepKeepsSurplus(k: Setup, s: State, x: Action, c: CurrencyId)
    requires Inv(k, s) && PlainRewards(k) && Legal(k, s, x) && !x.Elsewhere? && c.LpShare?
    ensures Surplus(k, Step(k, s, x), c) == Surplus(k, s, c)
  {
    hide Inv, DepositShare, WithdrawShare, IssueAll;
    match x
    case Stake(who, lp, amount) =>
      if c != lp { OtherSurplus(k, s, who, lp, amount, c); }
      else if DepositShare(k, s, who, lp, amount).Ok? { DepositKeepsStakes(k, s, who, lp, amount); }
    case Unstake(who, lp, amount) =>
      if c != lp { OtherSurplus(k, s, who, lp, amount, c); }
      else { WithdrawKeepsStakes(k, s, who, lp, amount); }
    case Accumulate(order) => VaultsGrowAsAnnounced(k, s, s.ledger, order);
    case PayOut(who, id, amount) =>
      var v, paid := VaultOf(k, id), CurrencyOf(k, id);
      if Transfer(s.ledger, paid, v, who, amount).Some? && v != who { TransferEffect(s.ledger, paid, v, who, amount); }
    case SetRates(_) =>
    case Elsewhere(_) =>
  }

  /** Without interference the keeper holds, at the end of any run, exactly the staked shares and what
      it held beyond them at the start. */
  lemma {:induction false} SurplusOverRuns(k: Setup, s: State, run: seq<Action>, c: CurrencyId)
    requires Inv(k, s) && PlainRewards(k) && LegalRun(k, s, run) && c.LpShare?
    requires forall i :: 0 <= i < |run| ==> !run[i].Elsewhere?
    ensures Surplus(k, Run(k, s, run), c) == Surplus(k, s, c)
    decreases |run|
  {
    hide Inv, Step, Legal, Surplus;
    if run != [] {
      StepKeepsStakes(k, s, run[0]);
      StepKeepsSurplus(k, s, run[0], c);
      assert forall i :: 0 <= i < |run[1..]| ==> run[1..][i] == run[i + 1];
      SurplusOverRuns(k, Step(k, s, run[0]), run[1..], c);
    }
  }
}
