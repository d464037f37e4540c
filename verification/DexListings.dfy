/** When pairs are listed, provisioned, enabled and disabled, and what that leaves behind. */
module DexListings {
  import opened Numbers
  import opened Wrappers
  import opened Currencies
  import opened Ledgers
  import opened Dex
  import opened DexProvision
  import opened DexCustody
  import opened DexParties

  /** A pair can be listed exactly when it consists of two different tokens, is not in use, and has no
      shares left over; the amounts follow the currencies they were given for. */
  lemma ListingOutcome(s: State, a: CurrencyId, b: CurrencyId, minA: Balance, minB: Balance, targetA: Balance,
                       targetB: Balance, notBefore: nat)
    ensures var x, p := ListTradingPair(s, a, b, minA, minB, targetA, targetB, notBefore), NewPair(a, b);
            && (x.Ok? <==> && a != b && Tradable(a) && Tradable(b) && StatusOf(s, p) == NotEnabled
                           && Issuance(s.ledger, ShareCurrency(p).GetOr(a)) == 0)
            && (x.Ok? ==>
                  && StatusOf(x.value, p).Provisioning?
                  && var par := StatusOf(x.value, p).parameters;
                     && InPairOrder(p, a, par.minContribution.fst, par.minContribution.snd) == Amounts(minA, minB)
                     && InPairOrder(p, a, par.target.fst, par.target.snd) == Amounts(targetA, targetB)
                     && par.accumulated == NONE && par.notBefore == notBefore
                     && x.value == s.(statuses := s.statuses[p := Provisioning(par)]))
  {
    TokenPairsHaveShares(a, b);
    hide ShareCurrency, NewPair;
  }

  lemma EnablingOutcome(s: State, a: CurrencyId, b: CurrencyId)
    ensures var x, p := EnableTradingPair(s, a, b), NewPair(a, b);
            && (x.Ok? <==> Tradable(a) && Tradable(b) && StatusOf(s, p) == NotEnabled)
            && (x.Ok? ==> x.value == s.(statuses := s.statuses[p := Enabled]))
  {
    TokenPairsHaveShares(a, b);
    hide NewPair;
  }

  /** A pair in use can always be disabled. An enabled one keeps its pool and all shares; what happens to
      the contributions of a provisioning one is stated with the custody of the exchange. */
  lemma DisablingOutcome(s: State, a: CurrencyId, b: CurrencyId, order: seq<AccountId>)
    requires Inv(s) && IsOrderOf(order, ContributionsTo(s, NewPair(a, b)))
    ensures FromTokens(a, b).Some? ==> Within(order, ContributionsTo(s, FromTokens(a, b).value))
    ensures var x, p := DisableTradingPair(s, a, b, order), NewPair(a, b);
            && (x.Ok? <==> Tradable(a) && Tradable(b) && StatusOf(s, p) != NotEnabled)
            && (x.Ok? ==>
                  && StatusOf(x.value, p) == NotEnabled && x.value.pools == s.pools
                  && (forall q :: q != p ==> StatusOf(x.value, q) == StatusOf(s, q))
                  && (StatusOf(s, p) == Enabled ==> x.value.ledger == s.ledger && x.value.contributions == s.contributions))
  {
    hide Inv, Refund, NewPair, Slack;
    TokenPairsHaveShares(a, b);
    forall i | 0 <= i < |order| ensures order[i] in ContributionsTo(s, NewPair(a, b)) { assert order[i] in order; }
    if FromTokens(a, b).Some? && StatusOf(s, NewPair(a, b)).Provisioning? { DisableRefundsExactly(s, a, b, order); }
  }

  /** A provision is accepted exactly when the pair takes provisions, one of the two amounts reaches its
      minimum, and the account can pay. */
  lemma ProvidingAcceptedExactlyWhen(s: State, who: AccountId, a: CurrencyId, b: CurrencyId, x: Balance, y: Balance)
    ensures var r, p := AddProvision(s, who, a, b, x, y), NewPair(a, b);
            && (r.Ok? <==>
                  && StatusOf(s, p).Provisioning?
                  && var min, given := StatusOf(s, p).parameters.minContribution, InPairOrder(p, a, x, y);
                     && (given.fst >= min.fst || given.snd >= min.snd)
                     && TransferBoth(s.ledger, p, who, MODULE_ACCOUNT, given).Some?)
            && (!StatusOf(s, p).Provisioning? <==> r == Err(MustBeProvisioning))
  {
    hide TransferBoth;
  }

  /** A provisioning pair is enabled exactly when its time has come, both currencies have been provided,
      and one of them reaches its target; otherwise nothing happens. */
  lemma EnabledExactlyWhen(s: State, p: TradingPair, now: nat, order: seq<AccountId>)
    requires Inv(s) && IsOrderOf(order, ContributionsTo(s, p)) && Within(order, ContributionsTo(s, p))
    requires StatusOf(s, p).Provisioning?
    ensures var t, par := ConvertToEnabled(s, p, now, order), StatusOf(s, p).parameters;
            if && now >= par.notBefore && par.accumulated.fst > 0 && par.accumulated.snd > 0
               && (par.accumulated.fst >= par.target.fst || par.accumulated.snd >= par.target.snd) then
              && StatusOf(t, p) == Enabled && ContributionsTo(t, p) == map[]
              && PoolOf(t.pools, p).fst == PoolOf(s.pools, p).fst + par.accumulated.fst
              && PoolOf(t.pools, p).snd == PoolOf(s.pools, p).snd + par.accumulated.snd
            else t == s
  {
    hide IssueInitial, Slack, SumFst, SumSnd;
    assert PairOk(s, p);
    ProvisionFits(s, p);
  }

  /** The one call that adds liquidity does what the status of the pair says. */
  lemma AddingFollowsTheStatus(s: State, who: AccountId, a: CurrencyId, b: CurrencyId, maxA: Balance, maxB: Balance,
                               min: Balance, now: nat, order: seq<AccountId>)
    requires forall i :: 0 <= i < |order| && order[i] != who ==> order[i] in ContributionsTo(s, NewPair(a, b))
    requires Tradable(a) && Tradable(b)
    ensures var x, p := AddLiquidityCall(s, who, a, b, maxA, maxB, min, now, order), NewPair(a, b);
            && (StatusOf(s, p) == NotEnabled <==> x == Err(NotEnabledTradingPair))
            && (StatusOf(s, p) == Enabled ==> x == AddLiquidity(s, who, a, b, maxA, maxB, min))
            && (StatusOf(s, p).Provisioning? ==> (x.Ok? <==> AddProvision(s, who, a, b, maxA, maxB).Ok?))
  {
    TokenPairsHaveShares(a, b);
    hide AddLiquidity, ConvertToEnabled, TransferBoth;
    ErrorsOfAdding(s, who, a, b, maxA, maxB, min);
  }

  /** With the provision that completes it a pair is enabled in the same call. */
  lemma LastProvisionEnables(s: State, who: AccountId, a: CurrencyId, b: CurrencyId, x: Balance, y: Balance, min: Balance,
                             now: nat, order: seq<AccountId>)
    requires forall i :: 0 <= i < |order| && order[i] != who ==> order[i] in ContributionsTo(s, NewPair(a, b))
    requires Inv(s) && who != MODULE_ACCOUNT && Tradable(a) && Tradable(b) && AddProvision(s, who, a, b, x, y).Ok?
    requires IsOrderOf(order, ContributionsTo(AddProvision(s, who, a, b, x, y).value, NewPair(a, b)))
    ensures var r, t, p := AddLiquidityCall(s, who, a, b, x, y, min, now, order), AddProvision(s, who, a, b, x, y).value, NewPair(a, b);
            && r.Ok? && StatusOf(t, p).Provisioning?
            && var par := StatusOf(t, p).parameters;
               if && now >= par.notBefore && par.accumulated.fst > 0 && par.accumulated.snd > 0
                  && (par.accumulated.fst >= par.target.fst || par.accumulated.snd >= par.target.snd) then
                 StatusOf(r.value, p) == Enabled && ContributionsTo(r.value, p) == map[]
               else r.value == t
  {
    TokenPairsHaveShares(a, b);
    var p, t := NewPair(a, b), AddProvision(s, who, a, b, x, y).value;
    AddProvisionKeepsCustody(s, who, a, b, x, y);
    StillProvisioning(s, who, a, b, x, y);
    forall i | 0 <= i < |order| ensures order[i] in ContributionsTo(t, p) { assert order[i] in order; }
    hide Inv, AddProvision, ConvertToEnabled, NewPair;
    EnabledExactlyWhen(t, p, now, order);
  }

  lemma StillProvisioning(s: State, who: AccountId, a: CurrencyId, b: CurrencyId, x: Balance, y: Balance)
    requires AddProvision(s, who, a, b, x, y).Ok?
    ensures StatusOf(s, NewPair(a, b)).Provisioning? && StatusOf(AddProvision(s, who, a, b, x, y).value, NewPair(a, b)).Provisioning?
  {
    hide TransferBoth, NewPair;
  }

  lemma ErrorsOfAdding(s: State, who: AccountId, a: CurrencyId, b: CurrencyId, x: Balance, y: Balance, min: Balance)
    ensures AddLiquidity(s, who, a, b, x, y, min) != Err(NotEnabledTradingPair)
    ensures AddProvision(s, who, a, b, x, y) != Err(NotEnabledTradingPair)
  {
    hide LiquidityIncrement, TransferBoth, Deposit;
  }
}
