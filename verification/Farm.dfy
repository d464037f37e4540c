/** Staking as the runtime executes it: balances and shares updated in place, and a loop over the
    reward pools in whatever order the storage yields them. */
module Farms {
  import opened Numbers
  import opened Wrappers
  import opened Currencies
  import opened Ledgers
  import opened Incentives

  lemma {:induction false} IssueOneMore(k: Setup, s: State, l: Ledger, order: seq<PoolId>, id: PoolId)
    ensures var (m, calls) := IssueAll(k, s, l, order);
            IssueAll(k, s, l, order + [id])
            == if Issued(k, s, m, id).Some? then (Issued(k, s, m, id).value, calls + [(id, RateOf(s, id))]) else (m, calls)
    decreases |order|
  {
    hide Issued;
    var longer := order + [id];
    if order == [] {
      assert longer[0] == id && longer[1..] == [];
      var alone: (PoolId, Balance) := (id, RateOf(s, id));
      assert [] + [alone] == [alone] + [];
    } else {
      assert longer[0] == order[0] && longer[1..] == order[1..] + [id];
      var first := Issued(k, s, l, order[0]);
      var next := if first.Some? then first.value else l;
      IssueOneMore(k, s, next, order[1..], id);
      var (m, rest) := IssueAll(k, s, next, order[1..]);
      var (m', rest') := IssueAll(k, s, next, order[1..] + [id]);
      if first.Some? && Issued(k, s, m, id).Some? {
        var call := (order[0], RateOf(s, order[0]));
        assert [call] + (rest + [(id, RateOf(s, id))]) == ([call] + rest) + [(id, RateOf(s, id))];
      }
    }
  }

  lemma {:induction false} AnnouncedOneMore(calls: seq<(PoolId, Balance)>, call: (PoolId, Balance), incentive: bool)
    ensures Announced(calls + [call], incentive)
            == Announced(calls, incentive) + if call.0.DexIncentive? == incentive then call.1 else 0
  {
    var longer := calls + [call];
    if calls == [] {
      assert longer[1..] == [];
    } else {
      assert longer[0] == calls[0] && longer[1..] == calls[1..] + [call];
      AnnouncedOneMore(calls[1..], call, incentive);
    }
  }

  /** Every pool once. */
  ghost predicate IsOrderOf(order: seq<PoolId>, ids: set<PoolId>) {
    (forall i, j :: 0 <= i < j < |order| ==> order[i] != order[j]) && forall id :: id in order <==> id in ids
  }

  class Farm {
    var ledger: Ledger
    var pools: map<PoolId, Pool>
    var rates: map<PoolId, Balance>
    const setup: Setup

    function Storage(): State
      reads this
    {
      State(ledger, pools, rates)
    }

    constructor (setup: Setup, ledger: Ledger)
      ensures this.setup == setup && Storage() == State(ledger, map[], map[])
    {
      this.setup, this.ledger, pools, rates := setup, ledger, map[], map[];
    }

    method DoDepositDexShare(who: AccountId, lp: CurrencyId, amount: Balance) returns (r: Result<(), Error>)
      modifies this`ledger, this`pools
      ensures match DepositShare(setup, old(Storage()), who, lp, amount)
              case Err(e) => r == Err(e) && Storage() == old(Storage())
              case Ok(t) => r == Ok(()) && Storage() == t
    {
      if !lp.LpShare? { return Err(InvalidCurrencyId); }
      var moved := Transfer(ledger, lp, who, setup.keeper, amount);
      if moved.None? { return Err(LedgerRefused); }
      ledger := moved.value;
      pools := pools[DexIncentive(lp) := AddShare(PoolOf(Storage(), DexIncentive(lp)), who, amount)];
      pools := pools[DexPremium(lp) := AddShare(PoolOf(Storage(), DexPremium(lp)), who, amount)];
      r := Ok(());
    }

    method DoWithdrawDexShare(who: AccountId, lp: CurrencyId, amount: Balance) returns (r: Result<(), Error>)
      modifies this`ledger, this`pools
      ensures match WithdrawShare(setup, old(Storage()), who, lp, amount)
              case Err(e) => r == Err(e) && Storage() == old(Storage())
              case Ok(t) => r == Ok(()) && Storage() == t
    {
      if !lp.LpShare? { return Err(InvalidCurrencyId); }
      if !(Share(Storage(), DexIncentive(lp), who) >= amount && Share(Storage(), DexPremium(lp), who) >= amount) {
        return Err(NotEnough);
      }
      var moved := Transfer(ledger, lp, setup.keeper, who, amount);
      if moved.None? { return Err(LedgerRefused); }
      ledger := moved.value;
      pools := pools[DexIncentive(lp) := RemoveShare(PoolOf(Storage(), DexIncentive(lp)), who, amount)];
      pools := pools[DexPremium(lp) := RemoveShare(PoolOf(Storage(), DexPremium(lp)), who, amount)];
      r := Ok(());
    }

    method PayOutReward(who: AccountId, id: PoolId, amount: Balance)
      modifies this`ledger
      ensures Storage() == Payout(setup, old(Storage()), who, id, amount)
    {
      var moved := Transfer(ledger, CurrencyOf(setup, id), VaultOf(setup, id), who, amount);
      if moved.Some? { ledger := moved.value; }
    }

    /** Issues the rewards of a period. The totals returned are exactly what was announced to the
        pools, which is exactly what the vaults have gained. */
    method AccumulateReward(now: nat, period: nat)
      returns (totals: seq<(CurrencyId, Balance)>, calls: seq<(PoolId, Balance)>, ghost order: seq<PoolId>)
      requires period > 0
      modifies this`ledger
      ensures now % period != 0 ==> totals == [] && calls == [] && ledger == old(ledger)
      ensures now % period == 0 ==>
                && IsOrderOf(order, pools.Keys)
                && (ledger, calls) == IssueAll(setup, old(Storage()), old(ledger), order)
                && Filled(setup, old(ledger), ledger, Announced(calls, true), Announced(calls, false))
                && Announced(calls, true) <= U128_MAX && Announced(calls, false) <= U128_MAX
                && totals == (if Announced(calls, true) == 0 then [] else [(setup.incentiveCurrency, Announced(calls, true))])
                           + (if Announced(calls, false) == 0 then [] else [(setup.premiumCurrency, Announced(calls, false))])
    {
      hide Filled;
      totals, calls, order := [], [], [];
      if now % period != 0 { return; }
      ghost var s := Storage();
      var incentives: Balance, premiums: Balance, rest := 0, 0, pools.Keys;
      while rest != {}
        invariant rest <= pools.Keys && IsOrderOf(order, pools.Keys - rest)
        invariant (ledger, calls) == IssueAll(setup, s, s.ledger, order)
        invariant incentives == Announced(calls, true) && premiums == Announced(calls, false)
        decreases |rest|
      {
        var id :| id in rest;
        rest := rest - {id};
        IssueOneMore(setup, s, s.ledger, order, id);
        AnnouncementsFit(setup, s, s.ledger, order + [id]);
        if PoolOf(Storage(), id).total != 0 && RateOf(Storage(), id) != 0 {
          var reward := RateOf(Storage(), id);
          var issued := Deposit(ledger, CurrencyOf(setup, id), VaultOf(setup, id), reward);
          if issued.Some? {
            ledger := issued.value;
            AnnouncedOneMore(calls, (id, reward), true);
            AnnouncedOneMore(calls, (id, reward), false);
            calls := calls + [(id, reward)];
            if id.DexIncentive? { incentives := SatAdd(incentives, reward); } else { premiums := SatAdd(premiums, reward); }
          }
        }
        order := order + [id];
      }
      VaultsGrowAsAnnounced(setup, s, s.ledger, order);
      if incentives != 0 { totals := totals + [(setup.incentiveCurrency, incentives)]; }
      if premiums != 0 { totals := totals + [(setup.premiumCurrency, premiums)]; }
    }
  }
}
