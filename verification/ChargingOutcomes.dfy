/** Which currency is swapped for a fee, when a fee can be charged, and how much. */
module ChargingOutcomes {
  import opened Numbers
  import opened Wrappers
  import opened FixedPoint
  import opened Currencies
  import opened Ledgers
  import Dex
  import DexOutcomes
  import opened Fees
  import opened FeeSwaps
  import opened FeeMultiplier
  import opened Charging

  // ----- the swap -----

  /** A currency can be swapped for a fee exactly when the fee is quoted along the path through the
      common currency, within the slippage, for no more than the account has, and can be settled. */
  lemma FeeSwapExactlyWhen(p: Plan, s: Dex.State, who: AccountId, fee: Balance, c: CurrencyId)
    requires who != Dex.MODULE_ACCOUNT
    ensures var path := if c == p.setter then [p.setter, p.native] else [c, p.setter, p.native];
            var q := Dex.SupplyAmounts(s, path, fee, Some(p.slippage));
            && (SwapFor(p, s, who, fee, c).Ok?
                <==> q.Ok? && q.value[0] <= Free(s.ledger, c, who) && DexOutcomes.Affordable(s.ledger, who, path, q.value))
            && (SwapFor(p, s, who, fee, c).Ok? ==>
                  SwapFor(p, s, who, fee, c).value.1 == q.value[0]
                  && DexOutcomes.Swapped(s.ledger, SwapFor(p, s, who, fee, c).value.0.ledger, who, path, q.value))
  {
    hide Dex.SwapWithExactTarget, Dex.SupplyAmounts, DexOutcomes.Affordable, DexOutcomes.Swapped;
    DexOutcomes.ExactTargetOutcome(s, who, PathFrom(p, c), fee, Free(s.ledger, c, who), Some(p.slippage));
  }

  /** Currencies that do not help: the native one without enough, or one that cannot be swapped. */
  predicate Useless(p: Plan, s: Dex.State, frozen: Balance, who: AccountId, fee: Balance, c: CurrencyId) {
    if c == p.native then !Enough(p, s.ledger, frozen, who, fee) else SwapFor(p, s, who, fee, c).Err?
  }

  /** The first currency that helps decides: nothing happens if it is the native one, and otherwise it
      is the one that is swapped. */
  lemma {:induction false} FirstThatHelps(p: Plan, s: Dex.State, frozen: Balance, who: AccountId, fee: Balance,
                                          order: seq<CurrencyId>, i: nat)
    requires i < |order| && !Useless(p, s, frozen, who, fee, order[i])
    requires forall j :: 0 <= j < i ==> Useless(p, s, frozen, who, fee, order[j])
    ensures TryInOrder(p, s, frozen, who, fee, order)
            == if order[i] == p.native then s else SwapFor(p, s, who, fee, order[i]).value.0
    decreases i
  {
    hide SwapFor, Enough;
    if i > 0 {
      assert Useless(p, s, frozen, who, fee, order[0]);
      assert forall j :: 0 <= j < i - 1 ==> order[1..][j] == order[j + 1];
      FirstThatHelps(p, s, frozen, who, fee, order[1..], i - 1);
    }
  }

  /** A preferred currency that can be swapped is swapped, even when there is enough native currency;
      without one that can, enough native currency is left alone. */
  lemma PreferenceComesFirst(p: Plan, s: Dex.State, frozen: Balance, who: AccountId, fee: Balance, c: CurrencyId)
    requires c != p.native
    ensures SwapFor(p, s, who, fee, c).Ok? ==>
              EnsureCanCharge(p, s, frozen, who, fee, Some(c)) == SwapFor(p, s, who, fee, c).value.0
    ensures SwapFor(p, s, who, fee, c).Err? && Enough(p, s.ledger, frozen, who, fee) ==>
              EnsureCanCharge(p, s, frozen, who, fee, Some(c)) == s
  {
    hide SwapFor, Enough, TryInOrder;
    var order := Order(p, Some(c));
    DedupIsSound(p, s, frozen, who, fee, order);
    assert order[0] == c && order[1] == p.native;
    if SwapFor(p, s, who, fee, c).Ok? {
      FirstThatHelps(p, s, frozen, who, fee, order, 0);
    } else if Enough(p, s.ledger, frozen, who, fee) {
      FirstThatHelps(p, s, frozen, who, fee, order, 1);
    }
  }

  /** When neither helps, the other accepted currencies follow in their order. */
  lemma OthersFollow(p: Plan, s: Dex.State, frozen: Balance, who: AccountId, fee: Balance, preferred: Option<CurrencyId>,
                     i: nat)
    requires !Enough(p, s.ledger, frozen, who, fee) && i < |p.others|
    requires preferred.Some? ==> Useless(p, s, frozen, who, fee, preferred.value)
    requires p.others[i] != p.native && SwapFor(p, s, who, fee, p.others[i]).Ok?
    requires forall j :: 0 <= j < i ==> Useless(p, s, frozen, who, fee, p.others[j])
    ensures EnsureCanCharge(p, s, frozen, who, fee, preferred) == SwapFor(p, s, who, fee, p.others[i]).value.0
  {
    hide SwapFor, Enough, TryInOrder;
    var order, n := Order(p, preferred), if preferred.Some? then 2 else 1;
    DedupIsSound(p, s, frozen, who, fee, order);
    forall j | 0 <= j < n + i ensures Useless(p, s, frozen, who, fee, order[j]) {
      if j >= n { assert order[j] == p.others[j - n]; }
    }
    assert order[n + i] == p.others[i];
    FirstThatHelps(p, s, frozen, who, fee, order, n + i);
  }

  // ----- charging -----

  lemma EnsureOutcome(k: Terms, t: Till, who: AccountId, fee: Balance)
    requires who != Dex.MODULE_ACCOUNT && fee > 0
    ensures var ready := Ensure(k, t, who, fee);
            && ready == t.(dex := ready.dex)
            && NativeFree(k, ready, who) == NativeFree(k, t, who) + (if ready.dex == t.dex then 0 else fee)
  {
    hide TryInOrder, Dedup;
    CoveredOrUnchanged(k.plan, t.dex, Lookup(t.frozen, who), who, fee, Dedup(Order(k.plan, Preferred(t, who))));
  }

  /** A fee is withdrawn exactly when the balance, less the fee, stays above what is frozen, or something
      was swapped for it and the balance was not below that before. The payment is the fee. */
  lemma WithdrawalOutcome(k: Terms, t: Till, who: AccountId, len: Balance, info: Info, tip: Balance)
    requires who != Dex.MODULE_ACCOUNT
    ensures var fee, (u, r) := Fee(k.tariff, t.multiplier, len, info, tip), WithdrawFee(k, t, who, len, info, tip);
            var n, frozen, swapped := NativeFree(k, t, who), Lookup(t.frozen, who), Ensure(k, t, who, fee).dex != t.dex;
            if fee == 0 then u == t && r == Some((0, None))
            else && (r.Some? <==> n >= fee + frozen || (swapped && n >= frozen))
                 && (r.Some? ==> r.value == (fee, Some(fee)) && NativeFree(k, u, who) == n - if swapped then 0 else fee)
                 && (r.None? ==> u == Ensure(k, t, who, fee))
                 && u == t.(dex := u.dex)
  {
    hide Fee, Ensure;
    var fee := Fee(k.tariff, t.multiplier, len, info, tip);
    if fee > 0 {
      var ready := Ensure(k, t, who, fee);
      EnsureOutcome(k, t, who, fee);
      if WithdrawNative(k, ready, who, fee).Some? { WithdrawTakesExactly(k, ready, who, fee); }
      hide Total;
    }
  }

  /** A fee by weight is reserved under the same condition, if it fits beside what is reserved. */
  lemma ReservationOutcome(k: Terms, t: Till, who: AccountId, weight: nat)
    requires who != Dex.MODULE_ACCOUNT
    ensures var fee, (u, r) := PriceOf(k.tariff, weight), ReserveFee(k, t, who, weight);
            var n, frozen, swapped := NativeFree(k, t, who), Lookup(t.frozen, who), Ensure(k, t, who, fee).dex != t.dex;
            && r in {None, Some(fee)}
            && (fee > 0 ==>
                  && (r.Some? <==> (n >= fee + frozen || (swapped && n >= frozen)) && Lookup(t.reserved, who) + fee <= U128_MAX)
                  && (r.Some? ==>
                        && NativeFree(k, u, who) == n - (if swapped then 0 else fee)
                        && Lookup(u.reserved, who) == Lookup(t.reserved, who) + fee
                        && forall a :: a != who ==> Lookup(u.reserved, a) == Lookup(t.reserved, a)))
  {
    hide Ensure;
    var fee := WeightToFee(k.tariff, weight);
    assert fee == PriceOf(k.tariff, weight);
    hide WeightToFee, PriceOf;
    var ready := Ensure(k, t, who, fee);
    if fee > 0 {
      EnsureOutcome(k, t, who, fee);
      if CanWithdraw(k, ready, who, fee) { SetNativeTotal(k, ready, who, NativeFree(k, ready, who) - fee); }
      hide Total;
    }
  }

  /** A direct charge hands over exactly the fee, under the same condition. */
  lemma ChargeOutcome(k: Terms, t: Till, who: AccountId, len: Balance, weight: nat, tip: Balance, pays: Pays, kind: Class)
    requires who != Dex.MODULE_ACCOUNT
    ensures var fee := FinalFee(k.tariff, t.multiplier, len, weight, tip, pays, kind);
            var (u, done) := ChargeFee(k, t, who, len, weight, tip, pays, kind);
            var n, frozen, swapped := NativeFree(k, t, who), Lookup(t.frozen, who), Ensure(k, t, who, fee).dex != t.dex;
            && u.tips == t.tips && u.fees == t.fees + (if done then fee else 0)
            && (fee > 0 ==>
                  && (done <==> n >= fee + frozen || (swapped && n >= frozen))
                  && (done ==> NativeFree(k, u, who) == n - if swapped then 0 else fee))
  {
    hide FinalFee, Ensure;
    var fee := FinalFee(k.tariff, t.multiplier, len, weight, tip, pays, kind);
    var ready := Ensure(k, t, who, fee);
    if fee > 0 { EnsureOutcome(k, t, who, fee); } else { EnsureKeepsBooks(k, t, who, fee); }
    if WithdrawNative(k, ready, who, fee).Some? { WithdrawTakesExactly(k, ready, who, fee); }
    hide Total;
  }

  lemma EnsureKeepsBooks(k: Terms, t: Till, who: AccountId, fee: Balance)
    ensures Ensure(k, t, who, fee) == t.(dex := Ensure(k, t, who, fee).dex)
  {}

  /** Concluding a payment returns the refund exactly when the account can take it, and hands over the
      rest: first the tip, then the fee. */
  lemma ConclusionOutcome(k: Terms, t: Till, who: AccountId, payed: Balance, refund: Balance, tip: Balance, alive: bool)
    ensures var (u, done) := Conclude(k, t, who, payed, refund, tip, alive);
            var takes := refund == 0 || (alive && NativeFree(k, t, who) + refund <= U128_MAX);
            var rest := payed - if takes then refund else 0;
            && NativeFree(k, u, who) == NativeFree(k, t, who) + (if takes then refund else 0)
            && (done <==> rest >= 0)
            && (done ==> u.tips == t.tips + Min(rest, tip) && u.fees == t.fees + rest - Min(rest, tip))
  {
    if refund > 0 && alive && NativeFree(k, t, who) + refund <= U128_MAX { SetNativeTotal(k, t, who, NativeFree(k, t, who) + refund); }
    hide Total;
  }

  /** The end of a block changes nothing but the multiplier: a block at or above the target lifts it,
      strictly when the rounded step is worth a unit, one below lowers it, and it never falls below the
      minimum. */
  lemma EndOfBlockOutcome(k: Terms, t: Till, weight: nat)
    requires Proportional(k.controller)
    ensures var u, c := EndBlock(k, t, weight), k.controller;
            && u == t.(multiplier := u.multiplier) && u.multiplier >= c.minimum
            && (Full(c, weight) ==> u.multiplier >= t.multiplier)
            && (!Full(c, weight) ==> u.multiplier <= Max(t.multiplier, c.minimum))
            && (Full(c, weight) && Max(t.multiplier, c.minimum) < U128_MAX ==>
                  (u.multiplier > Max(t.multiplier, c.minimum)
                   <==> Rise(c.variability, Distance(c, weight)) * Max(t.multiplier, c.minimum) >= ONE))
  {
    NeverBelowMinimum(k.controller, t.multiplier, weight);
    MovesWithTheLoad(k.controller, t.multiplier, weight);
    if Full(k.controller, weight) && Floored(k.controller, t.multiplier) < U128_MAX {
      RisesExactlyWhen(k.controller, t.multiplier, weight);
    }
    hide Convert, Rise, Distance;
  }
}
