/** Fee charging as the runtime executes it, on top of the exchange object: balances debited and
    credited in place, and a loop over the accepted currencies that stops at the first success.
    Every method is proved against the specification in `FeeSwaps` or `Charging`. */
module Cashiers {
  import opened Numbers
  import opened Wrappers
  import opened Currencies
  import opened Ledgers
  import Dex
  import opened Exchanges
  import opened Fees
  import opened FeeSwaps
  import opened FeeMultiplier
  import opened Charging

  class Cashier {
    const exchange: Exchange
    const terms: Terms
    var reserved: map<AccountId, Balance>
    var frozen: map<AccountId, Balance>
    var nextFeeMultiplier: Balance
    var defaultFeeCurrency: map<AccountId, CurrencyId>
    var fees: nat
    var tips: nat

    function Storage(): Till
      reads this, exchange
    {
      Till(exchange.Storage(), reserved, frozen, nextFeeMultiplier, defaultFeeCurrency, fees, tips)
    }

    constructor (exchange: Exchange, terms: Terms, initial: Balance)
      ensures this.exchange == exchange && this.terms == terms
      ensures Storage() == Till(exchange.Storage(), map[], map[], initial, map[], 0, 0)
    {
      this.exchange, this.terms, nextFeeMultiplier := exchange, terms, initial;
      reserved, frozen, defaultFeeCurrency, fees, tips := map[], map[], map[], 0, 0;
    }

    method OnFinalize(weight: nat)
      modifies this`nextFeeMultiplier
      ensures Storage() == EndBlock(terms, old(Storage()), weight)
    {
      nextFeeMultiplier := Convert(terms.controller, nextFeeMultiplier, weight);
    }

    method SetDefaultFeeToken(who: AccountId, currency: Option<CurrencyId>)
      modifies this`defaultFeeCurrency
      ensures Preferred(Storage(), who) == currency
      ensures forall a :: a != who ==> Preferred(Storage(), a) == old(Preferred(Storage(), a))
    {
      match currency
      case Some(c) => defaultFeeCurrency := defaultFeeCurrency[who := c];
      case None => defaultFeeCurrency := defaultFeeCurrency - {who};
    }

    /** Tries the accepted currencies in order and stops at the first success. */
    method EnsureCanChargeFee(who: AccountId, fee: Balance)
      modifies exchange
      ensures Storage() == Ensure(terms, old(Storage()), who, fee)
    {
      var p, limit := terms.plan, Lookup(frozen, who);
      var order := Dedup(Order(p, Preferred(Storage(), who)));
      ghost var before := exchange.Storage();
      var i := 0;
      assert order[0..] == order;
      while i < |order|
        invariant 0 <= i <= |order|
        invariant exchange.Storage() == before
        invariant TryInOrder(p, before, limit, who, fee, order) == TryInOrder(p, before, limit, who, fee, order[i..])
      {
        var c := order[i];
        assert order[i..][1..] == order[i + 1..];
        if c == p.native {
          if Enough(p, exchange.ledger, limit, who, fee) { return; }
        } else {
          var swapped := exchange.DoSwapWithExactTarget(who, PathFrom(p, c), fee, Free(exchange.ledger, c, who), Some(p.slippage));
          if swapped.Ok? { return; }
        }
        i := i + 1;
      }
    }

    /** Debits the native currency if that leaves enough. */
    method Withdraw(who: AccountId, amount: Balance) returns (done: bool)
      modifies exchange`ledger
      ensures var u := WithdrawNative(terms, old(Storage()), who, amount);
              done == u.Some? && Storage() == u.GetOr(old(Storage()))
    {
      if !Enough(terms.plan, exchange.ledger, Lookup(frozen, who), who, amount) { return false; }
      if amount > 0 {
        exchange.ledger := SetFree(exchange.ledger, terms.plan.native, who, Free(exchange.ledger, terms.plan.native, who) - amount);
      }
      done := true;
    }

    method DepositIntoExisting(who: AccountId, amount: Balance, alive: bool) returns (done: bool)
      modifies exchange`ledger
      ensures done == Accepts(terms, old(Storage()), who, amount, alive)
      ensures Storage() == if done && amount > 0 then DepositNative(terms, old(Storage()), who, amount) else old(Storage())
    {
      if amount == 0 { return true; }
      var free := Free(exchange.ledger, terms.plan.native, who);
      if !alive || free + amount > U128_MAX { return false; }
      exchange.ledger := SetFree(exchange.ledger, terms.plan.native, who, free + amount);
      done := true;
    }

    method ChargeBeforeDispatch(who: AccountId, len: Balance, info: Info, tip: Balance)
      returns (r: Option<(Balance, Option<Balance>)>)
      modifies exchange
      ensures var (u, outcome) := WithdrawFee(terms, old(Storage()), who, len, info, tip); Storage() == u && r == outcome
    {
      var fee := Fee(terms.tariff, nextFeeMultiplier, len, info, tip);
      if fee == 0 { return Some((0, None)); }
      EnsureCanChargeFee(who, fee);
      var withdrawn := Withdraw(who, fee);
      r := if withdrawn then Some((fee, Some(fee))) else None;
    }

    /** Offsets a payment with the refund, splits off the tip and hands both parts over. */
    method Distribute(who: AccountId, payed: Balance, refund: Balance, tip: Balance, alive: bool) returns (done: bool)
      modifies exchange`ledger, this`fees, this`tips
      ensures var (u, outcome) := Conclude(terms, old(Storage()), who, payed, refund, tip, alive);
              Storage() == u && done == outcome
    {
      var refunded := DepositIntoExisting(who, refund, alive);
      var payment := payed;
      if refunded {
        if refund > payed { return false; }
        payment := payed - refund;
      }
      var first := Min(payment, tip);
      tips := tips + first;
      fees := fees + (payment - first);
      done := true;
    }

    method SettleTransaction(who: AccountId, len: Balance, info: Info, post: PostInfo, tip: Balance,
                             payment: Option<Balance>, fee: Balance, alive: bool)
      returns (done: bool)
      modifies exchange`ledger, this`fees, this`tips
      ensures var (u, outcome) := PostDispatch(terms, old(Storage()), who, len, info, post, tip, payment, fee, alive);
              Storage() == u && done == outcome
    {
      if payment.None? { return true; }
      var actual := ActualFee(terms.tariff, nextFeeMultiplier, len, info, post, tip);
      done := Distribute(who, payment.value, SatSub(fee, actual), tip, alive);
    }

    method Reserve(who: AccountId, weight: nat) returns (r: Option<Balance>)
      modifies exchange, this`reserved
      ensures var (u, outcome) := ReserveFee(terms, old(Storage()), who, weight); Storage() == u && r == outcome
    {
      var fee := WeightToFee(terms.tariff, weight);
      EnsureCanChargeFee(who, fee);
      var held := Lookup(reserved, who);
      if held + fee > U128_MAX { return None; }
      var taken := Withdraw(who, fee);
      if !taken { return None; }
      if fee > 0 { reserved := reserved[who := held + fee]; }
      r := Some(fee);
    }

    method Unreserve(who: AccountId, fee: Balance)
      modifies exchange`ledger, this`reserved
      ensures Storage() == UnreserveFee(terms, old(Storage()), who, fee)
    {
      var moved := Min(fee, Lookup(reserved, who));
      if moved > 0 {
        var free := Free(exchange.ledger, terms.plan.native, who);
        exchange.ledger := SetFree(exchange.ledger, terms.plan.native, who, SatAdd(free, moved));
        reserved := reserved[who := Lookup(reserved, who) - moved];
      }
    }

    method UnreserveAndChargeFee(who: AccountId, weight: nat) returns (r: Option<Balance>)
      modifies exchange`ledger, this`reserved
      ensures var (u, outcome) := UnreserveAndCharge(terms, old(Storage()), who, weight); Storage() == u && r == outcome
    {
      var fee := WeightToFee(terms.tariff, weight);
      Unreserve(who, fee);
      var withdrawn := Withdraw(who, fee);
      r := if withdrawn then Some(fee) else None;
    }

    method Refund(who: AccountId, weight: nat, payed: Balance, alive: bool) returns (done: bool)
      modifies exchange`ledger, this`fees, this`tips
      ensures var (u, outcome) := RefundFee(terms, old(Storage()), who, weight, payed, alive);
              Storage() == u && done == outcome
    {
      done := Distribute(who, payed, WeightToFee(terms.tariff, weight), 0, alive);
    }

    method Charge(who: AccountId, len: Balance, weight: nat, tip: Balance, pays: Pays, kind: Class) returns (done: bool)
      modifies exchange, this`fees
      ensures var (u, outcome) := ChargeFee(terms, old(Storage()), who, len, weight, tip, pays, kind);
              Storage() == u && done == outcome
    {
      var fee := FinalFee(terms.tariff, nextFeeMultiplier, len, weight, tip, pays, kind);
      EnsureCanChargeFee(who, fee);
      done := Withdraw(who, fee);
      if done { fees := fees + fee; }
    }
  }
}
