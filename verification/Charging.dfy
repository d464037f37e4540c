/** Charging fees: withdrawing before dispatch, settling after it, and the same for fees that are
    reserved first. What leaves an account is always somewhere: reserved, in an open payment, or
    handed over. */
module Charging {
  import opened Numbers
  import opened Wrappers
  import opened Currencies
  import opened MapSums
  import opened Ledgers
  import Dex
  import opened Fees
  import opened FeeSwaps
  import opened FeeMultiplier

  datatype Terms = Terms(tariff: Tariff, plan: Plan, controller: Controller)

  /** The exchange with the free balances, the reserved and frozen native balances, the
      multiplier, the preferred currencies, and what has been handed over so far. */
  datatype Till = Till(
    dex: Dex.State,
    reserved: map<AccountId, Balance>,
    frozen: map<AccountId, Balance>,
    multiplier: Balance,
    preferred: map<AccountId, CurrencyId>,
    fees: nat,
    tips: nat)

  function Lookup(m: map<AccountId, Balance>, who: AccountId): Balance { if who in m then m[who] else 0 }

  function Preferred(t: Till, who: AccountId): Option<CurrencyId> {
    if who in t.preferred then Some(t.preferred[who]) else None
  }

  function NativeFree(k: Terms, t: Till, who: AccountId): Balance { Free(t.dex.ledger, k.plan.native, who) }

  function SetNative(k: Terms, t: Till, who: AccountId, amount: Balance): Till {
    t.(dex := t.dex.(ledger := SetFree(t.dex.ledger, k.plan.native, who, amount)))
  }

  predicate CanWithdraw(k: Terms, t: Till, who: AccountId, amount: Balance) {
    Enough(k.plan, t.dex.ledger, Lookup(t.frozen, who), who, amount)
  }

  function WithdrawNative(k: Terms, t: Till, who: AccountId, amount: Balance): Option<Till> {
    if !CanWithdraw(k, t, who, amount) then None
    else if amount == 0 then Some(t)
    else Some(SetNative(k, t, who, NativeFree(k, t, who) - amount))
  }

  /** Can the account take a deposit? A zero deposit always succeeds. */
  predicate Accepts(k: Terms, t: Till, who: AccountId, amount: Balance, alive: bool) {
    amount == 0 || (alive && NativeFree(k, t, who) + amount <= U128_MAX)
  }

  function DepositNative(k: Terms, t: Till, who: AccountId, amount: Balance): Till
    requires NativeFree(k, t, who) + amount <= U128_MAX
  {
    if amount == 0 then t else SetNative(k, t, who, NativeFree(k, t, who) + amount)
  }

  function Ensure(k: Terms, t: Till, who: AccountId, fee: Balance): Till {
    t.(dex := EnsureCanCharge(k.plan, t.dex, Lookup(t.frozen, who), who, fee, Preferred(t, who)))
  }

  // ----- signed transactions -----

  /** The fee, and the payment if there is one; a swap made on the way stays made. */
  function WithdrawFee(k: Terms, t: Till, who: AccountId, len: Balance, info: Info, tip: Balance)
    : (Till, Option<(Balance, Option<Balance>)>)
  {
    var fee := Fee(k.tariff, t.multiplier, len, info, tip);
    if fee == 0 then (t, Some((0, None)))
    else
      var ready := Ensure(k, t, who, fee);
      match WithdrawNative(k, ready, who, fee)
      case None => (ready, None)
      case Some(u) => (u, Some((fee, Some(fee))))
  }

  /** Pays the refund back if the account accepts it and hands over the rest; false if the refund
      turns out larger than the payment. */
  function Conclude(k: Terms, t: Till, who: AccountId, payed: Balance, refund: Balance, tip: Balance,
                    alive: bool): (Till, bool) {
    var accepted := Accepts(k, t, who, refund, alive);
    var u := if accepted && refund > 0 then DepositNative(k, t, who, refund) else t;
    match Settle(payed, refund, accepted, tip)
    case Refused(_) => (u, false)
    case Settled(_, fee, part) => (u.(fees := u.fees + fee, tips := u.tips + part), true)
  }

  function PostDispatch(k: Terms, t: Till, who: AccountId, len: Balance, info: Info, post: PostInfo, tip: Balance,
                        payment: Option<Balance>, fee: Balance, alive: bool): (Till, bool)
  {
    match payment
    case None => (t, true)
    case Some(payed) =>
      Conclude(k, t, who, payed, SatSub(fee, ActualFee(k.tariff, t.multiplier, len, info, post, tip)), tip, alive)
  }

  // ----- fees that are reserved first -----

  function ReserveFee(k: Terms, t: Till, who: AccountId, weight: nat): (Till, Option<Balance>) {
    var fee := WeightToFee(k.tariff, weight);
    var ready := Ensure(k, t, who, fee);
    if !CanWithdraw(k, ready, who, fee) || Lookup(t.reserved, who) + fee > U128_MAX then (ready, None)
    else if fee == 0 then (ready, Some(0))
    else (SetNative(k, ready, who, NativeFree(k, ready, who) - fee).(reserved := t.reserved[who := Lookup(t.reserved, who) + fee]),
          Some(fee))
  }

  function UnreserveFee(k: Terms, t: Till, who: AccountId, fee: Balance): Till {
    var moved := Min(fee, Lookup(t.reserved, who));
    if moved == 0 then t
    else SetNative(k, t, who, SatAdd(NativeFree(k, t, who), moved)).(reserved := t.reserved[who := Lookup(t.reserved, who) - moved])
  }

  function UnreserveAndCharge(k: Terms, t: Till, who: AccountId, weight: nat): (Till, Option<Balance>) {
    var fee := WeightToFee(k.tariff, weight);
    var free := UnreserveFee(k, t, who, fee);
    match WithdrawNative(k, free, who, fee)
    case None => (free, None)
    case Some(u) => (u, Some(fee))
  }

  function RefundFee(k: Terms, t: Till, who: AccountId, weight: nat, payed: Balance, alive: bool): (Till, bool) {
    Conclude(k, t, who, payed, WeightToFee(k.tariff, weight), 0, alive)
  }

  function ChargeFee(k: Terms, t: Till, who: AccountId, len: Balance, weight: nat, tip: Balance, pays: Pays,
                     kind: Class): (Till, bool) {
    var fee := FinalFee(k.tariff, t.multiplier, len, weight, tip, pays, kind);
    var ready := Ensure(k, t, who, fee);
    match WithdrawNative(k, ready, who, fee)
    case None => (ready, false)
    case Some(u) => (u.(fees := u.fees + fee), true)
  }

  function EndBlock(k: Terms, t: Till, weight: nat): Till {
    t.(multiplier := Convert(k.controller, t.multiplier, weight))
  }

  // ----- where the native currency is -----

  ghost function Total(k: Terms, t: Till): nat {
    Sum(Holders(t.dex.ledger, k.plan.native)) + Sum(t.reserved) + t.fees + t.tips
  }

  lemma SetNativeTotal(k: Terms, t: Till, who: AccountId, amount: Balance)
    ensures Total(k, SetNative(k, t, who, amount)) + NativeFree(k, t, who) == Total(k, t) + amount
    ensures NativeFree(k, SetNative(k, t, who, amount), who) == amount
    ensures forall a :: a != who ==> NativeFree(k, SetNative(k, t, who, amount), a) == NativeFree(k, t, a)
  {
    SetFreeEffect(t.dex.ledger, k.plan.native, who, amount);
  }

  lemma SetReservedTotal(k: Terms, t: Till, who: AccountId, amount: Balance)
    ensures Total(k, t.(reserved := t.reserved[who := amount])) + Lookup(t.reserved, who) == Total(k, t) + amount
  {
    SumUpdate(t.reserved, who, amount);
  }

  /** Nobody's free and reserved native balances exceed all there is. */
  lemma TotalBounds(k: Terms, t: Till, who: AccountId)
    ensures NativeFree(k, t, who) + Lookup(t.reserved, who) <= Total(k, t)
  {
    var h := Holders(t.dex.ledger, k.plan.native);
    if who in h { SumAtLeast(h, who); }
    if who in t.reserved { SumAtLeast(t.reserved, who); }
  }

  /** Looking for native currency moves it about but neither makes nor destroys any; the account
      itself ends with as much as before or with exactly the fee more. */
  lemma EnsureKeepsTotal(k: Terms, t: Till, who: AccountId, fee: Balance)
    requires who != Dex.MODULE_ACCOUNT
    ensures Total(k, Ensure(k, t, who, fee)) == Total(k, t)
    ensures NativeFree(k, Ensure(k, t, who, fee), who) in {NativeFree(k, t, who), NativeFree(k, t, who) + fee}
  {
    hide TryInOrder, Dedup;
    AttemptOutcome(k.plan, t.dex, Lookup(t.frozen, who), who, fee, Dedup(Order(k.plan, Preferred(t, who))));
  }

  lemma WithdrawTakesExactly(k: Terms, t: Till, who: AccountId, amount: Balance)
    requires WithdrawNative(k, t, who, amount).Some?
    ensures var u := WithdrawNative(k, t, who, amount).value;
            Total(k, u) + amount == Total(k, t) && NativeFree(k, u, who) + amount == NativeFree(k, t, who)
  {
    if amount > 0 { SetNativeTotal(k, t, who, NativeFree(k, t, who) - amount); }
  }

  /** Before dispatch the payment is exactly what the account has lost; nothing is lost when
      there is no payment. */
  lemma WithdrawFeeConserves(k: Terms, t: Till, who: AccountId, len: Balance, info: Info, tip: Balance)
    requires who != Dex.MODULE_ACCOUNT
    ensures var (u, r) := WithdrawFee(k, t, who, len, info, tip);
            && (r.None? ==> Total(k, u) == Total(k, t))
            && (r.Some? ==> r.value.1.GetOr(0) == r.value.0 && Total(k, u) + r.value.0 == Total(k, t))
  {
    hide Ensure, WithdrawNative, Total, Fee;
    var fee := Fee(k.tariff, t.multiplier, len, info, tip);
    EnsureKeepsTotal(k, t, who, fee);
    var ready := Ensure(k, t, who, fee);
    if WithdrawNative(k, ready, who, fee).Some? { WithdrawTakesExactly(k, ready, who, fee); }
  }

  /** Concluding turns an open payment into what is handed over and what is returned; a refund
      larger than the payment creates the difference instead. */
  lemma ConcludeConserves(k: Terms, t: Till, who: AccountId, payed: Balance, refund: Balance, tip: Balance, alive: bool)
    ensures var (u, done) := Conclude(k, t, who, payed, refund, tip, alive);
            && (done <==> !Accepts(k, t, who, refund, alive) || refund <= payed)
            && (done ==> Total(k, u) == Total(k, t) + payed)
            && (!done ==> Total(k, u) == Total(k, t) + refund > Total(k, t) + payed)
  {
    if Accepts(k, t, who, refund, alive) && refund > 0 { SetNativeTotal(k, t, who, NativeFree(k, t, who) + refund); }
  }

  /** A refund by weight turns the payment into the same amount returned and handed over exactly when
      it is not larger than the payment or is not accepted; otherwise it is refused after the account
      has already received it. */
  lemma RefundConservesExactlyWhen(k: Terms, t: Till, who: AccountId, weight: nat, payed: Balance, alive: bool)
    ensures var (u, done) := RefundFee(k, t, who, weight, payed, alive);
            var refund := WeightToFee(k.tariff, weight);
            var accepted := Accepts(k, t, who, refund, alive);
            && (Total(k, u) == Total(k, t) + payed <==> done)
            && (done <==> !accepted || refund <= payed)
            && NativeFree(k, u, who) == NativeFree(k, t, who) + (if accepted then refund else 0)
            && (!done ==> u.fees == t.fees && u.tips == t.tips)
  {
    hide Total;
    var refund := WeightToFee(k.tariff, weight);
    ConcludeConserves(k, t, who, payed, refund, 0, alive);
    if Accepts(k, t, who, refund, alive) && refund > 0 { SetNativeTotal(k, t, who, NativeFree(k, t, who) + refund); }
  }

  lemma PostDispatchConserves(k: Terms, t: Till, who: AccountId, len: Balance, info: Info, post: PostInfo, tip: Balance,
                              fee: Balance, alive: bool)
    ensures var (u, done) := PostDispatch(k, t, who, len, info, post, tip, Some(fee), fee, alive);
            done && Total(k, u) == Total(k, t) + fee
  {
    hide Conclude, ActualFee, Total;
    ConcludeConserves(k, t, who, fee, SatSub(fee, ActualFee(k.tariff, t.multiplier, len, info, post, tip)), tip, alive);
  }

  /** A transaction whose fee was withdrawn before the dispatch, which may then have changed
      anything but the multiplier: the payer is out of pocket by exactly what is handed over, of
      which the tip is exactly the tip offered; with a monotone tariff an accepted refund leaves
      exactly the actual fee. */
  lemma TransactionIsSettled(k: Terms, t: Till, v: Till, who: AccountId, len: Balance, info: Info, post: PostInfo,
                             tip: Balance, alive: bool)
    requires WithdrawFee(k, t, who, len, info, tip).1.Some? && v.multiplier == t.multiplier
    ensures var (fee, payment) := WithdrawFee(k, t, who, len, info, tip).1.value;
            var (w, done) := PostDispatch(k, v, who, len, info, post, tip, payment, fee, alive);
            var owed := ActualFee(k.tariff, t.multiplier, len, info, post, tip);
            && done
            && (w.fees - v.fees) + (w.tips - v.tips) == fee - (NativeFree(k, w, who) - NativeFree(k, v, who))
            && w.tips - v.tips == tip
            && (Monotone(k.tariff) && Accepts(k, v, who, SatSub(fee, owed), alive) ==>
                  (w.fees - v.fees) + (w.tips - v.tips) == owed)
  {
    var fee, owed := Fee(k.tariff, t.multiplier, len, info, tip), ActualFee(k.tariff, t.multiplier, len, info, post, tip);
    var refund := SatSub(fee, owed);
    var accepted := Accepts(k, v, who, refund, alive);
    SettlementConserves(k.tariff, t.multiplier, len, info, post, tip, accepted);
    hide Fee, ActualFee, Ensure, WithdrawNative, Total, Monotone, SettleAfterDispatch;
    if accepted && refund > 0 { SetNativeTotal(k, v, who, NativeFree(k, v, who) + refund); }
    if fee == 0 { NothingOwed(k, t, len, info, post, tip); }
  }

  lemma NothingOwed(k: Terms, t: Till, len: Balance, info: Info, post: PostInfo, tip: Balance)
    requires Fee(k.tariff, t.multiplier, len, info, tip) == 0
    ensures tip == 0
    ensures Monotone(k.tariff) ==> ActualFee(k.tariff, t.multiplier, len, info, post, tip) == 0
  {
    if Monotone(k.tariff) { ActualFeeAtMostFee(k.tariff, t.multiplier, len, info, post, tip); }
  }

  lemma ReserveFeeConserves(k: Terms, t: Till, who: AccountId, weight: nat)
    requires who != Dex.MODULE_ACCOUNT
    ensures Total(k, ReserveFee(k, t, who, weight).0) == Total(k, t)
  {
    hide WeightToFee, TryInOrder, Dedup, Sum;
    var fee := WeightToFee(k.tariff, weight);
    var ready := Ensure(k, t, who, fee);
    EnsureKeepsTotal(k, t, who, fee);
    if CanWithdraw(k, ready, who, fee) && fee > 0 && Lookup(t.reserved, who) + fee <= U128_MAX {
      var u := SetNative(k, ready, who, NativeFree(k, ready, who) - fee);
      SetNativeTotal(k, ready, who, NativeFree(k, ready, who) - fee);
      SetReservedTotal(k, u, who, Lookup(t.reserved, who) + fee);
    }
  }

  lemma UnreserveFeeConserves(k: Terms, t: Till, who: AccountId, fee: Balance)
    requires Total(k, t) <= U128_MAX
    ensures var u, moved := UnreserveFee(k, t, who, fee), Min(fee, Lookup(t.reserved, who));
            && Total(k, u) == Total(k, t)
            && NativeFree(k, u, who) == NativeFree(k, t, who) + moved
            && Lookup(u.reserved, who) == Lookup(t.reserved, who) - moved
  {
    TotalBounds(k, t, who);
    hide Sum;
    var moved := Min(fee, Lookup(t.reserved, who));
    if moved > 0 {
      var u := SetNative(k, t, who, NativeFree(k, t, who) + moved);
      SetNativeTotal(k, t, who, NativeFree(k, t, who) + moved);
      SetReservedTotal(k, u, who, Lookup(t.reserved, who) - moved);
    }
  }

  /** A fee that was reserved in full can be charged as long as the free balance does not have
      to go below the frozen amount; free and reserved together fall by exactly the fee. */
  lemma ReservedFeeIsCharged(k: Terms, t: Till, who: AccountId, weight: nat)
    requires Total(k, t) <= U128_MAX && Lookup(t.reserved, who) >= WeightToFee(k.tariff, weight)
    ensures var fee, (u, r) := WeightToFee(k.tariff, weight), UnreserveAndCharge(k, t, who, weight);
            && (r.Some? <==> fee == 0 || NativeFree(k, t, who) >= Lookup(t.frozen, who))
            && Total(k, u) + r.GetOr(0) == Total(k, t)
            && NativeFree(k, u, who) + Lookup(u.reserved, who) + r.GetOr(0) == NativeFree(k, t, who) + Lookup(t.reserved, who)
            && r in {None, Some(fee)}
  {
    var fee := WeightToFee(k.tariff, weight);
    UnreserveFeeConserves(k, t, who, fee);
    var free := UnreserveFee(k, t, who, fee);
    assert free.frozen == t.frozen;
    hide Total, UnreserveFee, WeightToFee;
    if WithdrawNative(k, free, who, fee).Some? {
      WithdrawTakesExactly(k, free, who, fee);
      assert WithdrawNative(k, free, who, fee).value.reserved == free.reserved;
    }
  }

  lemma UnreserveAndChargeConserves(k: Terms, t: Till, who: AccountId, weight: nat)
    requires Total(k, t) <= U128_MAX
    ensures var (u, r) := UnreserveAndCharge(k, t, who, weight); Total(k, u) + r.GetOr(0) == Total(k, t)
  {
    var fee := WeightToFee(k.tariff, weight);
    UnreserveFeeConserves(k, t, who, fee);
    hide Total, UnreserveFee, WithdrawNative;
    var free := UnreserveFee(k, t, who, fee);
    if WithdrawNative(k, free, who, fee).Some? { WithdrawTakesExactly(k, free, who, fee); }
  }

  lemma ChargeFeeConserves(k: Terms, t: Till, who: AccountId, len: Balance, weight: nat, tip: Balance, pays: Pays,
                           kind: Class)
    requires who != Dex.MODULE_ACCOUNT
    ensures Total(k, ChargeFee(k, t, who, len, weight, tip, pays, kind).0) == Total(k, t)
  {
    hide FinalFee, Ensure, WithdrawNative;
    var fee := FinalFee(k.tariff, t.multiplier, len, weight, tip, pays, kind);
    EnsureKeepsTotal(k, t, who, fee);
    var ready := Ensure(k, t, who, fee);
    if WithdrawNative(k, ready, who, fee).Some? { WithdrawTakesExactly(k, ready, who, fee); }
  }

  // ----- whole runs -----

  /** A payment that has been withdrawn and not settled yet. */
  datatype Open =
    | Transaction(who: AccountId, len: Balance, info: Info, tip: Balance, fee: Balance, payment: Option<Balance>)
    | Hosted(who: AccountId, payed: Balance)

  function Outstanding(open: seq<Open>): nat {
    if open == [] then 0
    else (if open[0].Transaction? then open[0].payment.GetOr(0) else open[0].payed) + Outstanding(open[1..])
  }

  datatype Desk = Desk(till: Till, open: seq<Open>)

  datatype Action =
    | PreDispatch(who: AccountId, len: Balance, info: Info, tip: Balance)
    | Finish(post: PostInfo, alive: bool)
    | Reserve(who: AccountId, weight: nat)
    | Unreserve(who: AccountId, fee: Balance)
    | ChargeReserved(who: AccountId, weight: nat)
    | Refund(weight: nat, alive: bool)
    | Charge(who: AccountId, len: Balance, weight: nat, tip: Balance, pays: Pays, kind: Class)
    | NextBlock(weight: nat)
    | Elsewhere(dex: Dex.State, reserved: map<AccountId, Balance>, frozen: map<AccountId, Balance>)

  /** Payments are settled last in, first out; a refund is not larger than what was paid; other
      modules move the native currency about but do not create or destroy it. */
  ghost predicate Legal(k: Terms, d: Desk, x: Action) {
    match x
    case PreDispatch(who, _, _, _) => who != Dex.MODULE_ACCOUNT
    case Finish(_, _) => d.open != [] && d.open[0].Transaction?
    case Reserve(who, _) => who != Dex.MODULE_ACCOUNT
    case Unreserve(_, _) => true
    case ChargeReserved(_, _) => true
    case Refund(weight, _) => d.open != [] && d.open[0].Hosted? && WeightToFee(k.tariff, weight) <= d.open[0].payed
    case Charge(who, _, _, _, _, _) => who != Dex.MODULE_ACCOUNT
    case NextBlock(_) => true
    case Elsewhere(dex, reserved, _) =>
      Sum(Holders(dex.ledger, k.plan.native)) + Sum(reserved)
      == Sum(Holders(d.till.dex.ledger, k.plan.native)) + Sum(d.till.reserved)
  }

  function Step(k: Terms, d: Desk, x: Action): Desk {
    match x
    case PreDispatch(who, len, info, tip) =>
      var (u, r) := WithdrawFee(k, d.till, who, len, info, tip);
      if r.None? then Desk(u, d.open)
      else Desk(u, [Transaction(who, len, info, tip, r.value.0, r.value.1)] + d.open)
    case Finish(post, alive) =>
      if d.open == [] || !d.open[0].Transaction? then d
      else
        var o := d.open[0];
        Desk(PostDispatch(k, d.till, o.who, o.len, o.info, post, o.tip, o.payment, o.fee, alive).0, d.open[1..])
    case Reserve(who, weight) => d.(till := ReserveFee(k, d.till, who, weight).0)
    case Unreserve(who, fee) => d.(till := UnreserveFee(k, d.till, who, fee))
    case ChargeReserved(who, weight) =>
      var (u, r) := UnreserveAndCharge(k, d.till, who, weight);
      if r.None? then Desk(u, d.open) else Desk(u, [Hosted(who, r.value)] + d.open)
    case Refund(weight, alive) =>
      if d.open == [] || !d.open[0].Hosted? then d
      else Desk(RefundFee(k, d.till, d.open[0].who, weight, d.open[0].payed, alive).0, d.open[1..])
    case Charge(who, len, weight, tip, pays, kind) =>
      d.(till := ChargeFee(k, d.till, who, len, weight, tip, pays, kind).0)
    case NextBlock(weight) => d.(till := EndBlock(k, d.till, weight))
    case Elsewhere(dex, reserved, frozen) => d.(till := d.till.(dex := dex, reserved := reserved, frozen := frozen))
  }

  /** Every open transaction paid exactly its fee. */
  predicate PaidInFull(open: seq<Open>) {
    forall o :: o in open && o.Transaction? ==> o.payment.GetOr(0) == o.fee
  }

  ghost predicate Balanced(k: Terms, d: Desk, total: nat) {
    Total(k, d.till) + Outstanding(d.open) == total && PaidInFull(d.open)
  }

  lemma OpenOne(o: Open, open: seq<Open>)
    ensures Outstanding([o] + open) == (if o.Transaction? then o.payment.GetOr(0) else o.payed) + Outstanding(open)
    ensures PaidInFull(open) && (o.Transaction? ==> o.payment.GetOr(0) == o.fee) ==> PaidInFull([o] + open)
  {
    assert ([o] + open)[1..] == open;
  }

  lemma StepBalances(k: Terms, d: Desk, x: Action, total: nat)
    requires Balanced(k, d, total) && total <= U128_MAX && Legal(k, d, x)
    ensures Balanced(k, Step(k, d, x), total)
  {
    hide Total, WithdrawFee, PostDispatch, UnreserveAndCharge, UnreserveFee, ReserveFee, ChargeFee, Conclude, Convert,
         WeightToFee;
    var t := d.till;
    match x
    case PreDispatch(who, len, info, tip) =>
      WithdrawFeeConserves(k, t, who, len, info, tip);
      var (u, r) := WithdrawFee(k, t, who, len, info, tip);
      if r.Some? { OpenOne(Transaction(who, len, info, tip, r.value.0, r.value.1), d.open); }
    case Finish(post, alive) =>
      var o := d.open[0];
      assert o in d.open;
      if o.payment.Some? {
        PostDispatchConserves(k, t, o.who, o.len, o.info, post, o.tip, o.fee, alive);
      } else {
        NoPaymentNoChange(k, t, o, post, alive);
      }
    case Reserve(who, weight) => ReserveFeeConserves(k, t, who, weight);
    case Unreserve(who, fee) => UnreserveFeeConserves(k, t, who, fee);
    case ChargeReserved(who, weight) =>
      UnreserveAndChargeConserves(k, t, who, weight);
      var (u, r) := UnreserveAndCharge(k, t, who, weight);
      if r.Some? { OpenOne(Hosted(who, r.value), d.open); }
    case Refund(weight, alive) =>
      ConcludeConserves(k, t, d.open[0].who, d.open[0].payed, WeightToFee(k.tariff, weight), 0, alive);
    case Charge(who, len, weight, tip, pays, kind) => ChargeFeeConserves(k, t, who, len, weight, tip, pays, kind);
    case NextBlock(weight) => SameHoldings(k, t, EndBlock(k, t, weight));
    case Elsewhere(dex, reserved, frozen) => SameHoldings(k, t, t.(dex := dex, reserved := reserved, frozen := frozen));
  }

  lemma NoPaymentNoChange(k: Terms, t: Till, o: Open, post: PostInfo, alive: bool)
    requires o.Transaction? && o.payment.None?
    ensures PostDispatch(k, t, o.who, o.len, o.info, post, o.tip, o.payment, o.fee, alive) == (t, true)
  {}

  lemma SameHoldings(k: Terms, t: Till, u: Till)
    requires Sum(Holders(t.dex.ledger, k.plan.native)) + Sum(t.reserved)
             == Sum(Holders(u.dex.ledger, k.plan.native)) + Sum(u.reserved)
    requires t.fees == u.fees && t.tips == u.tips
    ensures Total(k, t) == Total(k, u)
  {}

  ghost predicate LegalRun(k: Terms, d: Desk, run: seq<Action>)
    decreases |run|
  {
    run == [] || (Legal(k, d, run[0]) && LegalRun(k, Step(k, d, run[0]), run[1..]))
  }

  function Run(k: Terms, d: Desk, run: seq<Action>): Desk
    decreases |run|
  {
    if run == [] then d else Run(k, Step(k, d, run[0]), run[1..])
  }

  /** Over any run, free, reserved, open and handed-over native currency add up to the same. */
  lemma {:induction false} FeesConservedOverRuns(k: Terms, d: Desk, run: seq<Action>)
    requires PaidInFull(d.open) && Total(k, d.till) + Outstanding(d.open) <= U128_MAX && LegalRun(k, d, run)
    ensures var e := Run(k, d, run);
            Total(k, e.till) + Outstanding(e.open) == Total(k, d.till) + Outstanding(d.open) && PaidInFull(e.open)
    decreases |run|
  {
    hide Step, Total, Outstanding, Legal, PaidInFull;
    if run != [] {
      StepBalances(k, d, run[0], Total(k, d.till) + Outstanding(d.open));
      FeesConservedOverRuns(k, Step(k, d, run[0]), run[1..]);
    }
  }
}
