/** The exchange as the runtime executes it: storage updated in place, amount vectors filled in
    loops, storage prefixes drained in an order the caller does not choose, and a failing call
    rolled back. Every method is proved against the specification in `Dex`. */
module Exchanges {
  import opened Numbers
  import opened Wrappers
  import opened Currencies
  import opened Ledgers
  import opened Pricing
  import opened Dex

  function Prepend(head: seq<Balance>, r: Result<seq<Balance>, Error>): Result<seq<Balance>, Error> {
    match r
    case Err(e) => Err(e)
    case Ok(v) => Ok(head + v)
  }

  function Append(r: Result<seq<Balance>, Error>, tail: seq<Balance>): Result<seq<Balance>, Error> {
    match r
    case Err(e) => Err(e)
    case Ok(v) => Ok(v + tail)
  }

  lemma PrependTwice(head: seq<Balance>, x: Balance, r: Result<seq<Balance>, Error>)
    ensures Prepend(head, Prepend([x], r)) == Prepend(head + [x], r)
  {
    if r.Ok? { assert head + ([x] + r.value) == head + [x] + r.value; }
  }

  lemma AppendTwice(r: Result<seq<Balance>, Error>, x: Balance, tail: seq<Balance>)
    ensures Append(Append(r, [x]), tail) == Append(r, [x] + tail)
  {
    if r.Ok? { assert (r.value + [x]) + tail == r.value + ([x] + tail); }
  }

  lemma TargetsUnfold(s: State, path: seq<CurrencyId>, i: nat, x: Balance, limit: Option<Balance>)
    requires i + 1 < |path|
    ensures var h := TargetOfHop(s, path[i], path[i + 1], x, limit);
            TargetsAlong(s, path[i..], x, limit)
            == if h.Err? then Err(h.error) else Prepend([x], TargetsAlong(s, path[i + 1..], h.value, limit))
  {
    var rest := path[i..];
    assert rest[0] == path[i] && rest[1] == path[i + 1] && rest[1..] == path[i + 1..];
  }

  lemma SuppliesUnfold(s: State, path: seq<CurrencyId>, i: nat, x: Balance, limit: Option<Balance>)
    requires 0 < i < |path|
    ensures var h := SupplyOfHop(s, path[i - 1], path[i], x, limit);
            SuppliesAlong(s, path[..i + 1], x, limit)
            == if h.Err? then Err(h.error) else Append(SuppliesAlong(s, path[..i], h.value, limit), [x])
  {
    var rest := path[..i + 1];
    assert rest[|rest| - 2] == path[i - 1] && rest[|rest| - 1] == path[i] && rest[..|rest| - 1] == path[..i];
  }

  /** The first `i + 1` amounts are filled in and the rest of the quote goes on from the last of them. */
  ghost predicate TargetsFilled(s: State, path: seq<CurrencyId>, supply: Balance, limit: Option<Balance>,
                                amounts: seq<Balance>, i: nat)
  {
    && i < |path| == |amounts|
    && TargetsAlong(s, path, supply, limit) == Prepend(amounts[..i], TargetsAlong(s, path[i..], amounts[i], limit))
  }

  lemma TargetsStart(s: State, path: seq<CurrencyId>, supply: Balance, limit: Option<Balance>, amounts: seq<Balance>)
    requires 0 < |path| == |amounts| && amounts[0] == supply
    ensures TargetsFilled(s, path, supply, limit, amounts, 0)
  {
    var r := TargetsAlong(s, path, supply, limit);
    assert path[0..] == path && amounts[..0] == [];
    if r.Ok? { assert [] + r.value == r.value; }
  }

  lemma TargetsAdvance(s: State, path: seq<CurrencyId>, supply: Balance, limit: Option<Balance>,
                       amounts: seq<Balance>, i: nat)
    requires TargetsFilled(s, path, supply, limit, amounts, i) && i + 1 < |path|
    ensures var h := TargetOfHop(s, path[i], path[i + 1], amounts[i], limit);
            if h.Err? then TargetsAlong(s, path, supply, limit) == Err(h.error)
            else TargetsFilled(s, path, supply, limit, amounts[i + 1 := h.value], i + 1)
  {
    TargetsUnfold(s, path, i, amounts[i], limit);
    var h := TargetOfHop(s, path[i], path[i + 1], amounts[i], limit);
    if h.Ok? {
      var next, rest := amounts[i + 1 := h.value], TargetsAlong(s, path[i + 1..], h.value, limit);
      PrependTwice(amounts[..i], amounts[i], rest);
      assert next[..i + 1] == amounts[..i] + [amounts[i]];
    }
  }

  /** The same from the other end. */
  ghost predicate SuppliesFilled(s: State, path: seq<CurrencyId>, target: Balance, limit: Option<Balance>,
                                 amounts: seq<Balance>, i: nat)
  {
    && i < |path| == |amounts|
    && SuppliesAlong(s, path, target, limit)
       == Append(SuppliesAlong(s, path[..i + 1], amounts[i], limit), amounts[i + 1..])
  }

  lemma SuppliesStart(s: State, path: seq<CurrencyId>, target: Balance, limit: Option<Balance>, amounts: seq<Balance>)
    requires 0 < |path| == |amounts| && amounts[|path| - 1] == target
    ensures SuppliesFilled(s, path, target, limit, amounts, |path| - 1)
  {
    var r, n := SuppliesAlong(s, path, target, limit), |path|;
    assert path[..n] == path && amounts[n..] == [];
    if r.Ok? { assert r.value + [] == r.value; }
  }

  lemma SuppliesAdvance(s: State, path: seq<CurrencyId>, target: Balance, limit: Option<Balance>,
                        amounts: seq<Balance>, i: nat)
    requires SuppliesFilled(s, path, target, limit, amounts, i) && i > 0
    ensures var h := SupplyOfHop(s, path[i - 1], path[i], amounts[i], limit);
            if h.Err? then SuppliesAlong(s, path, target, limit) == Err(h.error)
            else SuppliesFilled(s, path, target, limit, amounts[i - 1 := h.value], i - 1)
  {
    SuppliesUnfold(s, path, i, amounts[i], limit);
    var h := SupplyOfHop(s, path[i - 1], path[i], amounts[i], limit);
    if h.Ok? {
      var next, rest := amounts[i - 1 := h.value], SuppliesAlong(s, path[..i], h.value, limit);
      AppendTwice(rest, amounts[i], amounts[i + 1..]);
      assert next[i..] == [amounts[i]] + amounts[i + 1..];
    }
  }

  lemma {:induction false} IssueOneMore(l: Ledger, lp: CurrencyId, acc: Amounts, all: map<AccountId, Amounts>,
                                        order: seq<AccountId>, who: AccountId)
    requires Within(order, all) && who in all
    ensures Within(order + [who], all)
    ensures var m := IssueInitial(l, lp, acc, all, order);
            IssueInitial(l, lp, acc, all, order + [who])
            == Deposit(m, lp, who, InitialShares(acc, all[who])).GetOr(m)
    decreases |order|
  {
    var longer := order + [who];
    assert Within(longer, all);
    if order == [] {
      assert longer == [who];
      assert longer[1..] == [];
    } else {
      var m := Deposit(l, lp, order[0], InitialShares(acc, all[order[0]])).GetOr(l);
      assert longer[0] == order[0] && longer[1..] == order[1..] + [who];
      IssueOneMore(m, lp, acc, all, order[1..], who);
    }
  }

  lemma {:induction false} RefundOneMore(l: Ledger, p: TradingPair, all: map<AccountId, Amounts>,
                                         order: seq<AccountId>, who: AccountId)
    requires Within(order, all) && who in all
    ensures Within(order + [who], all)
    ensures Refund(l, p, all, order + [who])
            == match Refund(l, p, all, order)
               case None => None
               case Some(m) => TransferBoth(m, p, MODULE_ACCOUNT, who, all[who])
    decreases |order|
  {
    var longer := order + [who];
    assert Within(longer, all);
    if order == [] {
      assert longer == [who];
      assert longer[1..] == [];
    } else {
      assert longer[0] == order[0] && longer[1..] == order[1..] + [who];
      var m := TransferBoth(l, p, MODULE_ACCOUNT, order[0], all[order[0]]);
      if m.Some? { RefundOneMore(m.value, p, all, order[1..], who); }
    }
  }

  /** Once a refund has failed, going on in any order fails. */
  lemma {:induction false} RefundStaysRefused(l: Ledger, p: TradingPair, all: map<AccountId, Amounts>,
                                              order: seq<AccountId>, more: seq<AccountId>)
    requires Within(order + more, all) && Within(order, all) && Refund(l, p, all, order).None?
    ensures Refund(l, p, all, order + more).None?
    decreases |order|
  {
    var longer := order + more;
    assert order != [];
    assert longer[0] == order[0] && longer[1..] == order[1..] + more;
    var m := TransferBoth(l, p, MODULE_ACCOUNT, order[0], all[order[0]]);
    if m.Some? { RefundStaysRefused(m.value, p, all, order[1..], more); }
  }

  /** Part of a storage prefix has been drained in the given order, `rest` is what remains. */
  ghost predicate Drained(order: seq<AccountId>, rest: map<AccountId, Amounts>, all: map<AccountId, Amounts>) {
    && Within(order, all)
    && (forall i, j :: 0 <= i < j < |order| ==> order[i] != order[j])
    && (forall who :: who in all <==> who in order || who in rest)
    && (forall who :: who in rest ==> who !in order && rest[who] == all[who])
  }

  lemma DrainOne(order: seq<AccountId>, rest: map<AccountId, Amounts>, all: map<AccountId, Amounts>, who: AccountId)
    requires Drained(order, rest, all) && who in rest
    ensures Drained(order + [who], rest - {who}, all)
  {}

  /** Some order of what remains. */
  lemma SomeOrder(rest: map<AccountId, Amounts>) returns (order: seq<AccountId>)
    ensures IsOrderOf(order, rest)
    decreases |rest|
  {
    if rest == map[] {
      order := [];
    } else {
      var who :| who in rest;
      var less := SomeOrder(rest - {who});
      order := [who] + less;
    }
  }

  /** Any way of finishing an interrupted refund is refused as well. */
  lemma FinishRefused(l: Ledger, p: TradingPair, all: map<AccountId, Amounts>, order: seq<AccountId>,
                      rest: map<AccountId, Amounts>)
    returns (longer: seq<AccountId>)
    requires Drained(order, rest, all) && Refund(l, p, all, order).None?
    ensures IsOrderOf(longer, all) && Within(longer, all) && Refund(l, p, all, longer).None?
  {
    var more := SomeOrder(rest);
    longer := order + more;
    assert forall w :: w in longer <==> w in order || w in more;
    forall i, j | 0 <= i < j < |longer| ensures longer[i] != longer[j] {
      if i < |order| <= j { assert longer[i] in order && longer[j] in more; }
    }
    forall i | 0 <= i < |longer| ensures longer[i] in all { assert longer[i] in longer; }
    RefundStaysRefused(l, p, all, order, more);
  }

  class Exchange {
    var pools: map<TradingPair, Amounts>
    var statuses: map<TradingPair, Status>
    var contributions: map<TradingPair, map<AccountId, Amounts>>
    var fee: Fee
    var ledger: Ledger
    const pathLimit: nat

    function Storage(): State
      reads this
    {
      State(pools, statuses, contributions, fee, pathLimit, ledger)
    }

    constructor (fee: Fee, pathLimit: nat, ledger: Ledger)
      ensures Storage() == State(map[], map[], map[], fee, pathLimit, ledger)
    {
      this.pools, this.statuses, this.contributions := map[], map[], map[];
      this.fee, this.pathLimit, this.ledger := fee, pathLimit, ledger;
    }

    /** The checks and the price of one hop, from the supply side. */
    method QuoteTarget(a: CurrencyId, b: CurrencyId, supply: Balance, limit: Option<Balance>)
      returns (r: Result<Balance, Error>)
      ensures r == TargetOfHop(Storage(), a, b, supply, limit)
    {
      if StatusOf(Storage(), NewPair(a, b)) != Enabled { return Err(MustBeEnabled); }
      var l := GetLiquidity(pools, a, b);
      if l.fst == 0 || l.snd == 0 { return Err(InsufficientLiquidity); }
      var target := GetTargetAmount(fee, l.fst, l.snd, supply);
      if target == 0 { return Err(ZeroTargetAmount); }
      if ImpactExceeds(limit, target, l.snd) { return Err(ExceedPriceImpactLimit); }
      r := Ok(target);
    }

    /** The checks and the price of one hop, from the target side. */
    method QuoteSupply(a: CurrencyId, b: CurrencyId, target: Balance, limit: Option<Balance>)
      returns (r: Result<Balance, Error>)
      ensures r == SupplyOfHop(Storage(), a, b, target, limit)
    {
      if StatusOf(Storage(), NewPair(a, b)) != Enabled { return Err(MustBeEnabled); }
      var l := GetLiquidity(pools, a, b);
      if l.fst == 0 || l.snd == 0 { return Err(InsufficientLiquidity); }
      var supply := GetSupplyAmount(fee, l.fst, l.snd, target);
      if supply == 0 { return Err(ZeroSupplyAmount); }
      if ImpactExceeds(limit, target, l.snd) { return Err(ExceedPriceImpactLimit); }
      r := Ok(supply);
    }

    /** Fills the vector of amounts from the supply end. */
    method GetTargetAmounts(path: seq<CurrencyId>, supply: Balance, limit: Option<Balance>)
      returns (r: Result<seq<Balance>, Error>)
      ensures r == TargetAmounts(Storage(), path, supply, limit)
    {
      var n := |path|;
      if n < 2 || n > pathLimit { return Err(InvalidTradingPathLength); }
      var amounts: seq<Balance> := seq(n, _ => 0);
      amounts := amounts[0 := supply];
      var i := 0;
      ghost var s := Storage();
      TargetsStart(s, path, supply, limit, amounts);
      while i + 1 < n
        invariant 0 <= i < n && |amounts| == n
        invariant TargetsFilled(s, path, supply, limit, amounts, i)
      {
        TargetsAdvance(s, path, supply, limit, amounts, i);
        var quote := QuoteTarget(path[i], path[i + 1], amounts[i], limit);
        if quote.Err? { return Err(quote.error); }
        amounts := amounts[i + 1 := quote.value];
        i := i + 1;
      }
      assert path[i..] == [path[n - 1]];
      assert amounts[..i] + [amounts[i]] == amounts;
      r := Ok(amounts);
    }

    /** Fills the vector of amounts from the target end. */
    method GetSupplyAmounts(path: seq<CurrencyId>, target: Balance, limit: Option<Balance>)
      returns (r: Result<seq<Balance>, Error>)
      ensures r == SupplyAmounts(Storage(), path, target, limit)
    {
      var n := |path|;
      if n < 2 || n > pathLimit { return Err(InvalidTradingPathLength); }
      var amounts: seq<Balance> := seq(n, _ => 0);
      amounts := amounts[n - 1 := target];
      var i := n - 1;
      ghost var s := Storage();
      SuppliesStart(s, path, target, limit, amounts);
      while i > 0
        invariant 0 <= i < n && |amounts| == n
        invariant SuppliesFilled(s, path, target, limit, amounts, i)
      {
        SuppliesAdvance(s, path, target, limit, amounts, i);
        var quote := QuoteSupply(path[i - 1], path[i], amounts[i], limit);
        if quote.Err? { return Err(quote.error); }
        amounts := amounts[i - 1 := quote.value];
        i := i - 1;
      }
      assert path[..1] == [path[0]];
      assert [amounts[0]] + amounts[1..] == amounts;
      r := Ok(amounts);
    }

    /** Moves the reserves of each pair along the path. */
    method SwapAlong(path: seq<CurrencyId>, amounts: seq<Balance>)
      requires |path| == |amounts|
      modifies this`pools
      ensures pools == SwapByPath(old(pools), path, amounts)
    {
      var i := 0;
      assert path[0..] == path && amounts[0..] == amounts;
      while i + 1 < |path|
        invariant 0 <= i <= |path|
        invariant SwapByPath(old(pools), path, amounts) == SwapByPath(pools, path[i..], amounts[i..])
      {
        var supplyCurrency, targetCurrency := path[i], path[i + 1];
        assert path[i..][1..] == path[i + 1..] && amounts[i..][1..] == amounts[i + 1..];
        pools := SwapHop(pools, supplyCurrency, targetCurrency, amounts[i], amounts[i + 1]);
        i := i + 1;
      }
    }

    /** Transfers in, swaps along the path, transfers out; undone if either transfer fails. */
    method Execute(who: AccountId, path: seq<CurrencyId>, amounts: seq<Balance>) returns (done: bool)
      requires |path| == |amounts| >= 2
      modifies this`pools, this`ledger
      ensures done == Settle(old(Storage()), who, path, amounts).Some?
      ensures Storage() == Settle(old(Storage()), who, path, amounts).GetOr(old(Storage()))
    {
      var poolsBefore, ledgerBefore := pools, ledger;
      var paid := Transfer(ledger, path[0], who, MODULE_ACCOUNT, amounts[0]);
      if paid.None? { return false; }
      ledger := paid.value;
      SwapAlong(path, amounts);
      var out := Transfer(ledger, path[|path| - 1], MODULE_ACCOUNT, who, amounts[|path| - 1]);
      if out.None? {
        pools, ledger := poolsBefore, ledgerBefore;
        return false;
      }
      ledger := out.value;
      return true;
    }

    method DoSwapWithExactSupply(who: AccountId, path: seq<CurrencyId>, supply: Balance, minTarget: Balance,
                                 limit: Option<Balance>)
      returns (r: Result<Balance, Error>)
      modifies this`pools, this`ledger
      ensures match SwapWithExactSupply(old(Storage()), who, path, supply, minTarget, limit)
              case Err(e) => r == Err(e) && Storage() == old(Storage())
              case Ok((t, amount)) => r == Ok(amount) && Storage() == t
    {
      var quote := GetTargetAmounts(path, supply, limit);
      if quote.Err? { return Err(quote.error); }
      var amounts := quote.value;
      var target := amounts[|amounts| - 1];
      if target < minTarget { return Err(InsufficientTargetAmount); }
      var done := Execute(who, path, amounts);
      if !done { return Err(LedgerRefused); }
      r := Ok(target);
    }

    method DoSwapWithExactTarget(who: AccountId, path: seq<CurrencyId>, target: Balance, maxSupply: Balance,
                                 limit: Option<Balance>)
      returns (r: Result<Balance, Error>)
      modifies this`pools, this`ledger
      ensures match SwapWithExactTarget(old(Storage()), who, path, target, maxSupply, limit)
              case Err(e) => r == Err(e) && Storage() == old(Storage())
              case Ok((t, amount)) => r == Ok(amount) && Storage() == t
    {
      var quote := GetSupplyAmounts(path, target, limit);
      if quote.Err? { return Err(quote.error); }
      var amounts := quote.value;
      if amounts[0] > maxSupply { return Err(ExcessiveSupplyAmount); }
      var done := Execute(who, path, amounts);
      if !done { return Err(LedgerRefused); }
      r := Ok(amounts[0]);
    }

    method DoAddLiquidity(who: AccountId, a: CurrencyId, b: CurrencyId, maxA: Balance, maxB: Balance,
                          minShares: Balance)
      returns (r: Result<(), Error>)
      modifies this`pools, this`ledger
      ensures match AddLiquidity(old(Storage()), who, a, b, maxA, maxB, minShares)
              case Err(e) => r == Err(e) && Storage() == old(Storage())
              case Ok(t) => r == Ok(()) && Storage() == t
    {
      var p := NewPair(a, b);
      var lp := ShareCurrency(p);
      if lp.None? { return Err(InvalidCurrencyId); }
      if StatusOf(Storage(), p) != Enabled { return Err(MustBeEnabled); }
      var pool := PoolOf(pools, p);
      var inc := LiquidityIncrement(pool, Issuance(ledger, lp.value), InPairOrder(p, a, maxA, maxB));
      if inc.shares == 0 || inc.amounts.fst == 0 || inc.amounts.snd == 0 { return Err(InvalidLiquidityIncrement); }
      if inc.shares < minShares { return Err(UnacceptableShareIncrement); }
      var before := ledger;
      var first := Transfer(ledger, p.first, who, MODULE_ACCOUNT, inc.amounts.fst);
      if first.None? { return Err(LedgerRefused); }
      ledger := first.value;
      var second := Transfer(ledger, p.second, who, MODULE_ACCOUNT, inc.amounts.snd);
      if second.None? { ledger := before; return Err(LedgerRefused); }
      ledger := second.value;
      var issued := Deposit(ledger, lp.value, who, inc.shares);
      if issued.None? { ledger := before; return Err(LedgerRefused); }
      ledger := issued.value;
      pools := pools[p := Amounts(SatAdd(pool.fst, inc.amounts.fst), SatAdd(pool.snd, inc.amounts.snd))];
      r := Ok(());
    }

    method DoRemoveLiquidity(who: AccountId, a: CurrencyId, b: CurrencyId, shares: Balance, minA: Balance,
                             minB: Balance)
      returns (r: Result<(), Error>)
      modifies this`pools, this`ledger
      ensures match RemoveLiquidity(old(Storage()), who, a, b, shares, minA, minB)
              case Err(e) => r == Err(e) && Storage() == old(Storage())
              case Ok(t) => r == Ok(()) && Storage() == t
    {
      hide Transfer, Withdraw, Redeemed;
      if shares == 0 { return Ok(()); }
      var pair := FromTokens(a, b);
      if pair.None? { return Err(InvalidCurrencyId); }
      var p := pair.value;
      var lp := ShareCurrency(p);
      if lp.None? { return Err(InvalidCurrencyId); }
      var pool, min := PoolOf(pools, p), InPairOrder(p, a, minA, minB);
      var out := Redeemed(pool, Issuance(ledger, lp.value), shares);
      if out.fst < min.fst || out.snd < min.snd { return Err(UnacceptableLiquidityWithdrawn); }
      var before := ledger;
      var burned := Withdraw(ledger, lp.value, who, shares);
      if burned.None? { return Err(LedgerRefused); }
      ledger := burned.value;
      var first := Transfer(ledger, p.first, MODULE_ACCOUNT, who, out.fst);
      if first.None? { ledger := before; return Err(LedgerRefused); }
      ledger := first.value;
      var second := Transfer(ledger, p.second, MODULE_ACCOUNT, who, out.snd);
      if second.None? { ledger := before; return Err(LedgerRefused); }
      ledger := second.value;
      pools := pools[p := Amounts(SatSub(pool.fst, out.fst), SatSub(pool.snd, out.snd))];
      r := Ok(());
    }

    method DoAddProvision(who: AccountId, a: CurrencyId, b: CurrencyId, amountA: Balance, amountB: Balance)
      returns (r: Result<(), Error>)
      modifies this`contributions, this`statuses, this`ledger
      ensures match AddProvision(old(Storage()), who, a, b, amountA, amountB)
              case Err(e) => r == Err(e) && Storage() == old(Storage())
              case Ok(t) => r == Ok(()) && Storage() == t
    {
      var p := NewPair(a, b);
      var status := StatusOf(Storage(), p);
      if !status.Provisioning? { return Err(MustBeProvisioning); }
      var par, given := status.parameters, InPairOrder(p, a, amountA, amountB);
      if given.fst < par.minContribution.fst && given.snd < par.minContribution.snd {
        return Err(InvalidContributionIncrement);
      }
      var all: map<AccountId, Amounts> := ContributionsTo(Storage(), p);
      var pool := if who in all then all[who] else Amounts(0, 0);
      pool := Plus(pool, given);
      var before := ledger;
      var first := Transfer(ledger, p.first, who, MODULE_ACCOUNT, given.fst);
      if first.None? { return Err(LedgerRefused); }
      ledger := first.value;
      var second := Transfer(ledger, p.second, who, MODULE_ACCOUNT, given.snd);
      if second.None? { ledger := before; return Err(LedgerRefused); }
      ledger := second.value;
      contributions := contributions[p := all[who := pool]];
      statuses := statuses[p := Provisioning(par.(accumulated := Plus(par.accumulated, given)))];
      r := Ok(());
    }

    /** Drains the contributions in an arbitrary order, issuing shares as it goes. */
    method IssueToContributors(lp: CurrencyId, acc: Amounts, all: map<AccountId, Amounts>)
      returns (ghost order: seq<AccountId>)
      modifies this`ledger
      ensures IsOrderOf(order, all) && Within(order, all)
      ensures ledger == IssueInitial(old(ledger), lp, acc, all, order)
    {
      var rest := all;
      order := [];
      while rest != map[]
        invariant Drained(order, rest, all)
        invariant ledger == IssueInitial(old(ledger), lp, acc, all, order)
        decreases |rest|
      {
        var who :| who in rest;
        var issued := Deposit(ledger, lp, who, InitialShares(acc, rest[who]));
        IssueOneMore(old(ledger), lp, acc, all, order, who);
        if issued.Some? { ledger := issued.value; }
        DrainOne(order, rest, all, who);
        rest := rest - {who};
        order := order + [who];
      }
    }

    /** When the provision is complete: issues the initial shares, fills the pool and enables the pair. */
    method ConvertToEnabledIfPossible(p: TradingPair, now: nat) returns (ghost order: seq<AccountId>)
      modifies this
      ensures IsOrderOf(order, ContributionsTo(old(Storage()), p))
      ensures Within(order, ContributionsTo(old(Storage()), p))
      ensures Storage() == ConvertToEnabled(old(Storage()), p, now, order)
    {
      hide IssueInitial, ReadyToEnable;
      var all := ContributionsTo(Storage(), p);
      var status, lp := StatusOf(Storage(), p), ShareCurrency(p);
      if !status.Provisioning? || !ReadyToEnable(status.parameters, now) || lp.None? {
        order := SomeOrder(all);
        assert forall i :: 0 <= i < |order| ==> order[i] in order;
        return;
      }
      var par := status.parameters;
      order := IssueToContributors(lp.value, par.accumulated, all);
      contributions := contributions - {p};
      pools := pools[p := Plus(PoolOf(pools, p), par.accumulated)];
      statuses := statuses[p := Enabled];
    }

    /** The `add_liquidity` call. */
    method CallAddLiquidity(who: AccountId, a: CurrencyId, b: CurrencyId, maxA: Balance, maxB: Balance,
                            minShares: Balance, now: nat)
      returns (r: Result<(), Error>, ghost order: seq<AccountId>)
      modifies this
      ensures r.Err? ==> Storage() == old(Storage())
      ensures forall i :: 0 <= i < |order| && order[i] != who ==> order[i] in ContributionsTo(old(Storage()), NewPair(a, b))
      ensures match AddLiquidityCall(old(Storage()), who, a, b, maxA, maxB, minShares, now, order)
              case Err(e) => r == Err(e)
              case Ok(t) => r == Ok(()) && Storage() == t
    {
      order := [];
      var pair := FromTokens(a, b);
      if pair.None? { return Err(InvalidCurrencyId), []; }
      PairIsSymmetric(a, b);
      match StatusOf(Storage(), pair.value)
      case NotEnabled => r := Err(NotEnabledTradingPair);
      case Enabled => r := DoAddLiquidity(who, a, b, maxA, maxB, minShares);
      case Provisioning(_) =>
        r := DoAddProvision(who, a, b, maxA, maxB);
        if r.Ok? { order := ConvertToEnabledIfPossible(pair.value, now); }
    }

    /** Pays the contributors to a pair back, in a loop; undone if any payment fails. */
    method RefundAll(p: TradingPair) returns (done: bool, ghost order: seq<AccountId>)
      modifies this`ledger
      ensures IsOrderOf(order, ContributionsTo(Storage(), p)) && Within(order, ContributionsTo(Storage(), p))
      ensures var l := Refund(old(ledger), p, ContributionsTo(Storage(), p), order);
              done == l.Some? && ledger == l.GetOr(old(ledger))
    {
      ghost var all := ContributionsTo(Storage(), p);
      var before, rest := ledger, ContributionsTo(Storage(), p);
      order := [];
      while rest != map[]
        invariant Drained(order, rest, all)
        invariant Refund(before, p, all, order) == Some(ledger)
        decreases |rest|
      {
        var who :| who in rest;
        var m := rest[who];
        RefundOneMore(before, p, all, order, who);
        DrainOne(order, rest, all, who);
        rest := rest - {who};
        order := order + [who];
        var first := Transfer(ledger, p.first, MODULE_ACCOUNT, who, m.fst);
        var second := if first.None? then None else Transfer(first.value, p.second, MODULE_ACCOUNT, who, m.snd);
        if second.None? {
          order := FinishRefused(before, p, all, order, rest);
          ledger := before;
          return false, order;
        }
        ledger := second.value;
      }
      done := true;
    }

    method DoDisableTradingPair(a: CurrencyId, b: CurrencyId) returns (r: Result<(), Error>,
                                ghost order: seq<AccountId>)
      modifies this
      ensures FromTokens(a, b).Some? ==> IsOrderOf(order, ContributionsTo(old(Storage()), FromTokens(a, b).value))
      ensures FromTokens(a, b).Some? ==> Within(order, ContributionsTo(old(Storage()), FromTokens(a, b).value))
      ensures match DisableTradingPair(old(Storage()), a, b, order)
              case Err(e) => r == Err(e) && Storage() == old(Storage())
              case Ok(t) => r == Ok(()) && Storage() == t
    {
      var pair := FromTokens(a, b);
      if pair.None? { return Err(InvalidCurrencyId), []; }
      var p := pair.value;
      var status := StatusOf(Storage(), p);
      if status.Provisioning? {
        var done;
        done, order := RefundAll(p);
        if !done { return Err(LedgerRefused), order; }
        contributions := contributions - {p};
        statuses := statuses - {p};
      } else {
        order := SomeOrder(ContributionsTo(Storage(), p));
        forall i | 0 <= i < |order| ensures order[i] in order {}
        if status.NotEnabled? { return Err(NotEnabledTradingPair), order; }
        statuses := statuses[p := NotEnabled];
      }
      r := Ok(());
    }

    method DoEnableTradingPair(a: CurrencyId, b: CurrencyId) returns (r: Result<(), Error>)
      modifies this`statuses
      ensures match EnableTradingPair(old(Storage()), a, b)
              case Err(e) => r == Err(e) && Storage() == old(Storage())
              case Ok(t) => r == Ok(()) && Storage() == t
    {
      var pair := FromTokens(a, b);
      if pair.None? { return Err(InvalidCurrencyId); }
      if StatusOf(Storage(), pair.value) != NotEnabled { return Err(MustBeNotEnabled); }
      statuses := statuses[pair.value := Enabled];
      r := Ok(());
    }

    method DoListTradingPair(a: CurrencyId, b: CurrencyId, minA: Balance, minB: Balance, targetA: Balance,
                             targetB: Balance, notBefore: nat)
      returns (r: Result<(), Error>)
      modifies this`statuses
      ensures match ListTradingPair(old(Storage()), a, b, minA, minB, targetA, targetB, notBefore)
              case Err(e) => r == Err(e) && Storage() == old(Storage())
              case Ok(t) => r == Ok(()) && Storage() == t
    {
      if a == b { return Err(NotAllowedList); }
      var pair := FromTokens(a, b);
      if pair.None? { return Err(InvalidCurrencyId); }
      var p := pair.value;
      var lp := ShareCurrency(p);
      if lp.None? { return Err(InvalidCurrencyId); }
      if StatusOf(Storage(), p) != NotEnabled { return Err(MustBeNotEnabled); }
      if Issuance(ledger, lp.value) != 0 { return Err(NotAllowedList); }
      var min, target := Amounts(minA, minB), Amounts(targetA, targetB);
      if a != p.first { min, target := Amounts(minB, minA), Amounts(targetB, targetA); }
      statuses := statuses[p := Provisioning(Provision(min, target, Amounts(0, 0), notBefore))];
      r := Ok(());
    }
  }
}
