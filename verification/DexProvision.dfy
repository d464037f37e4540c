/** Provisioning: draining the recorded contributions, in whatever order, pays back or turns
    into shares exactly what was recorded. */
module DexProvision {
  import opened Numbers
  import opened Wrappers
  import opened FixedPoint
  import opened Currencies
  import opened Ledgers
  import opened MapSums
  import opened Dex
  import opened DexPaths

  function Fsts(all: map<AccountId, Amounts>): map<AccountId, nat> { map a | a in all :: all[a].fst }

  function Snds(all: map<AccountId, Amounts>): map<AccountId, nat> { map a | a in all :: all[a].snd }

  ghost function SumFst(all: map<AccountId, Amounts>): nat { Sum(Fsts(all)) }

  ghost function SumSnd(all: map<AccountId, Amounts>): nat { Sum(Snds(all)) }

  /** How much of currency `c` the contributions to pair `p` contain. */
  ghost function PledgedTo(p: TradingPair, all: map<AccountId, Amounts>, c: CurrencyId): nat {
    (if p.first == c then SumFst(all) else 0) + (if p.second == c then SumSnd(all) else 0)
  }

  lemma SumsSplit(all: map<AccountId, Amounts>, who: AccountId)
    requires who in all
    ensures SumFst(all) == all[who].fst + SumFst(all - {who})
    ensures SumSnd(all) == all[who].snd + SumSnd(all - {who})
  {
    SumSplit(Fsts(all), who);
    SumSplit(Snds(all), who);
    assert Fsts(all) - {who} == Fsts(all - {who});
    assert Snds(all) - {who} == Snds(all - {who});
  }

  lemma SumsUpdate(all: map<AccountId, Amounts>, who: AccountId, m: Amounts)
    ensures var so := if who in all then all[who] else Amounts(0, 0);
            && SumFst(all[who := m]) + so.fst == SumFst(all) + m.fst
            && SumSnd(all[who := m]) + so.snd == SumSnd(all) + m.snd
  {
    SumsSplit(all[who := m], who);
    assert all[who := m] - {who} == all - {who};
    if who in all { SumsSplit(all, who); } else { assert all - {who} == all; }
  }

  lemma EmptyOrder(all: map<AccountId, Amounts>)
    requires IsOrderOf([], all)
    ensures all == map[]
  {
    forall a ensures a !in all { assert a !in []; }
  }

  lemma OrderTail(order: seq<AccountId>, all: map<AccountId, Amounts>)
    requires order != [] && IsOrderOf(order, all)
    ensures order[0] in all && IsOrderOf(order[1..], all - {order[0]})
  {
    assert order == [order[0]] + order[1..];
    assert order[0] in order;
  }

  // ----- moving both amounts of a pair -----

  lemma TransferBothEffect(l: Ledger, p: TradingPair, from: AccountId, to: AccountId, m: Amounts)
    requires from != to && TransferBoth(l, p, from, to, m).Some?
    ensures var n := TransferBoth(l, p, from, to, m).value;
            && (Consistent(l) ==> Consistent(n))
            && (forall c :: Free(l, c, from) >= Part(p, m, c))
            && (forall c :: Issuance(n, c) == Issuance(l, c))
            && (forall c, a :: Free(n, c, a) == if a == from then Free(l, c, a) - Part(p, m, c)
                                                else if a == to then Free(l, c, a) + Part(p, m, c)
                                                else Free(l, c, a))
  {
    TransferEffect(l, p.first, from, to, m.fst);
    TransferEffect(Transfer(l, p.first, from, to, m.fst).value, p.second, from, to, m.snd);
  }

  lemma TransferBothSucceeds(l: Ledger, p: TradingPair, from: AccountId, to: AccountId, m: Amounts)
    requires from != to && Consistent(l) && forall c :: Free(l, c, from) >= Part(p, m, c)
    ensures TransferBoth(l, p, from, to, m).Some?
  {
    assert Free(l, p.first, from) >= Part(p, m, p.first);
    assert Free(l, p.second, from) >= Part(p, m, p.second);
    TransferSucceeds(l, p.first, from, to, m.fst);
    TransferEffect(l, p.first, from, to, m.fst);
    TransferSucceeds(Transfer(l, p.first, from, to, m.fst).value, p.second, from, to, m.snd);
  }

  // ----- refunding -----

  ghost predicate Agrees(rest: map<AccountId, Amounts>, all: map<AccountId, Amounts>) {
    forall a :: a in rest ==> a in all && rest[a] == all[a]
  }

  /** The module account covers what was pledged. */
  ghost predicate Covers(l: Ledger, p: TradingPair, all: map<AccountId, Amounts>) {
    && Consistent(l) && MODULE_ACCOUNT !in all
    && forall c :: Free(l, c, MODULE_ACCOUNT) >= PledgedTo(p, all, c)
  }

  lemma RefundFirst(l: Ledger, p: TradingPair, order: seq<AccountId>, rest: map<AccountId, Amounts>)
    requires order != [] && IsOrderOf(order, rest) && Covers(l, p, rest)
    ensures IsOrderOf(order[1..], rest - {order[0]}) && order[0] in rest
    ensures var r := TransferBoth(l, p, MODULE_ACCOUNT, order[0], rest[order[0]]);
            && r.Some? && Covers(r.value, p, rest - {order[0]})
            && (forall c :: Issuance(r.value, c) == Issuance(l, c))
    ensures forall c :: PledgedTo(p, rest, c) == Part(p, rest[order[0]], c) + PledgedTo(p, rest - {order[0]}, c)
  {
    var who := order[0];
    OrderTail(order, rest);
    SumsSplit(rest, who);
    assert forall c :: PledgedTo(p, rest, c) == Part(p, rest[who], c) + PledgedTo(p, rest - {who}, c);
    forall c ensures Free(l, c, MODULE_ACCOUNT) >= Part(p, rest[who], c) {
      assert Free(l, c, MODULE_ACCOUNT) >= PledgedTo(p, rest, c);
    }
    TransferBothSucceeds(l, p, MODULE_ACCOUNT, who, rest[who]);
    TransferBothEffect(l, p, MODULE_ACCOUNT, who, rest[who]);
  }

  /** Refunding the contributors in `rest` never fails while the module account covers them. */
  lemma {:induction false} RefundSucceeds(l: Ledger, p: TradingPair, all: map<AccountId, Amounts>,
                                          order: seq<AccountId>, rest: map<AccountId, Amounts>)
    requires Within(order, all) && IsOrderOf(order, rest) && Agrees(rest, all) && Covers(l, p, rest)
    ensures Refund(l, p, all, order).Some?
    ensures Consistent(Refund(l, p, all, order).value)
    ensures forall c :: Issuance(Refund(l, p, all, order).value, c) == Issuance(l, c)
    decreases |order|
  {
    if order != [] {
      RefundFirst(l, p, order, rest);
      var n := TransferBoth(l, p, MODULE_ACCOUNT, order[0], rest[order[0]]).value;
      RefundSucceeds(n, p, all, order[1..], rest - {order[0]});
    }
  }

  /** It pays each contributor exactly the recorded contribution, and nobody else. */
  lemma {:induction false} RefundPaysExactly(l: Ledger, p: TradingPair, all: map<AccountId, Amounts>,
                                             order: seq<AccountId>, rest: map<AccountId, Amounts>,
                                             c: CurrencyId, a: AccountId)
    requires Within(order, all) && IsOrderOf(order, rest) && Agrees(rest, all) && Covers(l, p, rest)
    requires Refund(l, p, all, order).Some?
    ensures Free(Refund(l, p, all, order).value, c, a)
            == if a == MODULE_ACCOUNT then Free(l, c, a) - PledgedTo(p, rest, c)
               else if a in rest then Free(l, c, a) + Part(p, rest[a], c)
               else Free(l, c, a)
    decreases |order|
  {
    if order == [] {
      EmptyOrder(rest);
      assert Fsts(rest) == map[] && Snds(rest) == map[];
    } else {
      var who := order[0];
      RefundFirst(l, p, order, rest);
      TransferBothEffect(l, p, MODULE_ACCOUNT, who, rest[who]);
      var n := TransferBoth(l, p, MODULE_ACCOUNT, who, rest[who]).value;
      RefundPaysExactly(n, p, all, order[1..], rest - {who}, c, a);
    }
  }

  // ----- issuing the initial shares -----

  function SharesOf(accumulated: Amounts, all: map<AccountId, Amounts>): map<AccountId, nat> {
    map a | a in all :: InitialShares(accumulated, all[a])
  }

  ghost function TotalShares(accumulated: Amounts, all: map<AccountId, Amounts>): nat {
    Sum(SharesOf(accumulated, all))
  }

  lemma TotalSharesSplit(accumulated: Amounts, all: map<AccountId, Amounts>, who: AccountId)
    requires who in all
    ensures TotalShares(accumulated, all)
            == InitialShares(accumulated, all[who]) + TotalShares(accumulated, all - {who})
  {
    SumSplit(SharesOf(accumulated, all), who);
    assert SharesOf(accumulated, all) - {who} == SharesOf(accumulated, all - {who});
  }

  /** Whatever the order, and even when deposits are refused, only the share currency changes,
      its issuance does not fall and the module account receives nothing. */
  lemma {:induction false} IssueInitialFrame(l: Ledger, lp: CurrencyId, accumulated: Amounts,
                                             all: map<AccountId, Amounts>, order: seq<AccountId>)
    requires Within(order, all) && MODULE_ACCOUNT !in order
    ensures var m := IssueInitial(l, lp, accumulated, all, order);
            && (Consistent(l) ==> Consistent(m))
            && (forall c :: Free(m, c, MODULE_ACCOUNT) == Free(l, c, MODULE_ACCOUNT))
            && (forall c, a :: c != lp ==> Free(m, c, a) == Free(l, c, a))
            && (forall c :: c != lp ==> Issuance(m, c) == Issuance(l, c))
    decreases |order|
  {
    if order != [] {
      var shares := InitialShares(accumulated, all[order[0]]);
      var d := Deposit(l, lp, order[0], shares);
      if d.Some? { DepositEffect(l, lp, order[0], shares); }
      assert order[0] in order;
      IssueInitialFrame(d.GetOr(l), lp, accumulated, all, order[1..]);
    }
  }

  /** When the total fits, every contributor receives exactly the shares of its contribution. */
  lemma {:induction false} IssueInitialEffect(l: Ledger, lp: CurrencyId, accumulated: Amounts,
                                              all: map<AccountId, Amounts>, order: seq<AccountId>,
                                              rest: map<AccountId, Amounts>)
    requires Within(order, all) && IsOrderOf(order, rest) && Agrees(rest, all) && Consistent(l)
    requires Issuance(l, lp) + TotalShares(accumulated, rest) <= U128_MAX
    ensures var m := IssueInitial(l, lp, accumulated, all, order);
            && Issuance(m, lp) == Issuance(l, lp) + TotalShares(accumulated, rest)
            && forall a :: Free(m, lp, a) == Free(l, lp, a)
                                             + (if a in rest then InitialShares(accumulated, rest[a]) else 0)
    decreases |order|
  {
    if order == [] {
      EmptyOrder(rest);
      assert SharesOf(accumulated, rest) == map[];
    } else {
      var who := order[0];
      var shares := InitialShares(accumulated, all[who]);
      OrderTail(order, rest);
      TotalSharesSplit(accumulated, rest, who);
      FreeAtMostIssuance(l, lp, who);
      DepositEffect(l, lp, who, shares);
      IssueInitialEffect(Deposit(l, lp, who, shares).value, lp, accumulated, all, order[1..], rest - {who});
    }
  }

  // ----- how many shares that is -----

  /** The larger accumulated side, and the two components of a contribution relative to it. */
  function Larger(acc: Amounts): Balance { if acc.fst > acc.snd then acc.fst else acc.snd }

  function Smaller(acc: Amounts): Balance { if acc.fst > acc.snd then acc.snd else acc.fst }

  function OnLarger(acc: Amounts, m: Amounts): Balance { if acc.fst > acc.snd then m.fst else m.snd }

  function OnSmaller(acc: Amounts, m: Amounts): Balance { if acc.fst > acc.snd then m.snd else m.fst }

  ghost function SumLarger(acc: Amounts, all: map<AccountId, Amounts>): nat {
    if acc.fst > acc.snd then SumFst(all) else SumSnd(all)
  }

  ghost function SumSmaller(acc: Amounts, all: map<AccountId, Amounts>): nat {
    if acc.fst > acc.snd then SumSnd(all) else SumFst(all)
  }

  /** One contribution: the shares are its value at the initial price, less than one unit short. */
  lemma OneContribution(acc: Amounts, m: Amounts, r: Balance)
    requires r == RatioOrZero(Larger(acc), Smaller(acc))
    requires OnSmaller(acc, m) <= Smaller(acc) && OnLarger(acc, m) <= Larger(acc) && 2 * Larger(acc) <= U128_MAX
    ensures var exact := r * OnSmaller(acc, m) + ONE * OnLarger(acc, m);
            exact - (ONE - 1) <= ONE * InitialShares(acc, m) <= exact
  {
    var x := OnSmaller(acc, m);
    assert r * x / ONE <= Larger(acc) by {
      if Smaller(acc) > 0 { ConvertedAtMost(Larger(acc), Smaller(acc), x, r); }
    }
    Quotient(r * x, ONE);
  }

  lemma ConvertedAtMost(large: Balance, small: Balance, x: Balance, r: Balance)
    requires 0 < small && x <= small && r == RatioOrZero(large, small)
    ensures r * small <= large * ONE && r * x / ONE <= large
  {
    Quotient(large * ONE, small);
    MulLe(x, small, r);
    QuotientAtMost(r * x, ONE, large);
  }

  /** The same for all contributors together, where `r` is the initial price. */
  ghost function ExactValue(acc: Amounts, all: map<AccountId, Amounts>, r: nat): nat {
    r * SumSmaller(acc, all) + ONE * SumLarger(acc, all)
  }

  lemma ExactValueSplit(acc: Amounts, all: map<AccountId, Amounts>, r: nat, who: AccountId)
    requires who in all
    ensures ExactValue(acc, all, r)
            == ExactValue(acc, all - {who}, r) + r * OnSmaller(acc, all[who]) + ONE * OnLarger(acc, all[who])
  {
    SumsSplit(all, who);
    Distribute(r, OnSmaller(acc, all[who]), SumSmaller(acc, all - {who}));
  }

  lemma Distribute(r: nat, x: nat, y: nat)
    ensures r * (x + y) == r * x + r * y
  {}

  /** Summed over the contributors, the rounding loses less than one unit each. */
  lemma {:induction false} AllContributions(acc: Amounts, rest: map<AccountId, Amounts>, r: Balance)
    requires r == RatioOrZero(Larger(acc), Smaller(acc))
    requires SumFst(rest) <= acc.fst && SumSnd(rest) <= acc.snd && 2 * Larger(acc) <= U128_MAX
    ensures ExactValue(acc, rest, r) - |rest| * (ONE - 1) <= ONE * TotalShares(acc, rest) <= ExactValue(acc, rest, r)
    decreases |rest|
  {
    if rest == map[] {
      assert Fsts(rest) == map[] && Snds(rest) == map[] && SharesOf(acc, rest) == map[];
    } else {
      var who :| who in rest;
      SumsSplit(rest, who);
      TotalSharesSplit(acc, rest, who);
      ExactValueSplit(acc, rest, r, who);
      AllContributions(acc, rest - {who}, r);
      OneContribution(acc, rest[who], r);
      assert |rest| == |rest - {who}| + 1;
    }
  }

  /** The initial shares are together at most twice the larger accumulated side, and fall short of
      that by less than one unit per contributor plus the price rounding, provided the price has a
      128-bit representation at all. */
  lemma TotalSharesBound(acc: Amounts, all: map<AccountId, Amounts>)
    requires SumFst(all) == acc.fst && SumSnd(all) == acc.snd
    requires acc.fst > 0 && acc.snd > 0 && 2 * Larger(acc) <= U128_MAX
    ensures TotalShares(acc, all) <= 2 * Larger(acc)
    ensures CheckedFromRational(Larger(acc), Smaller(acc)).Some? ==>
              ONE * TotalShares(acc, all) + |all| * (ONE - 1) + Smaller(acc) > ONE * (2 * Larger(acc))
  {
    var r := RatioOrZero(Larger(acc), Smaller(acc));
    AllContributions(acc, all, r);
    ConvertedAtMost(Larger(acc), Smaller(acc), Smaller(acc), r);
    assert ExactValue(acc, all, r) == r * Smaller(acc) + ONE * Larger(acc);
    if CheckedFromRational(Larger(acc), Smaller(acc)).Some? {
      PriceRounding(Larger(acc), Smaller(acc), r);
    }
  }

  lemma PriceRounding(large: nat, small: nat, r: nat)
    requires small > 0 && r == large * ONE / small
    ensures r * small + small > large * ONE
  {
    Quotient(large * ONE, small);
  }

  /** When it has none, the smaller side earns nothing: only the larger side counts. */
  lemma OverflowingInitialPrice(acc: Amounts, m: Amounts)
    requires CheckedFromRational(Larger(acc), Smaller(acc)).None?
    ensures InitialShares(acc, m) == OnLarger(acc, m)
  {}
}
