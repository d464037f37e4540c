/** A plain multi-currency ledger: free balances per currency and account, and the total
    issuance of each currency. Every amount is a `u128`; an operation that would overflow or
    overdraw is refused. */
module Ledgers {
  import opened Numbers
  import opened Wrappers
  import opened Currencies
  import opened MapSums

  datatype Ledger = Ledger(balances: map<CurrencyId, map<AccountId, Balance>>,
                           issuance: map<CurrencyId, Balance>)

  function Holders(l: Ledger, c: CurrencyId): map<AccountId, Balance> {
    if c in l.balances then l.balances[c] else map[]
  }

  function Free(l: Ledger, c: CurrencyId, who: AccountId): Balance {
    if who in Holders(l, c) then Holders(l, c)[who] else 0
  }

  function Issuance(l: Ledger, c: CurrencyId): Balance {
    if c in l.issuance then l.issuance[c] else 0
  }

  function SetFree(l: Ledger, c: CurrencyId, who: AccountId, amount: Balance): Ledger {
    l.(balances := l.balances[c := Holders(l, c)[who := amount]])
  }

  function Transfer(l: Ledger, c: CurrencyId, from: AccountId, to: AccountId, amount: Balance): Option<Ledger> {
    if amount == 0 || from == to then Some(l)
    else if Free(l, c, from) < amount || Free(l, c, to) + amount > U128_MAX then None
    else
      var debited := SetFree(l, c, from, Free(l, c, from) - amount);
      Some(SetFree(debited, c, to, Free(l, c, to) + amount))
  }

  function Deposit(l: Ledger, c: CurrencyId, who: AccountId, amount: Balance): Option<Ledger> {
    if amount == 0 then Some(l)
    else if Issuance(l, c) + amount > U128_MAX || Free(l, c, who) + amount > U128_MAX then None
    else
      var credited := SetFree(l, c, who, Free(l, c, who) + amount);
      Some(credited.(issuance := l.issuance[c := Issuance(l, c) + amount]))
  }

  function Withdraw(l: Ledger, c: CurrencyId, who: AccountId, amount: Balance): Option<Ledger> {
    if amount == 0 then Some(l)
    else if Free(l, c, who) < amount then None
    else
      var debited := SetFree(l, c, who, Free(l, c, who) - amount);
      Some(debited.(issuance := l.issuance[c := SatSub(Issuance(l, c), amount)]))
  }

  /** The balances of every currency add up to its issuance. */
  ghost predicate Consistent(l: Ledger) {
    forall c :: Sum(Holders(l, c)) == Issuance(l, c)
  }

  lemma SetFreeEffect(l: Ledger, c: CurrencyId, who: AccountId, amount: Balance)
    ensures forall d, a :: Free(SetFree(l, c, who, amount), d, a)
                           == if d == c && a == who then amount else Free(l, d, a)
    ensures forall d :: Issuance(SetFree(l, c, who, amount), d) == Issuance(l, d)
    ensures forall d :: d != c ==> Holders(SetFree(l, c, who, amount), d) == Holders(l, d)
    ensures Sum(Holders(SetFree(l, c, who, amount), c)) + Free(l, c, who) == Sum(Holders(l, c)) + amount
  {
    SumUpdate(Holders(l, c), who, amount);
  }

  lemma FreeAtMostIssuance(l: Ledger, c: CurrencyId, who: AccountId)
    requires Consistent(l)
    ensures Free(l, c, who) <= Issuance(l, c)
  {
    if who in Holders(l, c) { SumAtLeast(Holders(l, c), who); }
  }

  /** A transfer moves exactly `amount` and leaves every other balance and all issuance alone. */
  lemma TransferEffect(l: Ledger, c: CurrencyId, from: AccountId, to: AccountId, amount: Balance)
    requires Transfer(l, c, from, to, amount).Some? && from != to
    ensures var m := Transfer(l, c, from, to, amount).value;
            && (Consistent(l) ==> Consistent(m))
            && Free(l, c, from) >= amount
            && (forall d :: Issuance(m, d) == Issuance(l, d))
            && (forall d, a :: Free(m, d, a) == if d == c && a == from then Free(l, d, a) - amount
                                                else if d == c && a == to then Free(l, d, a) + amount
                                                else Free(l, d, a))
  {
    hide Sum, SetFree, Free, Holders, Issuance;
    if amount > 0 {
      var debited := SetFree(l, c, from, Free(l, c, from) - amount);
      SetFreeEffect(l, c, from, Free(l, c, from) - amount);
      SetFreeEffect(debited, c, to, Free(l, c, to) + amount);
    }
  }

  lemma TransferSucceeds(l: Ledger, c: CurrencyId, from: AccountId, to: AccountId, amount: Balance)
    requires Consistent(l) && Free(l, c, from) >= amount
    ensures Transfer(l, c, from, to, amount).Some?
  {
    if amount > 0 && from != to {
      var h := Holders(l, c);
      SumSplit(h, from);
      if to in h { SumSplit(h - {from}, to); }
    }
  }

  lemma DepositEffect(l: Ledger, c: CurrencyId, who: AccountId, amount: Balance)
    requires Deposit(l, c, who, amount).Some?
    ensures var m := Deposit(l, c, who, amount).value;
            && (Consistent(l) ==> Consistent(m))
            && (forall d :: Issuance(m, d) == if d == c then Issuance(l, d) + amount else Issuance(l, d))
            && (forall d, a :: Free(m, d, a) == if d == c && a == who then Free(l, d, a) + amount else Free(l, d, a))
  {
    if amount > 0 {
      SetFreeEffect(l, c, who, Free(l, c, who) + amount);
      var credited := SetFree(l, c, who, Free(l, c, who) + amount);
      var m := Deposit(l, c, who, amount).value;
      assert forall d :: Holders(m, d) == Holders(credited, d);
    }
  }

  lemma WithdrawEffect(l: Ledger, c: CurrencyId, who: AccountId, amount: Balance)
    requires Consistent(l) && Withdraw(l, c, who, amount).Some?
    ensures var m := Withdraw(l, c, who, amount).value;
            && Consistent(m)
            && amount <= Free(l, c, who) <= Issuance(l, c)
            && (forall d :: Issuance(m, d) == if d == c then Issuance(l, d) - amount else Issuance(l, d))
            && (forall d, a :: Free(m, d, a) == if d == c && a == who then Free(l, d, a) - amount else Free(l, d, a))
  {
    FreeAtMostIssuance(l, c, who);
    if amount > 0 {
      SetFreeEffect(l, c, who, Free(l, c, who) - amount);
      var debited := SetFree(l, c, who, Free(l, c, who) - amount);
      var m := Withdraw(l, c, who, amount).value;
      assert forall d :: Holders(m, d) == Holders(debited, d);
    }
  }
}
