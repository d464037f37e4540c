/** Getting hold of enough native currency for a fee: the accepted currencies are tried in order,
    and the first one that the exchange can swap is swapped. */
module FeeSwaps {
  import opened Numbers
  import opened Wrappers
  import opened Currencies
  import opened MapSums
  import opened Ledgers
  import opened Dex
  import opened DexPaths
  import opened DexAccounts
  import DexCustody

  datatype Plan = Plan(native: CurrencyId, setter: CurrencyId, others: seq<CurrencyId>, slippage: Balance)

  /** The account's preferred currency first, then the native one, then all others. */
  function Order(p: Plan, preferred: Option<CurrencyId>): seq<CurrencyId> {
    match preferred
    case Some(c) => [c, p.native] + p.others
    case None => [p.native] + p.others
  }

  /** Drops each element that equals the one before it. */
  function Dedup<T(==)>(s: seq<T>): seq<T> {
    if |s| < 2 then s
    else if s[0] == s[1] then Dedup(s[1..])
    else [s[0]] + Dedup(s[1..])
  }

  function PathFrom(p: Plan, c: CurrencyId): seq<CurrencyId> {
    if c == p.setter then [p.setter, p.native] else [c, p.setter, p.native]
  }

  /** Can `fee` be withdrawn without going below the frozen amount? */
  predicate Enough(p: Plan, l: Ledger, frozen: Balance, who: AccountId, fee: Balance) {
    Free(l, p.native, who) >= fee && (fee == 0 || Free(l, p.native, who) - fee >= frozen)
  }

  function SwapFor(p: Plan, s: State, who: AccountId, fee: Balance, c: CurrencyId): Result<(State, Balance), Error> {
    SwapWithExactTarget(s, who, PathFrom(p, c), fee, Free(s.ledger, c, who), Some(p.slippage))
  }

  function TryInOrder(p: Plan, s: State, frozen: Balance, who: AccountId, fee: Balance, order: seq<CurrencyId>): State
    decreases |order|
  {
    if order == [] then s
    else if order[0] == p.native then
      if Enough(p, s.ledger, frozen, who, fee) then s else TryInOrder(p, s, frozen, who, fee, order[1..])
    else match SwapFor(p, s, who, fee, order[0])
      case Ok((t, _)) => t
      case Err(_) => TryInOrder(p, s, frozen, who, fee, order[1..])
  }

  function EnsureCanCharge(p: Plan, s: State, frozen: Balance, who: AccountId, fee: Balance,
                           preferred: Option<CurrencyId>): State {
    TryInOrder(p, s, frozen, who, fee, Dedup(Order(p, preferred)))
  }

  // ----- the order -----

  /** Trying a currency twice in a row changes nothing, so dropping repetitions is sound. */
  lemma {:induction false} DedupIsSound(p: Plan, s: State, frozen: Balance, who: AccountId, fee: Balance,
                                        order: seq<CurrencyId>)
    ensures TryInOrder(p, s, frozen, who, fee, Dedup(order)) == TryInOrder(p, s, frozen, who, fee, order)
    decreases |order|
  {
    hide SwapFor, Enough;
    if |order| >= 2 {
      DedupIsSound(p, s, frozen, who, fee, order[1..]);
      if order[0] != order[1] { assert ([order[0]] + Dedup(order[1..]))[1..] == Dedup(order[1..]); }
    }
  }

  // ----- one swap -----

  lemma TransferKeepsSums(l: Ledger, c: CurrencyId, from: AccountId, to: AccountId, amount: Balance)
    requires Transfer(l, c, from, to, amount).Some?
    ensures forall d :: Sum(Holders(Transfer(l, c, from, to, amount).value, d)) == Sum(Holders(l, d))
  {
    if amount > 0 && from != to {
      var debited := SetFree(l, c, from, Free(l, c, from) - amount);
      SetFreeEffect(l, c, from, Free(l, c, from) - amount);
      SetFreeEffect(debited, c, to, Free(l, c, to) + amount);
    }
  }

  /** The account gives up `x` of `c` and gets `y` of `d`; nobody but the exchange is affected
      otherwise, and no currency is created or destroyed. */
  ghost predicate Exchanged(s: State, t: State, who: AccountId, c: CurrencyId, x: Balance, d: CurrencyId, y: Balance) {
    && Free(s.ledger, c, who) >= x
    && (forall e, a :: a != MODULE_ACCOUNT ==>
          Free(t.ledger, e, a) == if a == who && e == c then Free(s.ledger, e, a) - x
                                  else if a == who && e == d then Free(s.ledger, e, a) + y
                                  else Free(s.ledger, e, a))
    && (forall e :: Sum(Holders(t.ledger, e)) == Sum(Holders(s.ledger, e)))
    && (forall e :: Issuance(t.ledger, e) == Issuance(s.ledger, e))
    && t.statuses == s.statuses && t.contributions == s.contributions && t.fee == s.fee && t.pathLimit == s.pathLimit
  }

  lemma SettleExchanges(s: State, who: AccountId, path: seq<CurrencyId>, v: seq<Balance>)
    requires |path| == |v| >= 2 && who != MODULE_ACCOUNT && path[0] != path[|path| - 1]
    requires Settle(s, who, path, v).Some?
    ensures Exchanged(s, Settle(s, who, path, v).value, who, path[0], v[0], path[|path| - 1], v[|path| - 1])
  {
    var n := |path|;
    var paid := Transfer(s.ledger, path[0], who, MODULE_ACCOUNT, v[0]).value;
    hide Transfer, SwapByPath, Sum, Holders, Free, Issuance, Consistent;
    TransferEffect(s.ledger, path[0], who, MODULE_ACCOUNT, v[0]);
    TransferKeepsSums(s.ledger, path[0], who, MODULE_ACCOUNT, v[0]);
    TransferEffect(paid, path[n - 1], MODULE_ACCOUNT, who, v[n - 1]);
    TransferKeepsSums(paid, path[n - 1], MODULE_ACCOUNT, who, v[n - 1]);
  }

  /** A successful swap for a fee credits exactly the fee and debits at most what the account has. */
  lemma SwapForExchanges(p: Plan, s: State, who: AccountId, fee: Balance, c: CurrencyId)
    requires who != MODULE_ACCOUNT && c != p.native && SwapFor(p, s, who, fee, c).Ok?
    ensures var (t, x) := SwapFor(p, s, who, fee, c).value;
            Exchanged(s, t, who, c, x, p.native, fee) && x <= Free(s.ledger, c, who)
  {
    hide Exchanged, Settle, SuppliesAlong;
    var path := PathFrom(p, c);
    var v := SupplyAmounts(s, path, fee, Some(p.slippage)).value;
    SettleExchanges(s, who, path, v);
  }

  // ----- the whole attempt -----

  /** What one of the currencies in `order` was swapped for. */
  ghost predicate SwappedOne(p: Plan, s: State, t: State, who: AccountId, fee: Balance, order: seq<CurrencyId>) {
    exists c :: c in order && c != p.native && SwapFor(p, s, who, fee, c).Ok? && SwapFor(p, s, who, fee, c).value.0 == t
  }

  /** Whatever the order, there is at most one swap, and nothing else changes. */
  lemma {:induction false} AtMostOneSwap(p: Plan, s: State, frozen: Balance, who: AccountId, fee: Balance,
                                         order: seq<CurrencyId>)
    ensures var t := TryInOrder(p, s, frozen, who, fee, order);
            t == s || SwappedOne(p, s, t, who, fee, order)
    decreases |order|
  {
    hide SwapFor, Enough;
    if order != [] {
      var t, rest := TryInOrder(p, s, frozen, who, fee, order), order[1..];
      if order[0] == p.native || SwapFor(p, s, who, fee, order[0]).Err? {
        AtMostOneSwap(p, s, frozen, who, fee, rest);
        if SwappedOne(p, s, t, who, fee, rest) {
          var c :| c in rest && c != p.native && SwapFor(p, s, who, fee, c).Ok? && SwapFor(p, s, who, fee, c).value.0 == t;
          assert c in order;
        }
      } else {
        assert order[0] in order;
      }
    }
  }

  /** For any order: either nothing changed, or exactly one accepted currency was exchanged for
      exactly the fee, within what the account had of it. */
  lemma AttemptOutcome(p: Plan, s: State, frozen: Balance, who: AccountId, fee: Balance, order: seq<CurrencyId>)
    requires who != MODULE_ACCOUNT
    ensures var t := TryInOrder(p, s, frozen, who, fee, order);
            t == s || exists c, x :: c in order && c != p.native && Exchanged(s, t, who, c, x, p.native, fee)
  {
    hide TryInOrder, SwapFor, Exchanged;
    AtMostOneSwap(p, s, frozen, who, fee, order);
    var t := TryInOrder(p, s, frozen, who, fee, order);
    if t != s {
      var c :| c in order && c != p.native && SwapFor(p, s, who, fee, c).Ok? && SwapFor(p, s, who, fee, c).value.0 == t;
      SwapForExchanges(p, s, who, fee, c);
    }
  }

  /** With the native currency among those tried, the attempt ends with the fee covered or with
      every balance and pool as before. */
  lemma CoveredOrUnchanged(p: Plan, s: State, frozen: Balance, who: AccountId, fee: Balance, order: seq<CurrencyId>)
    requires who != MODULE_ACCOUNT
    ensures var t := TryInOrder(p, s, frozen, who, fee, order);
            t == s || Free(t.ledger, p.native, who) == Free(s.ledger, p.native, who) + fee
  {
    hide TryInOrder;
    AttemptOutcome(p, s, frozen, who, fee, order);
  }

  /** The first `k` currencies cannot be swapped, or are the native one; then the order ends, or
      the native balance is enough. */
  ghost predicate StopsAt(p: Plan, s: State, frozen: Balance, who: AccountId, fee: Balance, order: seq<CurrencyId>,
                          k: nat) {
    && k <= |order|
    && (forall i :: 0 <= i < k && order[i] != p.native ==> SwapFor(p, s, who, fee, order[i]).Err?)
    && (k < |order| ==> order[k] == p.native && Enough(p, s.ledger, frozen, who, fee))
  }

  lemma StopsLater(p: Plan, s: State, frozen: Balance, who: AccountId, fee: Balance, order: seq<CurrencyId>, k: nat)
    requires k < |order|
    requires order[0] != p.native ==> SwapFor(p, s, who, fee, order[0]).Err?
    ensures StopsAt(p, s, frozen, who, fee, order, k + 1) <==> StopsAt(p, s, frozen, who, fee, order[1..], k)
  {
    hide SwapFor, Enough;
    if StopsAt(p, s, frozen, who, fee, order, k + 1) {
      forall i | 0 <= i < k && order[1..][i] != p.native ensures SwapFor(p, s, who, fee, order[1..][i]).Err? {
        assert order[1..][i] == order[i + 1];
      }
    }
    if StopsAt(p, s, frozen, who, fee, order[1..], k) {
      forall i | 0 <= i < k + 1 && order[i] != p.native ensures SwapFor(p, s, who, fee, order[i]).Err? {
        if i > 0 { assert order[1..][i - 1] == order[i]; }
      }
    }
  }

  lemma SwapChanges(p: Plan, s: State, who: AccountId, fee: Balance, c: CurrencyId)
    requires who != MODULE_ACCOUNT && fee > 0 && c != p.native && SwapFor(p, s, who, fee, c).Ok?
    ensures SwapFor(p, s, who, fee, c).value.0 != s
  {
    SwapForExchanges(p, s, who, fee, c);
  }

  /** Everything is left alone exactly when no accepted currency can be swapped before one comes
      to the native currency with enough of it, or to the end. */
  lemma {:induction false} UnchangedExactlyWhen(p: Plan, s: State, frozen: Balance, who: AccountId, fee: Balance,
                                                order: seq<CurrencyId>)
    requires who != MODULE_ACCOUNT && fee > 0
    ensures TryInOrder(p, s, frozen, who, fee, order) == s <==> exists k :: StopsAt(p, s, frozen, who, fee, order, k)
    decreases |order|
  {
    hide SwapFor, Enough;
    if order == [] {
      assert StopsAt(p, s, frozen, who, fee, order, 0);
    } else if order[0] != p.native && SwapFor(p, s, who, fee, order[0]).Ok? {
      SwapChanges(p, s, who, fee, order[0]);
    } else if order[0] == p.native && Enough(p, s.ledger, frozen, who, fee) {
      assert StopsAt(p, s, frozen, who, fee, order, 0);
    } else {
      hide StopsAt;
      UnchangedExactlyWhen(p, s, frozen, who, fee, order[1..]);
      NotAtOnce(p, s, frozen, who, fee, order);
      forall k: nat | k < |order|
        ensures StopsAt(p, s, frozen, who, fee, order, k + 1) <==> StopsAt(p, s, frozen, who, fee, order[1..], k)
      {
        StopsLater(p, s, frozen, who, fee, order, k);
      }
      if k: nat :| StopsAt(p, s, frozen, who, fee, order, k) {
        WithinOrder(p, s, frozen, who, fee, order, k);
        assert StopsAt(p, s, frozen, who, fee, order, k - 1 + 1);
        assert StopsAt(p, s, frozen, who, fee, order[1..], k - 1);
      }
      if k: nat :| StopsAt(p, s, frozen, who, fee, order[1..], k) {
        WithinOrder(p, s, frozen, who, fee, order[1..], k);
        assert StopsAt(p, s, frozen, who, fee, order, k + 1);
      }
    }
  }

  lemma NotAtOnce(p: Plan, s: State, frozen: Balance, who: AccountId, fee: Balance, order: seq<CurrencyId>)
    requires order != [] && (order[0] != p.native || !Enough(p, s.ledger, frozen, who, fee))
    ensures !StopsAt(p, s, frozen, who, fee, order, 0)
  {}

  lemma WithinOrder(p: Plan, s: State, frozen: Balance, who: AccountId, fee: Balance, order: seq<CurrencyId>, k: nat)
    requires StopsAt(p, s, frozen, who, fee, order, k)
    ensures k <= |order|
  {}

  /** After the attempt the fee can be withdrawn exactly when it could before, or when something
      was swapped and the balance before was not below the frozen amount. */
  lemma PayableExactlyWhen(p: Plan, s: State, frozen: Balance, who: AccountId, fee: Balance, order: seq<CurrencyId>)
    requires who != MODULE_ACCOUNT && fee > 0
    ensures var t := TryInOrder(p, s, frozen, who, fee, order);
            Enough(p, t.ledger, frozen, who, fee)
            <==> Enough(p, s.ledger, frozen, who, fee) || (t != s && Free(s.ledger, p.native, who) >= frozen)
  {
    hide TryInOrder;
    CoveredOrUnchanged(p, s, frozen, who, fee, order);
  }

  /** An account without a preference that holds enough never swaps. */
  lemma EnoughNeedsNoSwap(p: Plan, s: State, frozen: Balance, who: AccountId, fee: Balance)
    requires Enough(p, s.ledger, frozen, who, fee)
    ensures EnsureCanCharge(p, s, frozen, who, fee, None) == s
  {
    DedupIsSound(p, s, frozen, who, fee, Order(p, None));
  }

  lemma FeePathRepeatsNothing(p: Plan, c: CurrencyId)
    requires c != p.native
    ensures Unrepeated(PathFrom(p, c))
  {
    var path := PathFrom(p, c);
    forall i, j | 0 <= i < j < |path| - 1 ensures !SameHop(path, i, j) {}
  }

  /** The exchange's custody survives every attempt. */
  lemma AttemptKeepsCustody(p: Plan, s: State, frozen: Balance, who: AccountId, fee: Balance, order: seq<CurrencyId>)
    requires DexCustody.Inv(s) && who != MODULE_ACCOUNT
    ensures DexCustody.Inv(TryInOrder(p, s, frozen, who, fee, order))
    ensures DexCustody.SlackKept(s, TryInOrder(p, s, frozen, who, fee, order))
  {
    hide TryInOrder, DexCustody.Inv, DexCustody.Slack;
    AtMostOneSwap(p, s, frozen, who, fee, order);
    var t := TryInOrder(p, s, frozen, who, fee, order);
    if t != s {
      var c :| c in order && c != p.native && SwapFor(p, s, who, fee, c).Ok? && SwapFor(p, s, who, fee, c).value.0 == t;
      FeePathRepeatsNothing(p, c);
      DexCustody.UnrepeatedPathsAreSound(s, PathFrom(p, c), fee, Some(p.slippage));
      DexCustody.ExactTargetKeepsCustody(s, who, PathFrom(p, c), fee, Free(s.ledger, c, who), Some(p.slippage));
    }
  }
}
