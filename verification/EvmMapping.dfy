/** The two-way mapping between accounts and EVM addresses: claimed addresses, default addresses
    made by hashing, and padded accounts that stand for an address nobody has claimed. */
module EvmMapping {
  import opened Wrappers
  import opened EvmMessages

  type EvmAddress = b: Bytes | |b| == 20 witness seq(20, _ => 0)

  type AccountId = b: Bytes | |b| == 32 witness seq(32, _ => 0)

  // "evm:"
  const TAG: Bytes := [101, 118, 109, 58]

  /** Hashing an account to its default address, and recovering an address from a signature and
      the message signed, are left open. */
  datatype Crypto = Crypto(defaultAddress: AccountId -> EvmAddress, recover: (Bytes, Bytes) -> Option<EvmAddress>)

  datatype State = State(accounts: map<EvmAddress, AccountId>, evmAddresses: map<AccountId, EvmAddress>)

  datatype Error = AccountIdHasMapped | EthAddressHasMapped | BadSignature | InvalidSignature | TransferFailed | HandlerFailed

  function Padded(e: EvmAddress): AccountId { TAG + e + [0, 0, 0, 0, 0, 0, 0, 0] }

  predicate IsPadded(a: AccountId) { a[..4] == TAG }

  function GetAccountId(s: State, e: EvmAddress): AccountId {
    if e in s.accounts then s.accounts[e] else Padded(e)
  }

  function GetEvmAddress(s: State, a: AccountId): Option<EvmAddress> {
    if a in s.evmAddresses then Some(s.evmAddresses[a])
    else if IsPadded(a) then Some(a[4..24])
    else None
  }

  function Bind(s: State, a: AccountId, e: EvmAddress): State {
    State(s.accounts[e := a], s.evmAddresses[a := e])
  }

  function GetOrCreate(x: Crypto, s: State, a: AccountId): (State, EvmAddress) {
    match GetEvmAddress(s, a)
    case Some(e) => (s, e)
    case None => (Bind(s, a, x.defaultAddress(a)), x.defaultAddress(a))
  }

  /** What the mapping does when an account dies. */
  function Kill(x: Crypto, s: State, a: AccountId): State {
    var less := State(s.accounts - {x.defaultAddress(a)}, s.evmAddresses);
    if a in s.evmAddresses then State(less.accounts - {s.evmAddresses[a]}, s.evmAddresses - {a}) else less
  }

  /** What the rest of the runtime does during a claim: whether the padded account exists, whether
      its balance can be moved and whether moving it makes the account die, and whether the hook
      accepts the claim. */
  datatype Outside = Outside(paddedExists: bool, transferred: bool, paddedDies: bool, accepted: bool)

  function ClaimAccount(x: Crypto, s: State, who: AccountId, e: EvmAddress, signature: Bytes,
                        o: Outside): Result<State, Error> {
    if who in s.evmAddresses then Err(AccountIdHasMapped)
    else if e in s.accounts then Err(EthAddressHasMapped)
    else match x.recover(signature, SignableMessage(Hex(who), []))
      case None => Err(BadSignature)
      case Some(address) =>
        if e != address then Err(InvalidSignature)
        else if o.paddedExists && !o.transferred then Err(TransferFailed)
        else if !o.accepted then Err(HandlerFailed)
        else Ok(Bind(if o.paddedExists && o.paddedDies then Kill(x, s, Padded(e)) else s, who, e))
  }

  /** This call is not rolled back: when the hook refuses, the mapping stays made. */
  function ClaimDefault(x: Crypto, s: State, who: AccountId, accepted: bool): (State, Result<(), Error>) {
    if who in s.evmAddresses then (s, Err(AccountIdHasMapped))
    else (GetOrCreate(x, s, who).0, if accepted then Ok(()) else Err(HandlerFailed))
  }

  // ----- the two maps are inverse to each other -----

  ghost predicate Mutual(s: State) {
    && (forall e :: e in s.accounts ==> s.accounts[e] in s.evmAddresses && s.evmAddresses[s.accounts[e]] == e)
    && (forall a :: a in s.evmAddresses ==> s.evmAddresses[a] in s.accounts && s.accounts[s.evmAddresses[a]] == a)
  }

  /** When the default address of one of `people` is mapped, it is mapped to that account. */
  ghost predicate DefaultsOwned(x: Crypto, people: set<AccountId>, s: State) {
    forall a :: a in people && x.defaultAddress(a) in s.accounts ==> s.accounts[x.defaultAddress(a)] == a
  }

  ghost predicate NoPaddedMapped(s: State) { forall a :: a in s.evmAddresses ==> !IsPadded(a) }

  ghost predicate Inv(x: Crypto, people: set<AccountId>, s: State) { Mutual(s) && DefaultsOwned(x, people,
                      s) && NoPaddedMapped(s) }

  lemma BindKeepsMutual(s: State, a: AccountId, e: EvmAddress)
    requires Mutual(s) && a !in s.evmAddresses
    ensures Mutual(Bind(s, a, e)) <==> e !in s.accounts
  {
    if e in s.accounts {
      var b := s.accounts[e];
      assert Bind(s, a, e).evmAddresses[b] == e && Bind(s, a, e).accounts[e] == a;
    }
  }

  /** Killing an account keeps the maps inverse exactly when its default address is not in
      somebody else's hands. */
  lemma KillKeepsMutualExactlyWhen(x: Crypto, s: State, a: AccountId)
    requires Mutual(s)
    ensures Mutual(Kill(x, s, a))
            <==> (x.defaultAddress(a) in s.accounts ==> s.accounts[x.defaultAddress(a)] == a)
  {
    var h, t := x.defaultAddress(a), Kill(x, s, a);
    if h in s.accounts && s.accounts[h] != a {
      var b := s.accounts[h];
      assert b in t.evmAddresses && t.evmAddresses[b] == h && h !in t.accounts;
    }
  }

  /** So does making a default address exactly when nobody holds it. */
  lemma DefaultKeepsMutualExactlyWhen(x: Crypto, s: State, a: AccountId)
    requires Mutual(s) && GetEvmAddress(s, a).None?
    ensures Mutual(GetOrCreate(x, s, a).0) <==> x.defaultAddress(a) !in s.accounts
  {
    BindKeepsMutual(s, a, x.defaultAddress(a));
  }

  /** An address leads to an account that leads back, exactly when it is mapped or its padded
      account is not. */
  lemma AddressRoundTripExactlyWhen(s: State, e: EvmAddress)
    requires Mutual(s)
    ensures GetEvmAddress(s, GetAccountId(s, e)) == Some(e) <==> e in s.accounts || Padded(e) !in s.evmAddresses
  {
    assert Padded(e)[..4] == TAG;
    assert Padded(e)[4..24] == e;
  }

  /** An account leads to an address that leads back, exactly when it is mapped, or is the padded
      account of an address that is not. */
  lemma AccountRoundTripExactlyWhen(s: State, a: AccountId)
    requires Mutual(s) && GetEvmAddress(s, a).Some?
    ensures GetAccountId(s, GetEvmAddress(s, a).value) == a
            <==> a in s.evmAddresses || (a[4..24] !in s.accounts && a == Padded(a[4..24]))
  {}

  // ----- whole runs -----

  datatype Action =
    | Claim(who: AccountId, e: EvmAddress, signature: Bytes, outside: Outside)
    | Default(who: AccountId, accepted: bool)
    | Touch(who: AccountId)
    | Die(who: AccountId)

  /** `people` are the accounts that take part. Padded accounts have no key, and nobody can sign
      for anybody's default address. */
  ghost predicate Legal(x: Crypto, people: set<AccountId>, act: Action) {
    && act.who in people
    && (act.Claim? ==> !IsPadded(act.who) && forall a :: a in people ==> x.defaultAddress(a) != act.e)
    && (act.Claim? && act.outside.paddedExists ==> Padded(act.e) in people)
  }

  /** No two accounts that take part collide. */
  ghost predicate Injective(x: Crypto, people: set<AccountId>) {
    forall a, b :: a in people && b in people && x.defaultAddress(a) == x.defaultAddress(b) ==> a == b
  }

  function Step(x: Crypto, s: State, act: Action): State {
    match act
    case Claim(who, e, signature, o) =>
      var r := ClaimAccount(x, s, who, e, signature, o); if r.Ok? then r.value else s
    case Default(who, accepted) => ClaimDefault(x, s, who, accepted).0
    case Touch(who) => GetOrCreate(x, s, who).0
    case Die(who) => Kill(x, s, who)
  }

  lemma KillKeepsInv(x: Crypto, people: set<AccountId>, s: State, a: AccountId)
    requires Inv(x, people, s) && a in people
    ensures Inv(x, people, Kill(x, s, a))
  {
    KillKeepsMutualExactlyWhen(x, s, a);
  }

  lemma BindKeepsInv(x: Crypto, people: set<AccountId>, s: State, a: AccountId, e: EvmAddress)
    requires Inv(x, people, s) && a !in s.evmAddresses && e !in s.accounts && !IsPadded(a)
    requires forall b :: b in people && x.defaultAddress(b) == e ==> b == a
    ensures Inv(x, people, Bind(s, a, e))
  {
    BindKeepsMutual(s, a, e);
  }

  lemma GetOrCreateKeepsInv(x: Crypto, people: set<AccountId>, s: State, a: AccountId)
    requires Inv(x, people, s) && Injective(x, people) && a in people
    ensures Inv(x, people, GetOrCreate(x, s, a).0)
  {
    if GetEvmAddress(s, a).None? { BindKeepsInv(x, people, s, a, x.defaultAddress(a)); }
  }

  lemma StepKeepsInv(x: Crypto, people: set<AccountId>, s: State, act: Action)
    requires Inv(x, people, s) && Injective(x, people) && Legal(x, people, act)
    ensures Inv(x, people, Step(x, s, act))
  {
    hide Inv, Bind, Kill;
    match act
    case Claim(who, e, signature, o) =>
      if ClaimAccount(x, s, who, e, signature, o).Ok? {
        if o.paddedExists { PaddedDeathIsHarmless(x, people, s, e); }
        BindKeepsInv(x, people, s, who, e);
      }
    case Default(who, _) => GetOrCreateKeepsInv(x, people, s, who);
    case Touch(who) => GetOrCreateKeepsInv(x, people, s, who);
    case Die(who) => KillKeepsInv(x, people, s, who);
  }

  /** Emptying a padded account cannot disturb the mapping. */
  lemma PaddedDeathIsHarmless(x: Crypto, people: set<AccountId>, s: State, e: EvmAddress)
    requires Inv(x, people, s) && Padded(e) in people
    ensures Kill(x, s, Padded(e)) == s
  {
    var a := Padded(e);
    assert IsPadded(a) by { assert a[..4] == TAG; }
    assert a !in s.evmAddresses;
    assert x.defaultAddress(a) !in s.accounts;
    assert s.accounts - {x.defaultAddress(a)} == s.accounts;
  }

  ghost predicate LegalRun(x: Crypto, people: set<AccountId>, run: seq<Action>) {
    forall i :: 0 <= i < |run| ==> Legal(x, people, run[i])
  }

  function Run(x: Crypto, s: State, run: seq<Action>): State
    decreases |run|
  {
    if run == [] then s else Run(x, Step(x, s, run[0]), run[1..])
  }

  /** Through any run the maps stay inverse to each other, and every address leads to an account
      that leads back to it. */
  lemma {:induction false} MappingOverRuns(x: Crypto, people: set<AccountId>, s: State, run: seq<Action>, e: EvmAddress)
    requires Inv(x, people, s) && Injective(x, people) && LegalRun(x, people, run)
    ensures var t := Run(x, s, run); Inv(x, people, t) && GetEvmAddress(t, GetAccountId(t, e)) == Some(e)
    decreases |run|
  {
    if run == [] {
      AddressRoundTripExactlyWhen(s, e);
      assert Padded(e)[..4] == TAG;
      assert IsPadded(Padded(e));
    } else {
      hide Inv, Step;
      StepKeepsInv(x, people, s, run[0]);
      assert forall i :: 0 <= i < |run[1..]| ==> run[1..][i] == run[i + 1];
      MappingOverRuns(x, people, Step(x, s, run[0]), run[1..], e);
    }
  }

  lemma StepKeepsBinding(x: Crypto, people: set<AccountId>, s: State, act: Action, e: EvmAddress)
    requires Inv(x, people, s) && Injective(x, people) && Legal(x, people, act)
    requires e in s.accounts && act != Die(s.accounts[e])
    ensures var t := Step(x, s, act); e in t.accounts && t.accounts[e] == s.accounts[e]
  {
    if act.Claim? {
      if act.outside.paddedExists { PaddedDeathIsHarmless(x, people, s, act.e); }
    } else if act.Die? {
      assert act.who in s.evmAddresses ==> s.evmAddresses[act.who] != e;
    }
  }

  /** A binding lasts until its account dies: nobody else can take the address over. */
  lemma {:induction false} BindingLasts(x: Crypto, people: set<AccountId>, s: State, run: seq<Action>, e: EvmAddress)
    requires Inv(x, people, s) && Injective(x, people) && LegalRun(x, people, run) && e in s.accounts
    requires Die(s.accounts[e]) !in run
    ensures var t := Run(x, s, run); e in t.accounts && t.accounts[e] == s.accounts[e]
    decreases |run|
  {
    hide Inv, Step;
    if run != [] {
      assert run[0] in run;
      StepKeepsInv(x, people, s, run[0]);
      StepKeepsBinding(x, people, s, run[0], e);
      assert forall i :: 0 <= i < |run[1..]| ==> run[1..][i] == run[i + 1];
      BindingLasts(x, people, Step(x, s, run[0]), run[1..], e);
    }
  }
}
