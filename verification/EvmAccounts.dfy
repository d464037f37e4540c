/** The account mapping as the runtime executes it: two storage maps updated in place. */
module EvmAccounts {
  import opened Wrappers
  import opened EvmMessages
  import opened EvmMapping

  class Registry {
    var accounts: map<EvmAddress, AccountId>
    var evmAddresses: map<AccountId, EvmAddress>
    const crypto: Crypto

    function Storage(): State
      reads this
    {
      State(accounts, evmAddresses)
    }

    constructor (crypto: Crypto)
      ensures this.crypto == crypto && Storage() == State(map[], map[])
    {
      this.crypto, accounts, evmAddresses := crypto, map[], map[];
    }

    method GetOrCreateEvmAddress(a: AccountId) returns (e: EvmAddress)
      modifies this
      ensures var (t, address) := GetOrCreate(crypto, old(Storage()), a); Storage() == t && e == address
    {
      var known := GetEvmAddress(Storage(), a);
      if known.Some? { return known.value; }
      e := crypto.defaultAddress(a);
      accounts := accounts[e := a];
      evmAddresses := evmAddresses[a := e];
    }

    method OnKilledAccount(a: AccountId)
      modifies this
      ensures Storage() == Kill(crypto, old(Storage()), a)
    {
      accounts := accounts - {crypto.defaultAddress(a)};
      if a in evmAddresses {
        accounts := accounts - {evmAddresses[a]};
        evmAddresses := evmAddresses - {a};
      }
    }

    /** Undone when the transfer or the hook fails. */
    method Claim(who: AccountId, e: EvmAddress, signature: Bytes, o: Outside) returns (r: Result<(), Error>)
      modifies this
      ensures match ClaimAccount(crypto, old(Storage()), who, e, signature, o)
              case Err(x) => r == Err(x) && Storage() == old(Storage())
              case Ok(t) => r == Ok(()) && Storage() == t
    {
      if who in evmAddresses { return Err(AccountIdHasMapped); }
      if e in accounts { return Err(EthAddressHasMapped); }
      var hex := ToAsciiHex(who);
      var message := EthereumSignableMessage(hex, []);
      var address := crypto.recover(signature, message);
      if address.None? { return Err(BadSignature); }
      if e != address.value { return Err(InvalidSignature); }
      var before, reverse := accounts, evmAddresses;
      if o.paddedExists {
        if !o.transferred { return Err(TransferFailed); }
        if o.paddedDies { OnKilledAccount(Padded(e)); }
      }
      accounts := accounts[e := who];
      evmAddresses := evmAddresses[who := e];
      if !o.accepted {
        accounts, evmAddresses := before, reverse;
        return Err(HandlerFailed);
      }
      r := Ok(());
    }

    method ClaimDefaultAccount(who: AccountId, accepted: bool) returns (r: Result<(), Error>)
      modifies this
      ensures var (t, outcome) := ClaimDefault(crypto, old(Storage()), who, accepted); Storage() == t && r == outcome
    {
      if who in evmAddresses { return Err(AccountIdHasMapped); }
      var _ := GetOrCreateEvmAddress(who);
      if !accepted { return Err(HandlerFailed); }
      r := Ok(());
    }
  }
}
