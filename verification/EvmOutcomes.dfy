/** When an address can be claimed, what a claim leaves behind, and why a mapped address belongs to
    its account. */
module EvmOutcomes {
  import opened Wrappers
  import opened EvmMessages
  import opened EvmMapping

  // ----- the text that is signed -----

  function AsciiOf(text: string): seq<int> { seq(|text|, i requires 0 <= i < |text| => text[i] as int) }

  /** The fixed parts of the message, as text. */
  lemma FixedParts()
    ensures HEADER == [0x19] + AsciiOf("Ethereum Signed Message:") + [10]
    ensures PREFIX == AsciiOf("setheum evm:") && TAG == AsciiOf("evm:")
  {}

  predicate IsDecimal(digits: Bytes) {
    && (forall i :: 0 <= i < |digits| ==> 48 <= digits[i] <= 57)
    && (digits != [] ==> digits[0] != 48)
  }

  lemma {:induction false} DecimalIsDecimal(n: nat)
    ensures IsDecimal(Decimal(n)) && (n > 0 ==> Decimal(n) != [])
  {
    if n > 0 {
      DecimalIsDecimal(n / 10);
      var d := Decimal(n / 10);
      assert Decimal(n) == d + [ZERO + n % 10];
      assert d != [] ==> Decimal(n)[0] == d[0];
    }
  }

  /** The message is the Ethereum header, the length of the rest in decimal, the prefix, and then the
      two parts. */
  lemma MessageLayout(what: Bytes, extra: Bytes)
    ensures var rest, digits := PREFIX + what + extra, Decimal(|PREFIX + what + extra|);
            && SignableMessage(what, extra) == HEADER + digits + rest
            && IsDecimal(digits) && digits != [] && ValueOf(digits) == |rest|
  {
    DecimalIsDecimal(|PREFIX + what + extra|);
    DecimalIsInvertible(|PREFIX + what + extra|);
    assert HEADER + Decimal(|PREFIX + what + extra|) + PREFIX + what + extra
           == HEADER + Decimal(|PREFIX + what + extra|) + (PREFIX + what + extra);
  }

  const DIGITS := "0123456789abcdef"

  /** Every byte becomes its two lower-case hexadecimal digits, in order. */
  lemma {:induction false} HexDigits(data: Bytes, i: nat)
    requires i < |data|
    ensures |Hex(data)| == 2 * |data|
    ensures Hex(data)[2 * i] == DIGITS[data[i] / 16] as int && Hex(data)[2 * i + 1] == DIGITS[data[i] % 16] as int
  {
    var n := |data| - 1;
    HexLength(data);
    HexLength(data[..n]);
    if i < n {
      HexDigits(data[..n], i);
    } else {
      NibbleIsDigit(data[n] / 16);
      NibbleIsDigit(data[n] % 16);
    }
  }

  lemma NibbleIsDigit(n: nat)
    requires n < 16
    ensures Nibble(n) == DIGITS[n] as int
  {}

  // ----- claims -----

  /** The signature over the account's claim comes from the key of the address. */
  predicate Signed(x: Crypto, who: AccountId, e: EvmAddress, signature: Bytes) {
    x.recover(signature, SignableMessage(Hex(who), [])) == Some(e)
  }

  /** A claim is accepted exactly when neither the account nor the address is mapped, the address's own
      key has signed for this account, and the padded account, if there is one, could be emptied and the
      hook agrees. It binds the two to each other and disturbs nobody but the padded account. */
  lemma ClaimOutcome(x: Crypto, s: State, who: AccountId, e: EvmAddress, signature: Bytes, o: Outside)
    ensures var r := ClaimAccount(x, s, who, e, signature, o);
            && (r.Ok? <==> && who !in s.evmAddresses && e !in s.accounts && Signed(x, who, e, signature)
                           && (o.paddedExists ==> o.transferred) && o.accepted)
            && (who in s.evmAddresses ==> r == Err(AccountIdHasMapped))
            && (who !in s.evmAddresses && e in s.accounts ==> r == Err(EthAddressHasMapped))
            && (r.Ok? ==>
                  && GetEvmAddress(r.value, who) == Some(e) && GetAccountId(r.value, e) == who
                  && (o.paddedExists && o.paddedDies && who != Padded(e) ==> Padded(e) !in r.value.evmAddresses)
                  && forall a :: a != who && (a == Padded(e) ==> !o.paddedExists || !o.paddedDies) ==>
                       (a in r.value.evmAddresses <==> a in s.evmAddresses)
                       && (a in s.evmAddresses ==> r.value.evmAddresses[a] == s.evmAddresses[a]))
  {
    hide SignableMessage, Hex, Padded;
  }

  /** An address nobody has claimed stands for the account that spells "evm:", the address, and zeros. */
  lemma UnclaimedAddress(s: State, e: EvmAddress)
    requires e !in s.accounts
    ensures var a := GetAccountId(s, e);
            && a[..4] == AsciiOf("evm:") && a[4..24] == e
            && forall i :: 24 <= i < 32 ==> a[i] == 0
  {
    assert Padded(e)[..4] == TAG && Padded(e)[4..24] == e;
  }

  /** Without a mapping a default address is claimed, even if the hook then refuses. */
  lemma DefaultClaimOutcome(x: Crypto, s: State, who: AccountId, accepted: bool)
    ensures var (t, r) := ClaimDefault(x, s, who, accepted);
            && (r.Ok? <==> who !in s.evmAddresses && accepted)
            && (who in s.evmAddresses ==> t == s && r == Err(AccountIdHasMapped))
            && (who !in s.evmAddresses && !IsPadded(who) ==>
                  GetEvmAddress(t, who) == Some(x.defaultAddress(who)) && GetAccountId(t, x.defaultAddress(who)) == who)
            && (forall a :: a != who ==> (a in t.evmAddresses <==> a in s.evmAddresses)
                                         && (a in s.evmAddresses ==> t.evmAddresses[a] == s.evmAddresses[a]))
  {}

  /** Looking an address up finds the one the account has, and otherwise makes the default one. */
  lemma LookUpOutcome(x: Crypto, s: State, a: AccountId)
    ensures var (t, e) := GetOrCreate(x, s, a);
            && GetEvmAddress(t, a) == Some(e)
            && (a in s.evmAddresses ==> t == s && e == s.evmAddresses[a])
            && (a !in s.evmAddresses && IsPadded(a) ==> t == s && e == a[4..24])
            && (a !in s.evmAddresses && !IsPadded(a) ==> e == x.defaultAddress(a) && t == Bind(s, a, e))
  {}

  lemma DeathOutcome(x: Crypto, s: State, a: AccountId)
    requires Mutual(s)
    ensures var t := Kill(x, s, a);
            && a !in t.evmAddresses && x.defaultAddress(a) !in t.accounts
            && (forall e :: e in s.accounts && s.accounts[e] == a ==> e !in t.accounts)
            && (forall b :: b != a ==> (b in t.evmAddresses <==> b in s.evmAddresses)
                                       && (b in s.evmAddresses ==> t.evmAddresses[b] == s.evmAddresses[b]))
            && (forall e :: e in s.accounts && s.accounts[e] != a && e != x.defaultAddress(a) ==>
                  e in t.accounts && t.accounts[e] == s.accounts[e])
  {}

  // ----- over runs -----

  /** Somewhere in the run `who` claimed `e` with a signature of the key of `e`. */
  ghost predicate Claimed(x: Crypto, run: seq<Action>, who: AccountId, e: EvmAddress) {
    exists i :: 0 <= i < |run| && run[i].Claim? && run[i].who == who && run[i].e == e && Signed(x, who, e, run[i].signature)
  }

  lemma StepMapsOwned(x: Crypto, s: State, act: Action, who: AccountId)
    requires who in Step(x, s, act).evmAddresses
    ensures var e := Step(x, s, act).evmAddresses[who];
            || (who in s.evmAddresses && s.evmAddresses[who] == e)
            || e == x.defaultAddress(who)
            || (act.Claim? && act.who == who && act.e == e && Signed(x, who, e, act.signature))
  {
    hide SignableMessage, Hex, Padded;
  }

  /** Whatever happens on a chain that starts without mappings, the address of an account is its default
      one, or one whose key has signed for this account. */
  lemma {:induction false} MappedIsOwned(x: Crypto, s: State, run: seq<Action>, who: AccountId)
    requires who in Run(x, s, run).evmAddresses
    ensures var e := Run(x, s, run).evmAddresses[who];
            || (who in s.evmAddresses && s.evmAddresses[who] == e)
            || e == x.defaultAddress(who)
            || Claimed(x, run, who, e)
    decreases |run|
  {
    hide Step, Signed;
    if run != [] {
      var t, rest := Step(x, s, run[0]), run[1..];
      MappedIsOwned(x, t, rest, who);
      var e := Run(x, s, run).evmAddresses[who];
      if Claimed(x, rest, who, e) {
        var i :| 0 <= i < |rest| && rest[i].Claim? && rest[i].who == who && rest[i].e == e && Signed(x, who, e, rest[i].signature);
        assert run[i + 1] == rest[i];
      } else if who in t.evmAddresses && t.evmAddresses[who] == e {
        StepMapsOwned(x, s, run[0], who);
      }
    }
  }
}
