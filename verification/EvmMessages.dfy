/** The text that an Ethereum key signs to claim an account, and the hexadecimal form of the
    account in it. */
module EvmMessages {
  type Byte = n: nat | n < 256

  type Bytes = seq<Byte>

  // "\x19Ethereum Signed Message:\n"
  const HEADER: Bytes := [0x19, 69, 116, 104, 101, 114, 101, 117, 109, 32, 83, 105, 103, 110, 101, 100, 32,
                          77, 101, 115, 115, 97, 103, 101, 58, 10]

  // "setheum evm:"
  const PREFIX: Bytes := [115, 101, 116, 104, 101, 117, 109, 32, 101, 118, 109, 58]

  const ZERO: Byte := 48
  const SMALL_A: Byte := 97

  // ----- decimal lengths -----

  /** The decimal digits of a number, most significant first; nothing for zero. */
  function Decimal(n: nat): Bytes {
    if n == 0 then [] else Decimal(n / 10) + [ZERO + n % 10]
  }

  function ValueOf(digits: Bytes): int {
    if digits == [] then 0 else 10 * ValueOf(digits[..|digits| - 1]) + (digits[|digits| - 1] - ZERO)
  }

  /** Decimal notation can be read back. */
  lemma {:induction false} DecimalIsInvertible(n: nat)
    ensures ValueOf(Decimal(n)) == n
  {
    if n > 0 {
      DecimalIsInvertible(n / 10);
      assert Decimal(n)[..|Decimal(n)| - 1] == Decimal(n / 10);
    }
  }

  lemma {:induction false} DecimalLengthMonotone(m: nat, n: nat)
    requires m <= n
    ensures |Decimal(m)| <= |Decimal(n)|
    decreases n
  {
    if n > 0 { DecimalLengthMonotone(m / 10, n / 10); }
  }

  // ----- the message -----

  function SignableMessage(what: Bytes, extra: Bytes): Bytes {
    HEADER + Decimal(|PREFIX| + |what| + |extra|) + PREFIX + what + extra
  }

  function Reversed(s: Bytes): Bytes {
    if s == [] then [] else [s[|s| - 1]] + Reversed(s[..|s| - 1])
  }

  /** Builds the message: the digits of the length come out in reverse first. */
  method EthereumSignableMessage(what: Bytes, extra: Bytes) returns (v: Bytes)
    ensures v == SignableMessage(what, extra)
  {
    var l: nat := |PREFIX| + |what| + |extra|;
    var rev: Bytes := [];
    while l > 0
      invariant Decimal(|PREFIX| + |what| + |extra|) == Decimal(l) + Reversed(rev)
    {
      var digit: Byte := ZERO + l % 10;
      assert (rev + [digit])[..|rev|] == rev;
      assert Decimal(l) + Reversed(rev) == Decimal(l / 10) + ([digit] + Reversed(rev));
      rev := rev + [digit];
      l := l / 10;
    }
    v := HEADER + Reversed(rev);
    v := v + PREFIX;
    v := v + what;
    v := v + extra;
  }

  /** The message determines what is signed, and only the two parts put together matter. */
  lemma MessageDeterminesContent(what: Bytes, extra: Bytes, what': Bytes, extra': Bytes)
    ensures SignableMessage(what, extra) == SignableMessage(what', extra') <==> what + extra == what' + extra'
  {
    var m, n := |PREFIX| + |what| + |extra|, |PREFIX| + |what'| + |extra'|;
    var v, w := SignableMessage(what, extra), SignableMessage(what', extra');
    assert v == HEADER + Decimal(m) + PREFIX + (what + extra);
    assert w == HEADER + Decimal(n) + PREFIX + (what' + extra');
    assert |what + extra| == m - |PREFIX| && |what' + extra'| == n - |PREFIX|;
    if v == w {
      if m < n { DecimalLengthMonotone(m, n); } else { DecimalLengthMonotone(n, m); }
      assert m == n;
      var from := |HEADER| + |Decimal(m)| + |PREFIX|;
      assert v[from..] == what + extra;
      assert w[from..] == what' + extra';
    }
  }

  // ----- hexadecimal -----

  function Nibble(n: nat): Byte
    requires n < 16
  {
    if n < 10 then ZERO + n else SMALL_A - 10 + n
  }

  function Hex(data: Bytes): Bytes {
    if data == [] then [] else Hex(data[..|data| - 1]) + [Nibble(data[|data| - 1] / 16), Nibble(data[|data| - 1] % 16)]
  }

  method ToAsciiHex(data: Bytes) returns (r: Bytes)
    ensures r == Hex(data)
  {
    r := [];
    var i := 0;
    while i < |data|
      invariant 0 <= i <= |data|
      invariant r == Hex(data[..i])
    {
      assert data[..i + 1][..i] == data[..i];
      var hi, lo := Nibble(data[i] / 16), Nibble(data[i] % 16);
      r := r + [hi];
      r := r + [lo];
      i := i + 1;
    }
    assert data[..i] == data;
  }

  function Digit(c: Byte): int { if c < SMALL_A then c - ZERO else c - SMALL_A + 10 }

  /** Hexadecimal notation is twice as long and can be told apart. */
  lemma {:induction false} HexIsInjective(a: Bytes, b: Bytes)
    ensures |Hex(a)| == 2 * |a|
    ensures Hex(a) == Hex(b) <==> a == b
    decreases |a| + |b|
  {
    HexLength(a);
    HexLength(b);
    if Hex(a) == Hex(b) && a != [] {
      var i, j := |a| - 1, |b| - 1;
      assert Hex(a)[..2 * i] == Hex(a[..i]) by { HexLength(a[..i]); }
      assert Hex(b)[..2 * j] == Hex(b[..j]) by { HexLength(b[..j]); }
      HexIsInjective(a[..i], b[..j]);
      NibbleIsInvertible(a[i] / 16);
      NibbleIsInvertible(a[i] % 16);
      NibbleIsInvertible(b[j] / 16);
      NibbleIsInvertible(b[j] % 16);
      HexLength(a[..i]);
      HexLength(b[..j]);
      assert Hex(a)[2 * i] == Nibble(a[i] / 16) && Hex(a)[2 * i + 1] == Nibble(a[i] % 16);
      assert Hex(b)[2 * j] == Nibble(b[j] / 16) && Hex(b)[2 * j + 1] == Nibble(b[j] % 16);
      assert a == a[..i] + [a[i]] && b == b[..j] + [b[j]];
    }
  }

  lemma {:induction false} HexLength(a: Bytes)
    ensures |Hex(a)| == 2 * |a|
  {
    if a != [] { HexLength(a[..|a| - 1]); }
  }

  lemma NibbleIsInvertible(n: nat)
    requires n < 16
    ensures Digit(Nibble(n)) == n
  {}

  /** The claims of two different accounts are signed as different messages. */
  lemma ClaimMessagesDiffer(a: Bytes, b: Bytes)
    requires a != b
    ensures SignableMessage(Hex(a), []) != SignableMessage(Hex(b), [])
  {
    MessageDeterminesContent(Hex(a), [], Hex(b), []);
    HexIsInjective(a, b);
    assert Hex(a) + [] == Hex(a) && Hex(b) + [] == Hex(b);
  }
}
