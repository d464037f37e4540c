/** Fixed-width unsigned arithmetic, as the runtime's `u128` and `U256` provide it, and the
    handful of facts about multiplication and floor division that the other modules use. */
module Numbers {
  const U128_MAX: nat := 0xffff_ffff_ffff_ffff_ffff_ffff_ffff_ffff
  const U256_MAX: nat :=
    0xffff_ffff_ffff_ffff_ffff_ffff_ffff_ffff_ffff_ffff_ffff_ffff_ffff_ffff_ffff_ffff

  /** A `u128` amount of some currency. */
  type Balance = x: nat | x <= U128_MAX

  function Min(a: int, b: int): int { if a <= b then a else b }

  function Max(a: int, b: int): int { if a >= b then a else b }

  function SatSub(a: nat, b: nat): nat { if a >= b then a - b else 0 }

  function SatAdd(a: Balance, b: Balance): Balance {
    if a + b <= U128_MAX then a + b else U128_MAX
  }

  function Sat256(a: nat): nat { if a <= U256_MAX then a else U256_MAX }

  function Saturate(a: nat): Balance { if a <= U128_MAX then a else U128_MAX }

  // ----- products -----

  lemma MulLe(a: int, b: int, c: nat)
    requires a <= b
    ensures a * c <= b * c && c * a <= c * b
  {}

  lemma MulLt(a: int, b: int, c: nat)
    requires a < b && c > 0
    ensures a * c < b * c
  {}

  lemma MulCancelLe(a: int, b: int, c: nat)
    requires c > 0 && a * c <= b * c
    ensures a <= b
  {
    if a > b { MulLt(b, a, c); }
  }

  lemma MulCancelLt(a: int, b: int, c: nat)
    requires a * c < b * c
    ensures a < b
  {
    if a >= b { MulLe(b, a, c); }
  }

  // ----- floor division -----

  /** `q == a / b` exactly when `q * b` is the largest multiple of `b` not above `a`. */
  lemma Quotient(a: nat, b: nat)
    requires b > 0
    ensures (a / b) * b <= a < (a / b + 1) * b
  {
    assert a == b * (a / b) + a % b;
  }

  lemma QuotientAtLeast(a: nat, b: nat, q: nat)
    requires b > 0 && q * b <= a
    ensures q <= a / b
  {
    Quotient(a, b);
    MulCancelLt(q, a / b + 1, b);
  }

  lemma QuotientAtMost(a: nat, b: nat, q: nat)
    requires b > 0 && a < (q + 1) * b
    ensures a / b <= q
  {
    Quotient(a, b);
    MulCancelLt(a / b, q + 1, b);
  }

  lemma QuotientMonotone(a: nat, b: nat, d: nat)
    requires d > 0 && a <= b
    ensures a / d <= b / d
  {
    var q := a / d;
    assert q * d <= a by { Quotient(a, d); }
    QuotientAtLeast(b, d, q);
  }

  /** Comparing two quotients by cross-multiplication. */
  lemma QuotientCross(a: nat, b: nat, c: nat, d: nat)
    requires b > 0 && d > 0 && a * d <= c * b
    ensures a / b <= c / d
  {
    var q := a / b;
    Quotient(a, b);
    assert (q * d) * b <= c * b by {
      MulLe(q * b, a, d);
      assert (q * b) * d == (q * d) * b;
    }
    MulCancelLe(q * d, c, b);
    QuotientAtLeast(c, d, q);
  }
}
