/** `FixedU128`: an unsigned number kept as an integer scaled by 10^18. The library itself is
    not part of the repository; conversions and products round down. */
module FixedPoint {
  import opened Numbers
  import opened Wrappers

  const ONE: nat := 1_000_000_000_000_000_000

  /** `checked_from_rational`: nothing for a zero denominator or when the quotient needs more
      than 128 bits. */
  function CheckedFromRational(n: Balance, d: Balance): Option<Balance> {
    if d == 0 then None
    else if n * ONE / d > U128_MAX then None
    else Some(n * ONE / d)
  }

  /** `checked_from_rational(..).unwrap_or_default()` */
  function RatioOrZero(n: Balance, d: Balance): Balance {
    CheckedFromRational(n, d).GetOr(0)
  }

  function CheckedMulInt(r: Balance, n: Balance): Option<Balance> {
    if r * n / ONE > U128_MAX then None else Some(r * n / ONE)
  }

  function SaturatingMulInt(r: Balance, n: Balance): Balance { Saturate(r * n / ONE) }

  function SaturatingMul(a: Balance, b: Balance): Balance { Saturate(a * b / ONE) }

  /** Scaling `n` by a rounded-down ratio `a / b` never gives more than the exact `n * a / b`. */
  lemma ScaledByRatio(a: Balance, b: Balance, n: Balance)
    ensures SaturatingMulInt(RatioOrZero(a, b), n) * b <= n * a
  {
    var r := RatioOrZero(a, b);
    if b > 0 {
      assert r * b <= a * ONE by { Quotient(a * ONE, b); }
      ScaledDown(a, b, n, r, ONE);
      MulLe(SaturatingMulInt(r, n), r * n / ONE, b);
    }
  }

  lemma ScaledDown(a: nat, b: nat, n: nat, r: nat, one: nat)
    requires one > 0 && r * b <= a * one
    ensures (r * n / one) * b <= n * a
  {
    var m := r * n / one;
    Quotient(r * n, one);
    MulLe(m * one, r * n, b);
    MulLe(r * b, a * one, n);
    assert (m * b) * one == (m * one) * b && (r * n) * b == (r * b) * n && (a * one) * n == (n * a) * one;
    MulCancelLe(m * b, n * a, one);
  }

  /** Nor much less: what is lost is less than one unit and one unit of the ratio's last digit. */
  lemma ScaledByRatioAtLeast(a: Balance, b: Balance, n: Balance)
    requires CheckedFromRational(a, b).Some? && RatioOrZero(a, b) * n / ONE <= U128_MAX
    ensures n * a * ONE < (SaturatingMulInt(RatioOrZero(a, b), n) + 1) * b * ONE + n * b
  {
    var r := RatioOrZero(a, b);
    Quotient(a * ONE, b);
    Quotient(r * n, ONE);
    ScaledUp(a, b, n, r, r * n / ONE, ONE);
  }

  lemma ScaledUp(a: nat, b: nat, n: nat, r: nat, m: nat, one: nat)
    requires b > 0 && a * one < (r + 1) * b && r * n < (m + 1) * one
    ensures n * a * one < (m + 1) * b * one + n * b
  {
    assert n * a * one <= (r + 1) * b * n by { MulLe(a * one, (r + 1) * b, n); assert (a * one) * n == n * a * one; }
    assert (r + 1) * b * n == (r * n) * b + n * b;
    MulLt(r * n, (m + 1) * one, b);
    assert ((m + 1) * one) * b == (m + 1) * b * one;
  }
}
