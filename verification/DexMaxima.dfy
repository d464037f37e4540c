/** How much of the offered maxima a provider really pays: the second branch keeps to them, the
    first does so under an exact condition, and when the offered price cannot be represented it does
    not. */
module DexMaxima {
  import opened Numbers
  import opened Wrappers
  import opened FixedPoint
  import opened Currencies
  import opened Ledgers
  import opened Dex

  /** In the second branch the maximum for the second currency is respected. */
  lemma SecondBranchRespectsMaximum(pool: Amounts, total: Balance, max: Amounts)
    requires total > 0 && !FirstIsAbundant(pool, max)
    ensures var inc := LiquidityIncrement(pool, total, max);
            inc.amounts.fst == max.fst && inc.amounts.snd <= max.snd
  {
    var offered, price := RatioOrZero(max.snd, max.fst), RatioOrZero(pool.snd, pool.fst);
    Quotient(max.snd * ONE, max.fst);
    MulLe(price, offered, max.fst);
    QuotientAtMost(price * max.fst, ONE, max.snd);
  }

  /** In the first branch the maximum for the first currency is respected exactly when the offered
      second amount, at the pool's rounded price, is worth less than one unit more. */
  lemma FirstBranchRespectsMaximumExactlyWhen(pool: Amounts, total: Balance, max: Amounts)
    requires total > 0 && FirstIsAbundant(pool, max)
    ensures var inc := LiquidityIncrement(pool, total, max).amounts;
            && inc.snd == max.snd
            && (inc.fst <= max.fst
                <==> max.fst == U128_MAX || RatioOrZero(pool.fst, pool.snd) * max.snd < (max.fst + 1) * ONE)
  {
    hide RatioOrZero, SharesFor;
    FloorAtMost(RatioOrZero(pool.fst, pool.snd) * max.snd, ONE, max.fst);
  }

  lemma FloorAtMost(n: nat, d: nat, q: nat)
    requires d > 0
    ensures n / d <= q <==> n < (q + 1) * d
  {
    if n < (q + 1) * d { QuotientAtMost(n, d, q); } else { QuotientAtLeast(n, d, q + 1); }
  }

  /** So it is whenever the offered price exists as a 128-bit number and one unit of its last digit
      is worth at most one unit. */
  lemma FirstBranchRespectsMaximum(pool: Amounts, total: Balance, max: Amounts)
    requires total > 0 && FirstIsAbundant(pool, max)
    requires CheckedFromRational(max.snd, max.fst).Some?
    requires max.fst * pool.fst <= ONE * pool.snd
    ensures var inc := LiquidityIncrement(pool, total, max);
            inc.amounts.fst <= max.fst && inc.amounts.snd == max.snd
  {
    var x := LiquidityIncrement(pool, total, max).amounts.fst;
    var offered, price := RatioOrZero(max.snd, max.fst), RatioOrZero(pool.snd, pool.fst);
    if pool.snd > 0 && pool.fst > 0 {
      ScaledByRatio(pool.fst, pool.snd, max.snd);
      Quotient(max.snd * ONE, max.fst);
      assert offered * pool.fst <= pool.snd * ONE by {
        Quotient(pool.snd * ONE, pool.fst);
        MulLe(offered, pool.snd * ONE / pool.fst, pool.fst);
      }
      OfferedPrice(max.snd, max.fst, pool.fst, pool.snd, offered, ONE);
      MulCancelLt(x, max.fst + 1, pool.snd);
    }
  }

  lemma OfferedPrice(m1: nat, m0: nat, p0: nat, p1: nat, offered: nat, one: nat)
    requires one > 0 && p0 > 0
    requires m1 * one < (offered + 1) * m0 && offered * p0 <= p1 * one && m0 * p0 <= one * p1
    ensures m1 * p0 < (m0 + 1) * p1
  {
    var k := offered + 1;
    MulLt(m1 * one, k * m0, p0);
    MulLe(offered * p0, p1 * one, m0);
    assert (k * m0) * p0 == (offered * p0) * m0 + m0 * p0;
    assert (m1 * p0) * one == (m1 * one) * p0;
    assert ((m0 + 1) * p1) * one == (p1 * one) * m0 + one * p1;
    MulCancelLt(m1 * p0, (m0 + 1) * p1, one);
  }

  // ----- accepted calls that take more than offered -----

  /** The amounts a caller offers, and what the call adds, in the order of the pair. */
  function Offered(a: CurrencyId, b: CurrencyId, maxA: Balance, maxB: Balance): Amounts {
    InPairOrder(NewPair(a, b), a, maxA, maxB)
  }

  function Added(s: State, a: CurrencyId, b: CurrencyId, maxA: Balance, maxB: Balance): Increment
    requires ShareCurrency(NewPair(a, b)).Some?
  {
    var p := NewPair(a, b);
    LiquidityIncrement(PoolOf(s.pools, p), Issuance(s.ledger, ShareCurrency(p).value), Offered(a, b, maxA, maxB))
  }

  /** An accepted call on a pair with shares. */
  predicate Joins(s: State, who: AccountId, a: CurrencyId, b: CurrencyId, maxA: Balance, maxB: Balance, min: Balance) {
    && AddLiquidity(s, who, a, b, maxA, maxB, min).Ok?
    && Issuance(s.ledger, ShareCurrency(NewPair(a, b)).value) > 0
  }

  lemma JoinsWithSomething(s: State, who: AccountId, a: CurrencyId, b: CurrencyId, maxA: Balance, maxB: Balance,
                           min: Balance)
    requires Joins(s, who, a, b, maxA, maxB, min)
    requires FirstIsAbundant(PoolOf(s.pools, NewPair(a, b)), Offered(a, b, maxA, maxB))
    ensures var pool, max := PoolOf(s.pools, NewPair(a, b)), Offered(a, b, maxA, maxB);
            var r := RatioOrZero(pool.fst, pool.snd);
            max.snd > 0 && r > 0 && r * max.snd >= ONE
  {
    var pool, max := PoolOf(s.pools, NewPair(a, b)), Offered(a, b, maxA, maxB);
    var r := RatioOrZero(pool.fst, pool.snd);
    hide Transfer, Deposit, SharesFor;
    assert Added(s, a, b, maxA, maxB).amounts.fst != 0;
    assert SaturatingMulInt(r, max.snd) != 0;
  }

  lemma MissingPriceIsSmall(m0: Balance, m1: Balance)
    requires CheckedFromRational(m1, m0).None? && m1 > 0
    ensures m0 == 0 || m1 >= (m0 + 1) * ONE
  {
    if m0 > 0 && m1 < (m0 + 1) * ONE {
      assert m1 * ONE < (2 * ONE * ONE) * m0 by {
        MulLe(m0 + 1, 2 * m0, ONE);
        MulLt(m1, 2 * m0 * ONE, ONE);
        assert (2 * m0 * ONE) * ONE == (2 * ONE * ONE) * m0;
      }
      MulLe(2 * ONE * ONE, U128_MAX, m0);
      QuotientAtMost(m1 * ONE, m0, U128_MAX);
    }
  }

  /** When the offered price is not a 128-bit number it counts as zero: the first branch applies, and
      every accepted call takes more of the first currency than was offered. */
  lemma MissingPriceExceedsMaximum(s: State, who: AccountId, a: CurrencyId, b: CurrencyId, maxA: Balance,
                                   maxB: Balance, min: Balance)
    requires Joins(s, who, a, b, maxA, maxB, min)
    requires CheckedFromRational(Offered(a, b, maxA, maxB).snd, Offered(a, b, maxA, maxB).fst).None?
    ensures Added(s, a, b, maxA, maxB).amounts.fst > Offered(a, b, maxA, maxB).fst
  {
    var p, max := NewPair(a, b), Offered(a, b, maxA, maxB);
    var pool, total := PoolOf(s.pools, p), Issuance(s.ledger, ShareCurrency(p).value);
    var r := RatioOrZero(pool.fst, pool.snd);
    JoinsWithSomething(s, who, a, b, maxA, maxB, min);
    MissingPriceIsSmall(max.fst, max.snd);
    FirstBranchRespectsMaximumExactlyWhen(pool, total, max);
    if max.fst > 0 {
      MulLe(1, r, max.snd);
      MaximumIsNotAll(max.fst, max.snd);
    }
  }

  lemma MaximumIsNotAll(m0: Balance, m1: Balance)
    requires m1 >= (m0 + 1) * ONE
    ensures m0 < U128_MAX
  {}

  /** In particular when none of the first currency was offered. */
  lemma ZeroMaximumIsExceeded(s: State, who: AccountId, a: CurrencyId, b: CurrencyId, maxA: Balance, maxB: Balance,
                              min: Balance)
    requires Joins(s, who, a, b, maxA, maxB, min) && Offered(a, b, maxA, maxB).fst == 0
    ensures Added(s, a, b, maxA, maxB).amounts.fst > 0
  {
    MissingPriceExceedsMaximum(s, who, a, b, maxA, maxB, min);
  }

  /** When the offered price rounds to zero the first branch applies as well, and an accepted call
      takes more than was offered exactly when the pool's rounded price makes it so. */
  lemma UnderflowingPriceExceedsMaximum(s: State, who: AccountId, a: CurrencyId, b: CurrencyId, maxA: Balance,
                                        maxB: Balance, min: Balance)
    requires Joins(s, who, a, b, maxA, maxB, min)
    requires var max := Offered(a, b, maxA, maxB); max.snd * ONE < max.fst < U128_MAX
    ensures var max, pool := Offered(a, b, maxA, maxB), PoolOf(s.pools, NewPair(a, b));
            && (Added(s, a, b, maxA, maxB).amounts.fst > max.fst
                <==> RatioOrZero(pool.fst, pool.snd) * max.snd >= (max.fst + 1) * ONE)
            && (CheckedFromRational(pool.fst, pool.snd).Some?
                && max.snd * (pool.fst * ONE) >= ((max.fst + 1) * ONE + max.snd) * pool.snd ==>
                  Added(s, a, b, maxA, maxB).amounts.fst > max.fst)
  {
    var p, max := NewPair(a, b), Offered(a, b, maxA, maxB);
    var pool, total := PoolOf(s.pools, p), Issuance(s.ledger, ShareCurrency(p).value);
    QuotientAtMost(max.snd * ONE, max.fst, 0);
    assert RatioOrZero(max.snd, max.fst) == 0;
    FirstBranchRespectsMaximumExactlyWhen(pool, total, max);
    if CheckedFromRational(pool.fst, pool.snd).Some?
       && max.snd * (pool.fst * ONE) >= ((max.fst + 1) * ONE + max.snd) * pool.snd {
      RoundedPriceStillExceeds(pool.fst * ONE, pool.snd, max.snd, (max.fst + 1) * ONE);
    }
  }

  lemma RoundedPriceStillExceeds(n: nat, d: nat, m: nat, bound: nat)
    requires d > 0 && m * n >= (bound + m) * d
    ensures (n / d) * m >= bound
  {
    var q := n / d;
    Quotient(n, d);
    assert m * n <= m * ((q + 1) * d) by { MulLe(n, (q + 1) * d, m); }
    assert m * ((q + 1) * d) == (q * m + m) * d;
    MulCancelLe(bound + m, q * m + m, d);
  }
}
