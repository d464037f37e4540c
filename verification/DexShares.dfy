/** What a liquidity share is worth: rounding in the 18-digit fixed point always favours the
    pool, so no operation lowers the reserves behind a share. */
module DexShares {
  import opened Numbers
  import opened Wrappers
  import opened FixedPoint
  import opened Dex

  /** Each reserve per share is at least what it was: `after.i / t' >= before.i / t`. */
  ghost predicate PerShareKept(before: Amounts, t: nat, after: Amounts, t': nat) {
    before.fst * t' <= after.fst * t && before.snd * t' <= after.snd * t
  }

  /** `before.fst * before.snd / t^2` did not fall. */
  ghost predicate ValueKept(before: Amounts, t: nat, after: Amounts, t': nat) {
    Product(before) * (t' * t') <= Product(after) * (t * t)
  }

  lemma ProductLe(a: nat, b: nat, c: nat, d: nat)
    requires a <= b && c <= d
    ensures a * c <= b * d
  {
    MulLe(a, b, c);
    MulLe(c, d, b);
  }

  lemma PerShareKeepsValue(before: Amounts, t: nat, after: Amounts, t': nat)
    requires PerShareKept(before, t, after, t')
    ensures ValueKept(before, t, after, t')
  {
    ProductLe(before.fst * t', after.fst * t, before.snd * t', after.snd * t);
    assert (before.fst * t') * (before.snd * t') == Product(before) * (t' * t');
    assert (after.fst * t) * (after.snd * t) == Product(after) * (t * t);
  }

  lemma ValueKeptTransitive(a: Amounts, t: nat, b: Amounts, u: nat, c: Amounts, v: nat)
    requires u > 0 && ValueKept(a, t, b, u) && ValueKept(b, u, c, v)
    ensures ValueKept(a, t, c, v)
  {
    ScaledTransitive(Product(a), t * t, Product(b), u * u, Product(c), v * v);
  }

  lemma ScaledTransitive(a: nat, t: nat, b: nat, u: nat, c: nat, v: nat)
    requires u > 0 && a * u <= b * t && b * v <= c * u
    ensures a * v <= c * t
  {
    assert (a * v) * u <= (c * t) * u by {
      MulLe(a * u, b * t, v);
      MulLe(b * v, c * u, t);
      assert (a * v) * u == (a * u) * v;
      assert (b * t) * v == (b * v) * t;
      assert (c * u) * t == (c * t) * u;
    }
    MulCancelLe(a * v, c * t, u);
  }

  // ----- adding -----

  lemma SharesForBound(amount: Balance, reserve: Balance, total: Balance)
    ensures SharesFor(amount, reserve, total) * reserve <= total * amount
  {
    ScaledByRatio(amount, reserve, total);
    MulLe(SharesFor(amount, reserve, total), SaturatingMulInt(RatioOrZero(amount, reserve), total), reserve);
  }

  lemma Chain(shares: nat, p: nat, q: nat, x: nat, y: nat, t: nat)
    requires p > 0 && shares * p <= t * x && x * q <= y * p
    ensures shares * q <= y * t
  {
    assert (shares * q) * p <= (y * t) * p by {
      MulLe(shares * p, t * x, q);
      MulLe(x * q, y * p, t);
      assert (shares * q) * p == (shares * p) * q;
      assert (t * x) * q == (x * q) * t;
      assert (y * p) * t == (y * t) * p;
    }
    MulCancelLe(shares * q, y * t, p);
  }

  /** One branch: `x` is the offered `y` at the pool price, and the shares are in proportion to `x`. */
  lemma BranchIsBacked(x: Balance, y: Balance, reserveX: Balance, reserveY: Balance, total: Balance)
    requires x == SaturatingMulInt(RatioOrZero(reserveX, reserveY), y)
    ensures var shares := SharesFor(x, reserveX, total);
            shares * reserveX <= x * total && shares * reserveY <= y * total
  {
    SharesForBound(x, reserveX, total);
    ScaledByRatio(reserveX, reserveY, y);
    if reserveX > 0 { Chain(SharesFor(x, reserveX, total), reserveX, reserveY, x, y, total); }
  }

  /** The shares issued are backed by at least their proportion of each reserve. */
  lemma SharesAreBacked(pool: Amounts, total: Balance, max: Amounts)
    requires total > 0
    ensures var inc := LiquidityIncrement(pool, total, max);
            inc.shares * pool.fst <= inc.amounts.fst * total && inc.shares * pool.snd <= inc.amounts.snd * total
  {
    var inc := LiquidityIncrement(pool, total, max);
    if FirstIsAbundant(pool, max) {
      BranchIsBacked(inc.amounts.fst, max.snd, pool.fst, pool.snd, total);
    } else {
      BranchIsBacked(inc.amounts.snd, max.fst, pool.snd, pool.fst, total);
    }
  }

  lemma Grow(p: nat, a: nat, t: nat, s: nat)
    requires s * p <= a * t
    ensures p * (t + s) <= (p + a) * t
  {}

  lemma Shrink(p: nat, d: nat, t: nat, s: nat)
    requires d <= p && s <= t && d * t <= p * s
    ensures p * (t - s) <= (p - d) * t
  {}

  lemma AddingKeepsPerShare(pool: Amounts, total: Balance, max: Amounts, after: Amounts)
    requires total > 0
    requires var inc := LiquidityIncrement(pool, total, max).amounts;
             after.fst == pool.fst + inc.fst && after.snd == pool.snd + inc.snd
    ensures PerShareKept(pool, total, after, total + LiquidityIncrement(pool, total, max).shares)
  {
    var inc := LiquidityIncrement(pool, total, max);
    SharesAreBacked(pool, total, max);
    Grow(pool.fst, inc.amounts.fst, total, inc.shares);
    Grow(pool.snd, inc.amounts.snd, total, inc.shares);
  }

  // ----- removing -----

  lemma RedeemedBound(pool: Amounts, total: Balance, shares: Balance)
    requires 0 < shares <= total
    ensures var out := Redeemed(pool, total, shares);
            && out.fst * total <= pool.fst * shares && out.snd * total <= pool.snd * shares
            && out.fst <= pool.fst && out.snd <= pool.snd
  {
    var out := Redeemed(pool, total, shares);
    ScaledByRatio(shares, total, pool.fst);
    ScaledByRatio(shares, total, pool.snd);
    MulLe(shares, total, pool.fst);
    MulLe(shares, total, pool.snd);
    MulCancelLe(out.fst, pool.fst, total);
    MulCancelLe(out.snd, pool.snd, total);
  }

  lemma RemovingKeepsPerShare(pool: Amounts, total: Balance, shares: Balance, after: Amounts)
    requires 0 < shares <= total
    requires var out := Redeemed(pool, total, shares);
             after.fst == pool.fst - out.fst && after.snd == pool.snd - out.snd
    ensures PerShareKept(pool, total, after, total - shares)
  {
    var out := Redeemed(pool, total, shares);
    RedeemedBound(pool, total, shares);
    Shrink(pool.fst, out.fst, total, shares);
    Shrink(pool.snd, out.snd, total, shares);
  }

  // ----- adding and removing again -----

  lemma ShareOfSum(out: nat, shares: nat, t: nat, p: nat, a: nat)
    requires t + shares > 0 && out * (t + shares) <= (p + a) * shares && shares * p <= a * t
    ensures out <= a
  {
    assert (p + a) * shares == shares * p + a * shares;
    assert a * (t + shares) == a * t + a * shares;
    MulCancelLe(out, a, t + shares);
  }

  /** While shares are outstanding, adding liquidity and redeeming the shares at once returns no
      more than was put in, on either side. */
  lemma AddThenRemoveGainsNothing(pool: Amounts, total: Balance, max: Amounts, mid: Amounts, newTotal: Balance)
    requires total > 0
    requires var inc := LiquidityIncrement(pool, total, max);
             && inc.shares > 0 && newTotal == total + inc.shares
             && mid.fst == pool.fst + inc.amounts.fst && mid.snd == pool.snd + inc.amounts.snd
    ensures var inc := LiquidityIncrement(pool, total, max);
            var out := Redeemed(mid, newTotal, inc.shares);
            out.fst <= inc.amounts.fst && out.snd <= inc.amounts.snd
  {
    var inc := LiquidityIncrement(pool, total, max);
    var out := Redeemed(mid, newTotal, inc.shares);
    SharesAreBacked(pool, total, max);
    RedeemedBound(mid, newTotal, inc.shares);
    ShareOfSum(out.fst, inc.shares, total, pool.fst, inc.amounts.fst);
    ShareOfSum(out.snd, inc.shares, total, pool.snd, inc.amounts.snd);
  }

  /** The first provider owns the whole pool: redeeming every share pays out both reserves in
      full, including anything that was there before. With no shares outstanding the round trip
      is therefore free of gain exactly when the reserves were empty. */
  lemma AllSharesRedeemEverything(pool: Amounts, total: Balance)
    requires total > 0
    ensures Redeemed(pool, total, total) == pool
  {
    assert total * ONE / total == ONE by { QuotientAtLeast(total * ONE, total, ONE); QuotientAtMost(total * ONE, total, ONE); }
    assert forall x: Balance :: SaturatingMulInt(ONE, x) == x by {
      forall x: Balance ensures SaturatingMulInt(ONE, x) == x {
        QuotientAtLeast(ONE * x, ONE, x);
        QuotientAtMost(ONE * x, ONE, x);
      }
    }
  }

  lemma FirstProviderGainsTheRest(pool: Amounts, max: Amounts, mid: Amounts)
    requires LiquidityIncrement(pool, 0, max).shares > 0
    requires mid.fst == pool.fst + max.fst && mid.snd == pool.snd + max.snd
    ensures var inc := LiquidityIncrement(pool, 0, max);
            var out := Redeemed(mid, inc.shares, inc.shares);
            (out.fst <= inc.amounts.fst && out.snd <= inc.amounts.snd) <==> pool == Amounts(0, 0)
  {
    AllSharesRedeemEverything(mid, LiquidityIncrement(pool, 0, max).shares);
  }
}
