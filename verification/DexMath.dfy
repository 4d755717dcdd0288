/** The integer arithmetic of the exchange. `None` stands for an overflow or a division by zero. */
module DexMath {
  import opened Words
  import opened Isqrt

  const BPS_DENOMINATOR: nat := 10_000
  const MINIMUM_LIQUIDITY: nat := 1_000
  const LP_PRECISION: nat := 1_000_000_000_000

  /** `a * b / d` on u128, the product being checked. */
  function MulDiv(a: nat, b: nat, d: nat): Option<nat> {
    if d == 0 || a * b > U128_MAX then None else Some(a * b / d)
  }

  /** What a swap pays for `x` (fee already taken off) against reserves `r` and `s`. */
  function ComputeOutput(x: nat, r: nat, s: nat): Option<nat> {
    if r == 0 || s == 0 || x == 0 then Some(0)
    else if x * s <= U128_MAX && r + x <= U128_MAX then MulDiv(x, s, r + x)
    else
      match MulDiv(x, LP_PRECISION, Min(r + x, U128_MAX))
      case None => None
      case Some(ratio) => MulDiv(ratio, s, LP_PRECISION)
  }

  /** The amount left after the fee, and the fee. */
  function DeductFee(amount: nat, feeBps: nat): Option<(nat, nat)> {
    match MulDiv(amount, feeBps, BPS_DENOMINATOR)
    case None => None
    case Some(fee) => if fee <= amount then Some((amount - fee, fee)) else None
  }

  // ---------------------------------------------------------------- floor arithmetic

  lemma MulDivIs(a: nat, b: nat, d: nat, q: nat)
    requires MulDiv(a, b, d) == Some(q)
    ensures q * d <= a * b < q * d + d
  {
    QuotientBounds(a * b, d);
  }

  lemma Cancel(a: nat, b: nat, p: nat)
    requires p > 0 && a * p <= b * p
    ensures a <= b
  {
    if b < a { MulMonotone(p, b + 1, a); }
  }

  lemma QuotientBelow(n: nat, d: nat, k: nat)
    requires d > 0 && n < k * d + d
    ensures n / d <= k
  {
    QuotientBounds(n, d);
    if k < n / d { MulMonotone(d, k + 1, n / d); }
  }

  lemma QuotientAbove(n: nat, d: nat, k: nat)
    requires d > 0 && k * d <= n
    ensures k <= n / d
  {
    QuotientBounds(n, d);
    if n / d < k { MulMonotone(d, n / d + 1, k); }
  }

  lemma FeeAtMostAmount(amount: nat, feeBps: nat)
    requires feeBps <= BPS_DENOMINATOR && amount * feeBps <= U128_MAX
    ensures DeductFee(amount, feeBps).Some?
    ensures DeductFee(amount, feeBps).value.0 + DeductFee(amount, feeBps).value.1 == amount
  {
    MulMonotone(amount, feeBps, BPS_DENOMINATOR);
    QuotientBelow(amount * feeBps, BPS_DENOMINATOR, amount);
  }

  // ---------------------------------------------------------------- the output of a swap

  /** `out` is at most the exact quotient `x * s / (r + x)`. */
  ghost predicate NotAboveExact(x: nat, r: nat, s: nat, out: nat) {
    out * (r + x) <= x * s
  }

  /** When the denominator saturates the ratio is zero: no u128 times 10^12 reaches the largest u128. */
  lemma SaturatedRatio(x: nat)
    requires x * LP_PRECISION <= U128_MAX
    ensures x * LP_PRECISION / U128_MAX == 0
  {
    assert U128_MAX % LP_PRECISION != 0;
    assert (x * LP_PRECISION) % LP_PRECISION == 0;
  }

  lemma TwoFloors(x: nat, s: nat, d: nat, ratio: nat, out: nat, p: nat)
    requires p > 0 && ratio * d <= x * p && out * p <= ratio * s
    ensures out * d <= x * s
  {
    MulMonotone(d, out * p, ratio * s);
    MulMonotone(s, ratio * d, x * p);
    assert (out * d) * p == (out * p) * d;
    assert (ratio * s) * d == (ratio * d) * s;
    assert (x * p) * s == (x * s) * p;
    Cancel(out * d, x * s, p);
  }

  /** Neither path of `compute_output` pays more than the exact quotient. */
  lemma OutputNotAboveExact(x: nat, r: nat, s: nat, out: nat)
    requires ComputeOutput(x, r, s) == Some(out)
    ensures NotAboveExact(x, r, s, out)
  {
    if r == 0 || s == 0 || x == 0 {
    } else if x * s <= U128_MAX && r + x <= U128_MAX {
      MulDivIs(x, s, r + x, out);
    } else {
      var ratio := MulDiv(x, LP_PRECISION, Min(r + x, U128_MAX)).value;
      if r + x > U128_MAX {
        SaturatedRatio(x);
        assert ratio == 0;
        assert out == 0;
      } else {
        MulDivIs(x, LP_PRECISION, r + x, ratio);
        MulDivIs(ratio, s, LP_PRECISION, out);
        TwoFloors(x, s, r + x, ratio, out, LP_PRECISION);
      }
    }
  }

  /** The scaled path loses at most one part in 10^12 of the reserve, and one unit. */
  lemma FallbackLoss(x: nat, r: nat, s: nat, out: nat)
    requires x > 0 && r + x <= U128_MAX && ComputeOutput(x, r, s) == Some(out)
    requires r > 0 && s > 0
    ensures out <= x * s / (r + x) <= out + s / LP_PRECISION + 1
  {
    var d := r + x;
    OutputNotAboveExact(x, r, s, out);
    QuotientAbove(x * s, d, out);
    if x * s <= U128_MAX {
      assert out == x * s / d;
    } else {
      var ratio := MulDiv(x, LP_PRECISION, d).value;
      MulDivIs(x, LP_PRECISION, d, ratio);
      MulDivIs(ratio, s, LP_PRECISION, out);
      LossArithmetic(x, s, d, ratio, out, LP_PRECISION);
      QuotientBelow(x * s, d, out + s / LP_PRECISION + 1);
    }
  }

  lemma LossArithmetic(x: nat, s: nat, d: nat, ratio: nat, out: nat, p: nat)
    requires p > 0 && d > 0 && x * p < ratio * d + d && ratio * s < out * p + p
    ensures x * s < (out + s / p + 1) * d + d
  {
  }
}
