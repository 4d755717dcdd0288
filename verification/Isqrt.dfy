/** Newton's integer square root, in the two forms the repository uses. */
module Isqrt {
  import opened Words

  /** `r` is the integer part of the square root of `n`. */
  predicate IsRoot(n: nat, r: nat) {
    r * r <= n < (r + 1) * (r + 1)
  }

  lemma SquareMonotone(a: nat, b: nat)
    requires a <= b
    ensures a * a <= b * b
  {
  }

  lemma RootUnique(n: nat, r: nat, s: nat)
    requires IsRoot(n, r) && IsRoot(n, s)
    ensures r == s
  {
    if r < s { SquareMonotone(r + 1, s); }
    if s < r { SquareMonotone(s + 1, r); }
  }

  lemma {:induction false} RootExists(n: nat)
    ensures exists r: nat :: IsRoot(n, r)
  {
    if n == 0 {
      assert IsRoot(0, 0);
    } else {
      RootExists(n - 1);
      var r: nat :| IsRoot(n - 1, r);
      assert IsRoot(n, r) || IsRoot(n, r + 1);
    }
  }

  /** The integer part of the square root. */
  ghost function Root(n: nat): nat {
    RootExists(n);
    var r: nat :| IsRoot(n, r);
    r
  }

  lemma RootIs(n: nat)
    ensures IsRoot(n, Root(n))
  {
    RootExists(n);
  }

  lemma RootAtMost(n: nat, k: nat)
    requires n < (k + 1) * (k + 1)
    ensures Root(n) <= k
  {
    RootIs(n);
    if k < Root(n) { SquareMonotone(k + 1, Root(n)); }
  }

  // ---------------------------------------------------------------- Newton's step

  function NewtonStep(n: nat, x: nat): nat
    requires x > 0
  {
    (x + n / x) / 2
  }

  lemma ProductBelowSquare(a: nat, b: nat, r: nat)
    requires a + b <= 2 * r
    ensures a * b <= r * r
  {
    if a <= r {
      var d := r - a;
      assert b <= r + d;
      assert a * b <= a * (r + d);
      assert a * (r + d) == (r - d) * (r + d) == r * r - d * d;
    } else {
      var d := a - r;
      assert b <= r - d;
      assert a * b <= a * (r - d);
      assert a * (r - d) == (r + d) * (r - d) == r * r - d * d;
    }
  }

  lemma QuotientBounds(n: nat, x: nat)
    requires x > 0
    ensures (n / x) * x <= n < (n / x + 1) * x
  {
  }

  lemma MulMonotone(q: nat, k: nat, x: nat)
    requires k <= x
    ensures q * k <= q * x && k * q <= x * q
  {
  }

  lemma QuotientUnique(n: nat, d: nat, q: nat)
    requires d > 0 && q * d <= n < q * d + d
    ensures n / d == q
  {
    QuotientBounds(n, d);
    if n / d < q { MulMonotone(d, n / d + 1, q); }
    if q < n / d { MulMonotone(d, q + 1, n / d); }
  }

  lemma QuotientAtMost(n: nat, x: nat, k: nat)
    requires 0 < k <= x
    ensures (n / x) * k <= n
  {
    QuotientBounds(n, x);
    MulMonotone(n / x, k, x);
  }

  /** Newton's step never undershoots the root. */
  lemma StepAboveRoot(n: nat, x: nat)
    requires x > 0
    ensures Root(n) <= NewtonStep(n, x)
  {
    var r, q := Root(n), n / x;
    RootIs(n);
    if NewtonStep(n, x) < r {
      QuotientBounds(n, x);
      ProductBelowSquare(q + 1, x, r);
      assert false;
    }
  }

  /** When the step does not go down, the root is reached. */
  lemma NoDescent(n: nat, x: nat)
    requires x > 0 && Root(n) <= x <= NewtonStep(n, x)
    ensures x == Root(n)
  {
    var q := n / x;
    assert q >= x;
    RootIs(n);
    MulMonotone(x, x, q);
    QuotientBounds(n, x);
    if Root(n) < x { SquareMonotone(Root(n) + 1, x); }
  }

  lemma SmallRoot(n: nat)
    requires Root(n) <= 1
    ensures n < 4
  {
    RootIs(n);
    SquareMonotone(Root(n) + 1, 2);
  }

  /** `x + n / x` stays within a u128 once the first step is made, in both forms. */
  lemma StepFits(n: u128, x: nat)
    requires 0 < x && Root(n) <= x
    requires x <= (n + 1) / 2 || (n > 2 && x <= n / 2 + 1)
    ensures x + n / x <= U128_MAX
  {
    if x == 1 {
      SmallRoot(n);
    } else if x == 2 {
      QuotientAtMost(n, 2, 2);
    } else {
      QuotientAtMost(n, x, 3);
    }
  }

  /** One round of the loop: the sum does not overflow. */
  method NextGuess(n: u128, x: u128) returns (y: u128)
    requires 0 < x && Root(n) <= x
    requires x <= (n + 1) / 2 || (n > 2 && x <= n / 2 + 1)
    ensures y == NewtonStep(n, x)
  {
    StepFits(n, x);
    var sum: u128 := x + n / x;
    y := sum / 2;
  }

  lemma HalfAboveRoot(n: nat)
    ensures Root(n) <= n / 2 + 1
  {
    var h := n / 2 + 2;
    MulMonotone(h, 2, h);
    RootAtMost(n, n / 2 + 1);
  }

  lemma CeilHalfIsStep(n: nat)
    requires n > 0
    ensures NewtonStep(n, n) == n / 2 + n % 2
  {
    assert n / n == 1;
  }

  lemma RootBelow(n: nat)
    ensures Root(n) <= n
  {
    MulMonotone(n + 1, 1, n + 1);
    RootAtMost(n, n);
  }

  lemma RootPositive(n: nat)
    requires n > 0
    ensures Root(n) > 0
  {
    RootIs(n);
  }

  /** `isqrt` started at `div_ceil(n, 2)`: terminates, stays in range and is exact for every u128. */
  method IsqrtCeil(n: u128) returns (x: u128)
    ensures x == Root(n)
  {
    RootBelow(n);
    if n == 0 {
      return 0;
    }
    x := n;
    var y: u128 := n / 2 + n % 2;
    CeilHalfIsStep(n);
    RootPositive(n);
    while y < x
      invariant 0 < x && Root(n) <= x && (x == n || x <= (n + 1) / 2)
      invariant y == NewtonStep(n, x)
      decreases x
    {
      StepAboveRoot(n, x);
      x := y;
      y := NextGuess(n, x);
    }
    NoDescent(n, x);
  }

  lemma SmallRoots()
    ensures Root(0) == 0 && Root(1) == 1 && Root(2) == 1
  {
    RootIs(0); RootIs(1); RootIs(2);
    RootUnique(0, 0, Root(0));
    RootUnique(1, 1, Root(1));
    RootUnique(2, 1, Root(2));
  }

  /** `isqrt` started at `n / 2 + 1`: exact for every u128 but 2, for which it returns 2. */
  method IsqrtHalf(n: u128) returns (x: u128)
    ensures x == RootFromHalf(n)
    ensures x == Root(n) <==> n != 2
  {
    RootBelow(n);
    SmallRoots();
    if n == 0 {
      return 0;
    }
    x := n;
    var y: u128 := n / 2 + 1;
    HalfAboveRoot(n);
    RootPositive(n);
    while y < x
      invariant 0 < x && Root(n) <= x
      invariant (x == n && y == n / 2 + 1) || (n > 2 && x <= n / 2 + 1 && y == NewtonStep(n, x))
      decreases x
    {
      StepAboveRoot(n, x);
      x := y;
      y := NextGuess(n, x);
    }
    if n > 2 {
      NoDescent(n, x);
    }
  }

  /** What the `n / 2 + 1` form computes. */
  ghost function RootFromHalf(n: nat): nat {
    if n == 2 then 2 else Root(n)
  }

  // ---------------------------------------------------------------- order and sums

  lemma RootMonotone(a: nat, b: nat)
    requires a <= b
    ensures Root(a) <= Root(b)
  {
    RootIs(b);
    RootAtMost(a, Root(b));
  }

  lemma RootSubadditive(a: nat, b: nat)
    ensures Root(a + b) <= Root(a) + Root(b)
  {
    var p, q := Root(a), Root(b);
    RootIs(a);
    RootIs(b);
    SquareOfSum(p, q);
    RootAtMost(a + b, p + q);
  }

  lemma SquareOfSum(p: nat, q: nat)
    ensures (p + 1) * (p + 1) + (q + 1) * (q + 1) <= (p + q + 1) * (p + q + 1) + 1
  {
    var pq := p * q;
    assert (p + 1) * (p + 1) == p * p + 2 * p + 1;
    assert (q + 1) * (q + 1) == q * q + 2 * q + 1;
    assert (p + q + 1) * (p + q + 1) == p * p + q * q + 2 * pq + 2 * p + 2 * q + 1;
  }
}
