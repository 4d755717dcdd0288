/** What holds of the exchange over every run, and what one call undoes of another. */
module DexRuns {
  import opened Words
  import opened Text
  import opened MapSums
  import opened Isqrt
  import opened DexMath
  import opened Dex

  /** LP shares are accounted for, and the pool can never be emptied. */
  ghost predicate PoolInv(p: Pool) {
    && Sum(p.shares) + MINIMUM_LIQUIDITY == p.totalLp
    && 0 < p.reserveA && 0 < p.reserveB
    && p.feeBps <= 1000
    && p.tokenA != p.tokenB
    && p.id == PoolId(p.tokenA, p.tokenB)
    && Fits(p.reserveA) && Fits(p.reserveB) && Fits(p.totalLp)
  }

  ghost predicate Inv(s: State) {
    && |s.pools| == s.count <= U64_MAX
    && forall id :: id in s.pools ==> PoolInv(s.pools[id]) && s.pools[id].id == id
  }

  // ---------------------------------------------------------------- single calls

  lemma CreateKeeps(caller: string, tokenA: string, tokenB: string, a: nat, b: nat, fee: Option<nat>, taken: bool)
    requires Fits(a) && Fits(b)
    ensures var r := CreateEffect(caller, tokenA, tokenB, a, b, fee, taken);
            r.Done? ==> PoolInv(r.pool)
  {
    var r := CreateEffect(caller, tokenA, tokenB, a, b, fee, taken);
    if r.Done? {
      var shares: map<string, nat> := map[];
      SumUpdate(shares, caller, r.receipt.lp);
      RootBelow(Min(a * b, U128_MAX));
    }
  }

  lemma AddKeeps(p: Pool, caller: string, a: nat, b: nat, minLp: nat)
    requires PoolInv(p)
    ensures var r := AddEffect(p, caller, a, b, minLp); r.Done? ==> PoolInv(r.pool)
  {
    var r := AddEffect(p, caller, a, b, minLp);
    if r.Done? {
      SumUpdate(p.shares, caller, p.ShareOf(caller) + r.receipt.lp);
    }
  }

  lemma RemovalShares(p: Pool, caller: string, lp: nat)
    requires lp <= p.ShareOf(caller)
    ensures Sum(SharesAfterRemoval(p, caller, lp)) == Sum(p.shares) - lp
  {
    if p.ShareOf(caller) == lp {
      if caller in p.shares {
        SumRemove(p.shares, caller);
      } else {
        assert p.shares - {caller} == p.shares;
      }
    } else {
      SumUpdate(p.shares, caller, p.ShareOf(caller) - lp);
    }
  }

  /** A proper part of the LP supply is worth less than the reserve. */
  lemma PortionBelow(lp: nat, reserve: nat, total: nat, q: nat)
    requires lp < total && 0 < reserve && MulDiv(lp, reserve, total) == Some(q)
    ensures q < reserve
  {
    MulDivIs(lp, reserve, total, q);
    if reserve <= q {
      MulMonotone(total, reserve, q);
      MulMonotone(reserve, lp + 1, total);
    }
  }

  lemma ShareBelowTotal(p: Pool, caller: string)
    requires PoolInv(p)
    ensures p.ShareOf(caller) < p.totalLp
  {
    if caller in p.shares { SumAtLeastEntry(p.shares, caller); }
  }

  lemma RemoveKeeps(p: Pool, caller: string, lp: nat, minA: nat, minB: nat)
    requires PoolInv(p)
    ensures var r := RemoveEffect(p, caller, lp, minA, minB); r.Done? ==> PoolInv(r.pool)
  {
    var r := RemoveEffect(p, caller, lp, minA, minB);
    if r.Done? {
      ShareBelowTotal(p, caller);
      RemovalShares(p, caller, lp);
      PortionBelow(lp, p.reserveA, p.totalLp, r.receipt.amountA);
      PortionBelow(lp, p.reserveB, p.totalLp, r.receipt.amountB);
    }
  }

  /** On removal only the products can overflow: the subtractions never do. */
  lemma RemoveTrapsOnlyOnProducts(p: Pool, caller: string, lp: nat, minA: nat, minB: nat)
    requires PoolInv(p)
    ensures RemoveEffect(p, caller, lp, minA, minB) == Trapped <==>
            && lp <= p.ShareOf(caller)
            && (!Fits(lp * p.reserveA) || !Fits(lp * p.reserveB))
  {
    ShareBelowTotal(p, caller);
    if lp <= p.ShareOf(caller) {
      var outA, outB := MulDiv(lp, p.reserveA, p.totalLp), MulDiv(lp, p.reserveB, p.totalLp);
      if outA.Some? { PortionBelow(lp, p.reserveA, p.totalLp, outA.value); }
      if outB.Some? { PortionBelow(lp, p.reserveB, p.totalLp, outB.value); }
    }
  }

  lemma SwapKeeps(p: Pool, tokenIn: string, amountIn: nat, minOut: nat, now: nat)
    requires PoolInv(p)
    ensures var r := SwapEffect(p, tokenIn, amountIn, minOut, now); r.Done? ==> PoolInv(r.pool)
  {
  }

  // ---------------------------------------------------------------- runs

  lemma CallKeepsPool(s: State, c: Call)
    requires Inv(s) && Fitting(c)
    ensures var r := CallEffect(s, c); r.Done? ==> PoolInv(r.pool) && r.pool.id == c.action.Target()
  {
    var id := c.action.Target();
    match c.action
    case CreatePool(tokenA, tokenB, a, b, fee) =>
      CreateKeeps(c.caller, tokenA, tokenB, a, b, fee, id in s.pools);
    case AddLiquidity(_, a, b, minLp) =>
      if id in s.pools { AddKeeps(s.pools[id], c.caller, a, b, minLp); }
    case RemoveLiquidity(_, lp, minA, minB) =>
      if id in s.pools { RemoveKeeps(s.pools[id], c.caller, lp, minA, minB); }
    case Swap(_, tokenIn, amountIn, minOut, _) =>
      if id in s.pools { SwapKeeps(s.pools[id], tokenIn, amountIn, minOut, c.now); }
  }

  /** The initial amounts are u128. */
  predicate Fitting(c: Call) {
    c.action.CreatePool? ==> Fits(c.action.amountA) && Fits(c.action.amountB)
  }

  lemma CallKeepsInv(s: State, c: Call)
    requires Inv(s) && Fitting(c)
    ensures Inv(After(s, c))
  {
    CallKeepsPool(s, c);
    var r := CallEffect(s, c);
    if r.Done? {
      assert After(s, c).pools.Keys == s.pools.Keys + {c.action.Target()};
    }
  }

  /** In every reachable state LP shares add up, reserves are positive, fees are capped and pools are counted. */
  lemma {:induction false} RunKeepsInv(s: State, calls: seq<Call>)
    requires Inv(s) && forall c :: c in calls ==> Fitting(c)
    ensures Inv(Run(s, calls))
    decreases |calls|
  {
    if calls != [] {
      CallKeepsInv(s, calls[0]);
      RunKeepsInv(After(s, calls[0]), calls[1..]);
    }
  }

  /** So in every state reachable from the empty exchange. */
  lemma ReachableInv(calls: seq<Call>)
    requires forall c :: c in calls ==> Fitting(c)
    ensures Inv(Run(EMPTY, calls))
  {
    RunKeepsInv(EMPTY, calls);
  }

  lemma NoEmptyId(s: State)
    requires Inv(s)
    ensures "" !in s.pools
  {
  }

  lemma PoolIdSymmetric(a: string, b: string)
    ensures PoolId(a, b) == PoolId(b, a)
  {
    LessIsTotal(a, b);
  }

  /** The two names in order, joined by a colon. */
  function Joined(a: string, b: string): string {
    if Less(a, b) then a + ":" + b else b + ":" + a
  }

  /** Where that colon stands. */
  function Separator(a: string, b: string): nat {
    if Less(a, b) then |a| else |b|
  }

  /** Cut at `i`, the string is two names in ascending order. */
  predicate SplitsAt(s: string, i: nat) {
    i < |s| && s[i] == ':' && Less(s[..i], s[i + 1..])
  }

  predicate SamePair(a: string, b: string, c: string, d: string) {
    (a == c && b == d) || (a == d && b == c)
  }

  /** No other pair of distinct tokens has the pool identifier of `a` and `b`. */
  ghost predicate OwnsPoolId(a: string, b: string) {
    forall c: string, d: string :: c != d && PoolId(c, d) == PoolId(a, b) ==> SamePair(a, b, c, d)
  }

  lemma SameId(a: string, b: string, c: string, d: string)
    ensures PoolId(a, b) == PoolId(c, d) <==> Joined(a, b) == Joined(c, d)
  {
    if PoolId(a, b) == PoolId(c, d) { SamePrefix("POOL:", Joined(a, b), Joined(c, d)); }
  }

  lemma JoinedSplits(a: string, b: string)
    requires a != b
    ensures SplitsAt(Joined(a, b), Separator(a, b))
  {
    LessIsTotal(a, b);
    var (lo, hi) := if Less(a, b) then (a, b) else (b, a);
    var s := lo + ":" + hi;
    assert s[..|lo|] == lo && s[|lo| + 1..] == hi;
  }

  /** Cutting where another pair was joined gives that pair back. */
  lemma SplitIsPair(s: string, i: nat)
    requires SplitsAt(s, i)
    ensures Joined(s[..i], s[i + 1..]) == s && Separator(s[..i], s[i + 1..]) == i
    ensures s[..i] != s[i + 1..]
  {
    LessIsTotal(s[..i], s[i + 1..]);
    assert s[..i] + ":" + s[i + 1..] == s;
  }

  lemma SameSplitSamePair(a: string, b: string, c: string, d: string)
    requires a != b && c != d && Joined(a, b) == Joined(c, d)
    ensures Separator(a, b) == Separator(c, d) <==> SamePair(a, b, c, d)
  {
    LessIsTotal(a, b);
    LessIsTotal(c, d);
    var s, i, j := Joined(a, b), Separator(a, b), Separator(c, d);
    assert SamePair(a, b, s[..i], s[i + 1..]);
    assert SamePair(c, d, s[..j], s[j + 1..]);
  }

  /** The sorted names, joined, split at no other colon into two names in ascending order. */
  ghost predicate SplitsOnce(a: string, b: string) {
    forall i :: SplitsAt(Joined(a, b), i) ==> i == Separator(a, b)
  }

  lemma SharedIdSamePair(a: string, b: string, c: string, d: string)
    requires a != b && c != d && SplitsOnce(a, b) && PoolId(c, d) == PoolId(a, b)
    ensures SamePair(a, b, c, d)
  {
    SameId(c, d, a, b);
    JoinedSplits(c, d);
    SameSplitSamePair(a, b, c, d);
  }

  lemma OtherSplitOtherPair(a: string, b: string, i: nat)
    requires a != b && SplitsAt(Joined(a, b), i) && i != Separator(a, b)
    ensures !OwnsPoolId(a, b)
  {
    var c, d := Joined(a, b)[..i], Joined(a, b)[i + 1..];
    SplitIsPair(Joined(a, b), i);
    SameId(c, d, a, b);
    SameSplitSamePair(a, b, c, d);
    assert PoolId(c, d) == PoolId(a, b) && c != d && !SamePair(a, b, c, d);
  }

  /** A pair has its identifier to itself exactly when its sorted names, joined, split in one way only. */
  lemma PoolIdUniqueExactly(a: string, b: string)
    requires a != b
    ensures OwnsPoolId(a, b) <==> SplitsOnce(a, b)
  {
    if SplitsOnce(a, b) {
      forall c: string, d: string | c != d && PoolId(c, d) == PoolId(a, b) ensures SamePair(a, b, c, d) {
        SharedIdSamePair(a, b, c, d);
      }
    } else {
      var i: nat :| SplitsAt(Joined(a, b), i) && i != Separator(a, b);
      OtherSplitOtherPair(a, b, i);
    }
  }

  /** In particular, names without a colon share their identifier with no other pair. */
  lemma PlainNamesOwnTheirId(a: string, b: string)
    requires a != b && Plain(a) && Plain(b)
    ensures OwnsPoolId(a, b)
  {
    PoolIdUniqueExactly(a, b);
    var s := Joined(a, b);
    assert forall i :: 0 <= i < |s| && s[i] == ':' ==> i == Separator(a, b);
  }

  /** Among such names, different pairs have different identifiers, a token paired with itself included. */
  lemma PoolIdInjective(a: string, b: string, c: string, d: string)
    requires Plain(a) && Plain(b) && Plain(c) && Plain(d)
    ensures PoolId(a, b) == PoolId(c, d) <==> SamePair(a, b, c, d)
  {
    PoolIdSymmetric(a, b);
    if PoolId(a, b) == PoolId(c, d) {
      SameId(a, b, c, d);
      var (lo, hi) := if Less(a, b) then (a, b) else (b, a);
      var (lo', hi') := if Less(c, d) then (c, d) else (d, c);
      ColonSplit(lo, hi, lo', hi');
    }
  }

  /** With a colon in a name two different pairs can share one pool, and need not. */
  lemma PoolIdCollides()
    ensures PoolId("a:b", "c") == PoolId("a", "b:c")
    ensures OwnsPoolId("b:a", "c")
  {
    assert Less("a:b", "c") && Less("a", "b:c");
    assert "a:b" + ":" + "c" == "a" + ":" + "b:c";
    var s := Joined("b:a", "c");
    assert Less("b:a", "c") && s == "b:a:c" && Separator("b:a", "c") == 3;
    assert s[..1] == "b" && s[2..] == "a:c" && !Less("b", "a:c");
    forall i: nat | SplitsAt(s, i) ensures i == 3 {
      assert i == 1 || i == 3;
    }
    PoolIdUniqueExactly("b:a", "c");
  }

  /** No two pools of a reachable state trade the same pair. */
  lemma OnePoolPerPair(s: State, i: string, j: string)
    requires Inv(s) && i in s.pools && j in s.pools && i != j
    ensures var p, q := s.pools[i], s.pools[j];
            && !(p.tokenA == q.tokenA && p.tokenB == q.tokenB)
            && !(p.tokenA == q.tokenB && p.tokenB == q.tokenA)
  {
    PoolIdSymmetric(s.pools[i].tokenA, s.pools[i].tokenB);
  }
}
