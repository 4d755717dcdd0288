/**
 * When each call on a pool goes through and what it then moves, in the exchange's own
 * numbers: floors are stated by the two products they lie between.
 */
module DexAnswers {
  import opened Words
  import opened Text
  import opened Isqrt
  import opened DexMath
  import opened Dex
  import opened DexRuns

  /** `q` is `n / d`, rounded down. */
  ghost predicate IsFloor(q: nat, n: nat, d: nat) {
    q * d <= n < q * d + d
  }

  lemma FloorIs(q: nat, a: nat, b: nat, d: nat)
    requires d > 0
    ensures MulDiv(a, b, d) == Some(q) <==> a * b <= 0xFFFF_FFFF_FFFF_FFFF_FFFF_FFFF_FFFF_FFFF && IsFloor(q, a * b, d)
  {
    QuotientBounds(a * b, d);
    if IsFloor(q, a * b, d) { QuotientUnique(a * b, d, q); }
  }

  // ---------------------------------------------------------------- swaps

  /**
   * The output for `after`: in proportion to the reserves where the product fits, and by way
   * of a ratio of twelve decimals where it does not.
   */
  ghost predicate IsOutput(out: nat, after: nat, rin: nat, rout: nat) {
    if after * rout <= U128_MAX then IsFloor(out, after * rout, rin + after)
    else
      after * 1_000_000_000_000 <= U128_MAX &&
      exists ratio: nat ::
        && IsFloor(ratio, after * 1_000_000_000_000, rin + after) && ratio * rout <= U128_MAX
        && IsFloor(out, ratio * rout, 1_000_000_000_000)
  }

  lemma OutputIs(out: nat, after: nat, rin: nat, rout: nat)
    requires after > 0 && rin > 0 && rout > 0 && rin + after <= U128_MAX
    ensures ComputeOutput(after, rin, rout) == Some(out) <==> IsOutput(out, after, rin, rout)
  {
    if after * rout <= U128_MAX {
      FloorIs(out, after, rout, rin + after);
    } else if ComputeOutput(after, rin, rout) == Some(out) {
      var ratio := MulDiv(after, LP_PRECISION, rin + after).value;
      FloorIs(ratio, after, LP_PRECISION, rin + after);
      FloorIs(out, ratio, rout, LP_PRECISION);
    } else if IsOutput(out, after, rin, rout) {
      var ratio: nat :|
        && IsFloor(ratio, after * 1_000_000_000_000, rin + after) && ratio * rout <= U128_MAX
        && IsFloor(out, ratio * rout, 1_000_000_000_000);
      FloorIs(ratio, after, LP_PRECISION, rin + after);
      FloorIs(out, ratio, rout, LP_PRECISION);
    }
  }

  /** Nothing comes out of nothing, nor of a sum of reserves beyond u128. */
  lemma NoOutput(after: nat, rin: nat, rout: nat, out: nat)
    requires ComputeOutput(after, rin, rout) == Some(out) && out > 0
    ensures after > 0 && rin > 0 && rout > 0 && rin + after <= U128_MAX
  {
    if after > 0 && rin > 0 && rout > 0 && rin + after > U128_MAX {
      SaturatedRatio(after);
    }
  }

  lemma FeeIs(amount: nat, feeBps: nat, after: nat, fee: nat)
    ensures DeductFee(amount, feeBps) == Some((after, fee)) <==>
            amount * feeBps <= U128_MAX && IsFloor(fee, amount * feeBps, 10_000) && after + fee == amount
  {
    FloorIs(fee, amount, feeBps, 10_000);
    if DeductFee(amount, feeBps).Some? {
      FloorIs(DeductFee(amount, feeBps).value.1, amount, feeBps, 10_000);
    }
  }

  /** The guards of a swap that pays `out` and charges `fee`. */
  ghost predicate Swaps(p: Pool, tokenIn: string, amountIn: nat, minOut: nat, out: nat, fee: nat) {
    && (tokenIn == p.tokenA || tokenIn == p.tokenB)
    && var (rin, rout) := if tokenIn == p.tokenA then (p.reserveA, p.reserveB) else (p.reserveB, p.reserveA);
    && amountIn * p.feeBps <= U128_MAX && IsFloor(fee, amountIn * p.feeBps, 10_000) && fee < amountIn
    && rin > 0 && rin + amountIn <= U128_MAX
    && IsOutput(out, amountIn - fee, rin, rout)
    && minOut <= out && 0 < out < rout && out * 10_000 <= U128_MAX
  }

  lemma PricedIs(amountIn: nat, feeBps: nat, rin: nat, rout: nat, out: nat, fee: nat)
    requires out > 0 && rin + amountIn <= U128_MAX
    ensures Priced(amountIn, feeBps, rin, rout) == Some((out, fee)) <==>
            && amountIn * feeBps <= U128_MAX && IsFloor(fee, amountIn * feeBps, 10_000) && fee < amountIn
            && rin > 0 && rout > 0 && IsOutput(out, amountIn - fee, rin, rout)
  {
    if Priced(amountIn, feeBps, rin, rout) == Some((out, fee)) {
      var after := DeductFee(amountIn, feeBps).value.0;
      FeeIs(amountIn, feeBps, after, fee);
      NoOutput(after, rin, rout, out);
      OutputIs(out, after, rin, rout);
    } else if && amountIn * feeBps <= U128_MAX && IsFloor(fee, amountIn * feeBps, 10_000) && fee < amountIn
              && rin > 0 && rout > 0 && IsOutput(out, amountIn - fee, rin, rout) {
      FeeIs(amountIn, feeBps, amountIn - fee, fee);
      OutputIs(out, amountIn - fee, rin, rout);
    }
  }

  /** The pool with one reserve up and the other down, and the time of the trade; nothing else is changed. */
  ghost predicate Traded(p: Pool, q: Pool, tokenIn: string, amountIn: nat, out: nat, now: nat) {
    && q == p.(reserveA := q.reserveA, reserveB := q.reserveB, lastTrade := now)
    && (if tokenIn == p.tokenA then q.reserveA == p.reserveA + amountIn && q.reserveB == p.reserveB - out
        else q.reserveB == p.reserveB + amountIn && q.reserveA == p.reserveA - out)
  }

  /** A swap is done, with this output and fee, if and only if its guards hold. */
  lemma SwapDoneExactly(p: Pool, tokenIn: string, amountIn: nat, minOut: nat, now: nat, out: nat, fee: nat)
    ensures var r := SwapEffect(p, tokenIn, amountIn, minOut, now);
            r.Done? && r.receipt.out == out && r.receipt.fee == fee <==> Swaps(p, tokenIn, amountIn, minOut, out, fee)
  {
    var (rin, rout) := if tokenIn == p.tokenA then (p.reserveA, p.reserveB) else (p.reserveB, p.reserveA);
    if out > 0 && rin + amountIn <= U128_MAX { PricedIs(amountIn, p.feeBps, rin, rout, out, fee); }
    hide Priced, IsOutput, IsFloor;
  }

  /** What a done swap moves. */
  lemma SwapMoves(p: Pool, tokenIn: string, amountIn: nat, minOut: nat, now: nat)
    ensures var r := SwapEffect(p, tokenIn, amountIn, minOut, now);
            r.Done? ==>
              && r.receipt.Swapped? && Traded(p, r.pool, tokenIn, amountIn, r.receipt.out, now)
              && var rout := if tokenIn == p.tokenA then p.reserveB else p.reserveA;
              rout > 0 && IsFloor(r.receipt.impactBps, r.receipt.out * 10_000, rout)
  {
    var r := SwapEffect(p, tokenIn, amountIn, minOut, now);
    if r.Done? {
      var rout := if tokenIn == p.tokenA then p.reserveB else p.reserveA;
      FloorIs(r.receipt.impactBps, r.receipt.out, 10_000, rout);
    }
    hide Priced, IsFloor;
  }

  /** It traps only where a product or sum does not fit a u128, or the fee exceeds the amount. */
  lemma SwapTrapsOnOverflow(p: Pool, tokenIn: string, amountIn: nat, minOut: nat, now: nat)
    requires SwapEffect(p, tokenIn, amountIn, minOut, now) == Trapped
    ensures var (rin, rout) := if tokenIn == p.tokenA then (p.reserveA, p.reserveB) else (p.reserveB, p.reserveA);
            || p.feeBps > 10_000 || amountIn * p.feeBps > U128_MAX || amountIn * rout > U128_MAX
            || rin + amountIn > U128_MAX || rout * 10_000 > U128_MAX
  {
    var (rin, rout) := if tokenIn == p.tokenA then (p.reserveA, p.reserveB) else (p.reserveB, p.reserveA);
    if && p.feeBps <= 10_000 && amountIn * p.feeBps <= U128_MAX
       && amountIn * rout <= U128_MAX && rin + amountIn <= U128_MAX {
      FeeAtMostAmount(amountIn, p.feeBps);
      var after := DeductFee(amountIn, p.feeBps).value.0;
      MulMonotone(rout, after, amountIn);
      assert ComputeOutput(after, rin, rout).Some?;
    }
  }

  // ---------------------------------------------------------------- quotes

  /** A quote names the output and fee a swap would have, and prices of twelve decimals. */
  lemma QuoteIs(p: Pool, tokenIn: string, amountIn: nat)
    requires PoolInv(p) && QuotePrices(p, tokenIn, amountIn).Some?
    ensures var q := QuotePrices(p, tokenIn, amountIn).value;
            var (rin, rout) := if tokenIn == p.tokenA then (p.reserveA, p.reserveB) else (p.reserveB, p.reserveA);
            && IsFloor(q.spot, rout * 1_000_000_000_000, rin) && IsFloor(q.fee, amountIn * p.feeBps, 10_000)
            && (if amountIn == 0 then q.exec == 0 else IsFloor(q.exec, q.out * 1_000_000_000_000, amountIn))
            && (q.out > 0 ==> IsOutput(q.out, amountIn - q.fee, rin, rout))
            && (rin + amountIn <= U128_MAX && q.fee < amountIn ==> IsOutput(q.out, amountIn - q.fee, rin, rout))
  {
    var q := QuotePrices(p, tokenIn, amountIn).value;
    var (rin, rout) := if tokenIn == p.tokenA then (p.reserveA, p.reserveB) else (p.reserveB, p.reserveA);
    var after := DeductFee(amountIn, p.feeBps).value.0;
    FeeIs(amountIn, p.feeBps, after, q.fee);
    FloorIs(q.spot, rout, LP_PRECISION, rin);
    if amountIn > 0 { FloorIs(q.exec, q.out, LP_PRECISION, amountIn); }
    if q.out > 0 { NoOutput(after, rin, rout, q.out); }
    if after > 0 && rin + after <= U128_MAX { OutputIs(q.out, after, rin, rout); }
  }

  // ---------------------------------------------------------------- creating, adding, removing

  /** The integer part of the square root of the product, which saturates. */
  ghost predicate IsInitial(total: nat, a: nat, b: nat) {
    var n := if a * b <= U128_MAX then a * b else U128_MAX;
    total * total <= n < (total + 1) * (total + 1)
  }

  /**
   * A pool is made of two different tokens that have none, with a fee of at most ten percent, 30
   * basis points unless said otherwise, and more than 1,000 LP tokens, of which 1,000 are nobody's.
   */
  lemma CreateDoneExactly(caller: string, tokenA: string, tokenB: string, a: nat, b: nat, fee: Option<nat>,
                          taken: bool, total: nat)
    requires IsInitial(total, a, b)
    ensures var r := CreateEffect(caller, tokenA, tokenB, a, b, fee, taken);
            && !r.Trapped?
            && (r.Done? <==> tokenA != tokenB && !taken && a > 0 && b > 0 && total > 1_000
                             && (fee.Some? ==> fee.value <= 1_000))
            && (r.Done? ==>
                  && r.receipt == Created(total - 1_000)
                  && r.pool == Pool(PoolId(tokenA, tokenB), tokenA, tokenB, a, b, total, map[caller := total - 1_000],
                                    match fee { case Some(bps) => bps case None => 30 }, 0, caller))
  {
    var n := Min(a * b, U128_MAX);
    RootIs(n);
    RootUnique(n, total, Root(n));
    hide PoolId;
  }

  /** LP tokens in proportion to the scarcer side of the offer. */
  ghost predicate IsMint(lp: nat, p: Pool, a: nat, b: nat) {
    exists x: nat, y: nat ::
      && IsFloor(x, a * p.totalLp, p.reserveA) && IsFloor(y, b * p.totalLp, p.reserveB)
      && lp == if x <= y then x else y
  }

  lemma MintIs(lp: nat, p: Pool, a: nat, b: nat)
    requires p.reserveA > 0 && p.reserveB > 0
    ensures MintFor(p, a, b) == Some(lp) <==>
            a * p.totalLp <= U128_MAX && b * p.totalLp <= U128_MAX && IsMint(lp, p, a, b)
  {
    if MintFor(p, a, b) == Some(lp) {
      var x, y := MulDiv(a, p.totalLp, p.reserveA).value, MulDiv(b, p.totalLp, p.reserveB).value;
      FloorIs(x, a, p.totalLp, p.reserveA);
      FloorIs(y, b, p.totalLp, p.reserveB);
    }
    if a * p.totalLp <= U128_MAX && b * p.totalLp <= U128_MAX && IsMint(lp, p, a, b) {
      var x: nat, y: nat :|
        && IsFloor(x, a * p.totalLp, p.reserveA) && IsFloor(y, b * p.totalLp, p.reserveB)
        && lp == if x <= y then x else y;
      FloorIs(x, a, p.totalLp, p.reserveA);
      FloorIs(y, b, p.totalLp, p.reserveB);
    }
  }

  /** An offer goes through, for `lp` tokens and these amounts, if and only if its guards hold. */
  ghost predicate Adds(p: Pool, a: nat, b: nat, minLp: nat, lp: nat, usedA: nat, usedB: nat) {
    && a > 0 && b > 0 && a * p.totalLp <= U128_MAX && b * p.totalLp <= U128_MAX
    && IsMint(lp, p, a, b) && minLp <= lp
    && lp * p.reserveA <= U128_MAX && IsFloor(usedA, lp * p.reserveA, p.totalLp)
    && lp * p.reserveB <= U128_MAX && IsFloor(usedB, lp * p.reserveB, p.totalLp)
    && p.reserveA + usedA <= U128_MAX && p.reserveB + usedB <= U128_MAX && p.totalLp + lp <= U128_MAX
  }

  lemma AddDoneExactly(p: Pool, caller: string, a: nat, b: nat, minLp: nat, lp: nat, usedA: nat, usedB: nat)
    requires PoolInv(p)
    ensures var r := AddEffect(p, caller, a, b, minLp);
            && (r.Done? && r.receipt == Added(lp, usedA, usedB) <==> Adds(p, a, b, minLp, lp, usedA, usedB))
            && (r.Done? && r.receipt == Added(lp, usedA, usedB) ==>
                  r.pool == p.(reserveA := p.reserveA + usedA, reserveB := p.reserveB + usedB,
                               totalLp := p.totalLp + lp, shares := p.shares[caller := p.ShareOf(caller) + lp]))
  {
    ShareBelowTotal(p, caller);
    MintIs(lp, p, a, b);
    FloorIs(usedA, lp, p.reserveA, p.totalLp);
    FloorIs(usedB, lp, p.reserveB, p.totalLp);
    hide MintFor, MulDiv, IsMint, IsFloor, PoolId;
  }

  lemma DoneAddIsAdded(p: Pool, caller: string, a: nat, b: nat, minLp: nat)
    ensures var r := AddEffect(p, caller, a, b, minLp); r.Done? ==> r.receipt.Added?
  {
  }

  /** Removing `lp` tokens pays these parts of the reserves, if and only if the guards hold. */
  ghost predicate Removes(p: Pool, caller: string, lp: nat, minA: nat, minB: nat, outA: nat, outB: nat) {
    && lp <= p.ShareOf(caller)
    && lp * p.reserveA <= U128_MAX && IsFloor(outA, lp * p.reserveA, p.totalLp) && minA <= outA
    && lp * p.reserveB <= U128_MAX && IsFloor(outB, lp * p.reserveB, p.totalLp) && minB <= outB
  }

  lemma RemoveDoneExactly(p: Pool, caller: string, lp: nat, minA: nat, minB: nat, outA: nat, outB: nat)
    requires PoolInv(p)
    ensures var r := RemoveEffect(p, caller, lp, minA, minB);
            && (r.Done? && r.receipt == Removed(outA, outB) <==> Removes(p, caller, lp, minA, minB, outA, outB))
            && (r.Done? && r.receipt == Removed(outA, outB) ==>
                  && r.pool.reserveA == p.reserveA - outA && r.pool.reserveB == p.reserveB - outB
                  && r.pool.totalLp == p.totalLp - lp && r.pool.ShareOf(caller) == p.ShareOf(caller) - lp
                  && (forall w :: w != caller ==> r.pool.ShareOf(w) == p.ShareOf(w))
                  && (caller in r.pool.shares ==> r.pool.ShareOf(caller) > 0 || caller !in p.shares || lp == 0)
                  && r.pool == p.(reserveA := r.pool.reserveA, reserveB := r.pool.reserveB,
                                  totalLp := r.pool.totalLp, shares := r.pool.shares))
  {
    RemoveTrapsOnlyOnProducts(p, caller, lp, minA, minB);
    FloorIs(outA, lp, p.reserveA, p.totalLp);
    FloorIs(outB, lp, p.reserveB, p.totalLp);
    hide MulDiv, IsFloor, PoolInv;
  }

  // ---------------------------------------------------------------- calls

  /** The pool a call is on, and the pool's own answer; a swap is not made after its deadline. */
  lemma CallIs(s: State, c: Call)
    ensures var id := c.action.Target();
            match c.action
            case CreatePool(tokenA, tokenB, a, b, fee) =>
              var r := CreateEffect(c.caller, tokenA, tokenB, a, b, fee, id in s.pools);
              CallEffect(s, c) == if r.Done? && s.count == 0xFFFF_FFFF_FFFF_FFFF then Trapped else r
            case AddLiquidity(_, a, b, minLp) =>
              CallEffect(s, c) == if id in s.pools then AddEffect(s.pools[id], c.caller, a, b, minLp) else Failed
            case RemoveLiquidity(_, lp, minA, minB) =>
              CallEffect(s, c) == if id in s.pools then RemoveEffect(s.pools[id], c.caller, lp, minA, minB) else Failed
            case Swap(_, tokenIn, amountIn, minOut, deadline) =>
              CallEffect(s, c) ==
              if id in s.pools && (deadline == 0 || c.now <= deadline)
              then SwapEffect(s.pools[id], tokenIn, amountIn, minOut, c.now) else Failed
  {
    hide PoolId;
  }

  /** A swap on the exchange is done, before its deadline if it has one, exactly when its pool's guards hold. */
  lemma SwapCallExactly(s: State, c: Call, out: nat, fee: nat)
    requires c.action.Swap?
    ensures var Swap(id, tokenIn, amountIn, minOut, deadline) := c.action;
            var r := CallEffect(s, c);
            && (r.Done? && r.receipt.Swapped? && r.receipt.out == out && r.receipt.fee == fee <==>
                && id in s.pools && (deadline == 0 || c.now <= deadline)
                && Swaps(s.pools[id], tokenIn, amountIn, minOut, out, fee))
            && (r.Done? ==>
                  && id in s.pools && r.receipt.Swapped?
                  && Traded(s.pools[id], After(s, c).pools[id], tokenIn, amountIn, r.receipt.out, c.now))
  {
    var Swap(id, tokenIn, amountIn, minOut, deadline) := c.action;
    CallIs(s, c);
    AfterIs(s, c);
    if id in s.pools {
      SwapDoneExactly(s.pools[id], tokenIn, amountIn, minOut, c.now, out, fee);
      SwapMoves(s.pools[id], tokenIn, amountIn, minOut, c.now);
    }
    hide CallEffect, SwapEffect, After, Swaps, Traded;
  }

  lemma AddCallExactly(s: State, c: Call, lp: nat, usedA: nat, usedB: nat)
    requires Inv(s) && c.action.AddLiquidity?
    ensures var AddLiquidity(id, a, b, minLp) := c.action;
            var r := CallEffect(s, c);
            && (r.Done? && r.receipt == Added(lp, usedA, usedB) <==>
                id in s.pools && Adds(s.pools[id], a, b, minLp, lp, usedA, usedB))
            && (r.Done? ==> r.receipt.Added?)
            && (r.Done? && r.receipt == Added(lp, usedA, usedB) ==>
                  var p := s.pools[id];
                  After(s, c).pools[id] ==
                    p.(reserveA := p.reserveA + usedA, reserveB := p.reserveB + usedB, totalLp := p.totalLp + lp,
                       shares := p.shares[c.caller := p.ShareOf(c.caller) + lp]))
  {
    var AddLiquidity(id, a, b, minLp) := c.action;
    CallIs(s, c);
    AfterIs(s, c);
    if id in s.pools {
      AddDoneExactly(s.pools[id], c.caller, a, b, minLp, lp, usedA, usedB);
      DoneAddIsAdded(s.pools[id], c.caller, a, b, minLp);
    }
    hide CallEffect, AddEffect, After, Adds, PoolInv;
  }

  lemma RemoveCallExactly(s: State, c: Call, outA: nat, outB: nat)
    requires Inv(s) && c.action.RemoveLiquidity?
    ensures var RemoveLiquidity(id, lp, minA, minB) := c.action;
            var r := CallEffect(s, c);
            && (r.Done? && r.receipt == Removed(outA, outB) <==>
                id in s.pools && Removes(s.pools[id], c.caller, lp, minA, minB, outA, outB))
            && (r.Done? && r.receipt == Removed(outA, outB) ==>
                  var p, q := s.pools[id], After(s, c).pools[id];
                  && q.reserveA == p.reserveA - outA && q.reserveB == p.reserveB - outB
                  && q.totalLp == p.totalLp - lp && q.ShareOf(c.caller) == p.ShareOf(c.caller) - lp
                  && forall w :: w != c.caller ==> q.ShareOf(w) == p.ShareOf(w))
  {
    var RemoveLiquidity(id, lp, minA, minB) := c.action;
    CallIs(s, c);
    AfterIs(s, c);
    if id in s.pools { RemoveDoneExactly(s.pools[id], c.caller, lp, minA, minB, outA, outB); }
    hide CallEffect, RemoveEffect, After, Removes, PoolInv;
  }

  lemma CreateCallExactly(s: State, c: Call, total: nat)
    requires c.action.CreatePool? && IsInitial(total, c.action.amountA, c.action.amountB)
    ensures var CreatePool(tokenA, tokenB, a, b, fee) := c.action;
            var id, r := PoolId(tokenA, tokenB), CallEffect(s, c);
            && (r.Done? <==> tokenA != tokenB && id !in s.pools && a > 0 && b > 0 && total > 1_000
                             && (fee.Some? ==> fee.value <= 1_000) && s.count != 0xFFFF_FFFF_FFFF_FFFF)
            && (r.Done? ==>
                  && r.receipt == Created(total - 1_000) && After(s, c).count == s.count + 1
                  && After(s, c).pools == s.pools[id :=
                       Pool(id, tokenA, tokenB, a, b, total, map[c.caller := total - 1_000],
                            match fee { case Some(bps) => bps case None => 30 }, 0, c.caller)])
  {
    var CreatePool(tokenA, tokenB, a, b, fee) := c.action;
    CallIs(s, c);
    AfterIs(s, c);
    CreateDoneExactly(c.caller, tokenA, tokenB, a, b, fee, PoolId(tokenA, tokenB) in s.pools, total);
    hide CallEffect, CreateEffect, PoolId, IsInitial;
  }

  /** A done call replaces that pool, a creation counts it, and nothing else changes. */
  lemma AfterIs(s: State, c: Call)
    ensures !CallEffect(s, c).Done? ==> After(s, c) == s
    ensures CallEffect(s, c).Done? ==>
              var id, t := c.action.Target(), After(s, c);
              && t.pools.Keys == s.pools.Keys + {id} && t.pools[id] == CallEffect(s, c).pool
              && (forall j :: j in s.pools && j != id ==> t.pools[j] == s.pools[j])
              && t.count == s.count + (if c.action.CreatePool? then 1 else 0)
  {
    hide CallEffect, PoolId;
  }
}
