/** Value: swaps never shrink a pool, adding and removing are inverse, quotes tell the truth. */
module DexValue {
  import opened Words
  import opened MapSums
  import opened Isqrt
  import opened DexMath
  import opened Dex
  import opened DexRuns

  // ---------------------------------------------------------------- the product of the reserves

  lemma PricedNotAboveExact(amountIn: nat, feeBps: nat, rin: nat, rout: nat, out: nat, fee: nat)
    requires feeBps <= 1000 && Priced(amountIn, feeBps, rin, rout) == Some((out, fee))
    ensures fee <= amountIn && NotAboveExact(amountIn - fee, rin, rout, out)
  {
    OutputNotAboveExact(amountIn - fee, rin, rout, out);
  }

  lemma ProductArithmetic(rin: nat, rout: nat, amountIn: nat, after: nat, out: nat)
    requires after <= amountIn && out <= rout && NotAboveExact(after, rin, rout, out)
    ensures rin * rout <= (rin + amountIn) * (rout - out)
    ensures rout * rin <= (rout - out) * (rin + amountIn)
  {
    var rest := rout - out;
    MulMonotone(rest, rin + after, rin + amountIn);
    assert (rin + after) * rest == (rin + after) * rout - out * (rin + after);
    assert (rin + after) * rout == rin * rout + after * rout;
  }

  ghost function Product(p: Pool): nat {
    p.reserveA * p.reserveB
  }

  /** Every successful swap, by either formula, leaves the product of the reserves no smaller. */
  lemma SwapKeepsProduct(p: Pool, tokenIn: string, amountIn: nat, minOut: nat, now: nat)
    requires p.feeBps <= 1000
    ensures var r := SwapEffect(p, tokenIn, amountIn, minOut, now); r.Done? ==> Product(p) <= Product(r.pool)
  {
    var r := SwapEffect(p, tokenIn, amountIn, minOut, now);
    if r.Done? {
      var (rin, rout) := if tokenIn == p.tokenA then (p.reserveA, p.reserveB) else (p.reserveB, p.reserveA);
      PricedNotAboveExact(amountIn, p.feeBps, rin, rout, r.receipt.out, r.receipt.fee);
      ProductArithmetic(rin, rout, amountIn, amountIn - r.receipt.fee, r.receipt.out);
      if tokenIn == p.tokenA {
        assert r.pool.reserveA == rin + amountIn && r.pool.reserveB == rout - r.receipt.out;
      } else {
        assert r.pool.reserveB == rin + amountIn && r.pool.reserveA == rout - r.receipt.out;
      }
    }
  }

  datatype Trade = Trade(tokenIn: string, amountIn: nat, minOut: nat, now: nat)

  ghost function Trades(p: Pool, ts: seq<Trade>): Pool
    decreases |ts|
  {
    if ts == [] then p
    else
      var r := SwapEffect(p, ts[0].tokenIn, ts[0].amountIn, ts[0].minOut, ts[0].now);
      Trades(if r.Done? then r.pool else p, ts[1..])
  }

  lemma {:induction false} TradesKeepProduct(p: Pool, ts: seq<Trade>)
    requires p.feeBps <= 1000
    ensures Product(p) <= Product(Trades(p, ts))
    decreases |ts|
  {
    if ts != [] {
      SwapKeepsProduct(p, ts[0].tokenIn, ts[0].amountIn, ts[0].minOut, ts[0].now);
      var r := SwapEffect(p, ts[0].tokenIn, ts[0].amountIn, ts[0].minOut, ts[0].now);
      TradesKeepProduct(if r.Done? then r.pool else p, ts[1..]);
    }
  }

  /**
   * No sequence of swaps takes something out of a pool for nothing: if one reserve
   * is back at its level or below, the other is at its level or above.
   */
  lemma TradesNeverProfit(p: Pool, ts: seq<Trade>)
    requires PoolInv(p)
    ensures var q := Trades(p, ts);
            && (q.reserveA <= p.reserveA ==> p.reserveB <= q.reserveB)
            && (q.reserveB <= p.reserveB ==> p.reserveA <= q.reserveA)
  {
    var q := Trades(p, ts);
    TradesKeepProduct(p, ts);
    if q.reserveA <= p.reserveA { NoProfit(p.reserveA, p.reserveB, q.reserveA, q.reserveB); }
    if q.reserveB <= p.reserveB { NoProfit(p.reserveB, p.reserveA, q.reserveB, q.reserveA); }
  }

  lemma NoProfit(a: nat, b: nat, a': nat, b': nat)
    requires a > 0 && a * b <= a' * b' && a' <= a
    ensures b <= b'
  {
    MulMonotone(b', a', a);
    Cancel(b, b', a);
  }

  /** Swapping there and back returns at most what was put in. */
  lemma ThereAndBack(p: Pool, tokenIn: string, amountIn: nat, minOut: nat, minBack: nat, now: nat, later: nat)
    requires PoolInv(p)
    ensures var r := SwapEffect(p, tokenIn, amountIn, minOut, now);
            r.Done? ==>
              var other := if tokenIn == p.tokenA then p.tokenB else p.tokenA;
              var back := SwapEffect(r.pool, other, r.receipt.out, minBack, later);
              back.Done? ==> back.receipt.out <= amountIn
  {
    var r := SwapEffect(p, tokenIn, amountIn, minOut, now);
    if r.Done? {
      var other := if tokenIn == p.tokenA then p.tokenB else p.tokenA;
      var back := SwapEffect(r.pool, other, r.receipt.out, minBack, later);
      if back.Done? {
        SwapKeepsProduct(p, tokenIn, amountIn, minOut, now);
        SwapKeepsProduct(r.pool, other, r.receipt.out, minBack, later);
        if tokenIn == p.tokenA {
          NoProfit(p.reserveB, p.reserveA, back.pool.reserveB, back.pool.reserveA);
        } else {
          NoProfit(p.reserveA, p.reserveB, back.pool.reserveA, back.pool.reserveB);
        }
      }
    }
  }

  // ---------------------------------------------------------------- liquidity

  lemma UsedAtMostOffered(a: nat, total: nat, reserve: nat, lp: nat, minted: nat, used: nat)
    requires MulDiv(a, total, reserve) == Some(minted) && lp <= minted
    requires MulDiv(lp, reserve, total) == Some(used)
    ensures used <= a
  {
    MulDivIs(a, total, reserve, minted);
    MulDivIs(lp, reserve, total, used);
    MulMonotone(reserve, lp, minted);
    Cancel(used, a, total);
  }

  /** Adding never takes more of either token than was offered. */
  lemma AddTakesAtMostOffered(p: Pool, caller: string, a: nat, b: nat, minLp: nat)
    requires PoolInv(p)
    ensures var r := AddEffect(p, caller, a, b, minLp);
            r.Done? ==> r.receipt.usedA <= a && r.receipt.usedB <= b && minLp <= r.receipt.lp
  {
    var r := AddEffect(p, caller, a, b, minLp);
    if r.Done? {
      var fromA, fromB := MulDiv(a, p.totalLp, p.reserveA).value, MulDiv(b, p.totalLp, p.reserveB).value;
      UsedAtMostOffered(a, p.totalLp, p.reserveA, r.receipt.lp, fromA, r.receipt.usedA);
      UsedAtMostOffered(b, p.totalLp, p.reserveB, r.receipt.lp, fromB, r.receipt.usedB);
    }
  }

  lemma RemovedIsUsed(lp: nat, reserve: nat, total: nat, used: nat, removed: nat)
    requires MulDiv(lp, reserve, total) == Some(used)
    requires MulDiv(lp, reserve + used, total + lp) == Some(removed)
    ensures removed == used
  {
    MulDivIs(lp, reserve, total, used);
    assert lp * (reserve + used) == lp * reserve + lp * used;
    assert used * (total + lp) == used * total + used * lp;
    QuotientUnique(lp * (reserve + used), total + lp, used);
  }

  /** Removing the LP tokens just minted gives back exactly what was taken and restores the pool. */
  lemma AddThenRemoveIsExact(p: Pool, caller: string, a: nat, b: nat, minLp: nat)
    requires PoolInv(p)
    ensures var r := AddEffect(p, caller, a, b, minLp);
            r.Done? ==>
              var back := RemoveEffect(r.pool, caller, r.receipt.lp, 0, 0);
              && !back.Failed?
              && (back.Done? ==>
                    && back.receipt == Removed(r.receipt.usedA, r.receipt.usedB)
                    && back.pool.(shares := p.shares) == p
                    && forall who :: back.pool.ShareOf(who) == p.ShareOf(who))
  {
    var r := AddEffect(p, caller, a, b, minLp);
    if r.Done? {
      var lp, q := r.receipt.lp, r.pool;
      var back := RemoveEffect(q, caller, lp, 0, 0);
      if back.Done? {
        RemovedIsUsed(lp, p.reserveA, p.totalLp, r.receipt.usedA, back.receipt.amountA);
        RemovedIsUsed(lp, p.reserveB, p.totalLp, r.receipt.usedB, back.receipt.amountB);
      }
    }
  }

  // ---------------------------------------------------------------- the value of an LP token

  /** What one side of the pool gains for the other LP tokens, times both totals: negative is a loss. */
  ghost function ValueGain(reserve: nat, total: nat, reserve': nat, total': nat): int {
    reserve' * total - reserve * total'
  }

  lemma AddDilutesBy(lp: nat, reserve: nat, total: nat, used: nat)
    requires MulDiv(lp, reserve, total) == Some(used)
    ensures ValueGain(reserve, total, reserve + used, total + lp) == -(lp * reserve % total)
  {
    assert lp * reserve == used * total + lp * reserve % total;
    assert (reserve + used) * total == reserve * total + used * total;
    assert reserve * (total + lp) == reserve * total + lp * reserve;
  }

  lemma RemoveGains(lp: nat, reserve: nat, total: nat, out: nat)
    requires lp <= total && out <= reserve && MulDiv(lp, reserve, total) == Some(out)
    ensures ValueGain(reserve, total, reserve - out, total - lp) == lp * reserve % total
  {
    assert lp * reserve == out * total + lp * reserve % total;
    assert (reserve - out) * total == reserve * total - out * total;
    assert reserve * (total - lp) == reserve * total - lp * reserve;
  }

  ghost predicate KeepsValueA(p: Pool, q: Pool) {
    ValueGain(p.reserveA, p.totalLp, q.reserveA, q.totalLp) >= 0
  }

  ghost predicate KeepsValueB(p: Pool, q: Pool) {
    ValueGain(p.reserveB, p.totalLp, q.reserveB, q.totalLp) >= 0
  }

  /**
   * Adding rounds the amounts taken down, so it lowers the reserve per LP token of a
   * side unless the total divides that reserve times the LP tokens the offer is worth.
   */
  lemma AddKeepsValueExactlyWhenDivisible(p: Pool, caller: string, a: nat, b: nat, minLp: nat)
    requires PoolInv(p)
    ensures var r, mint := AddEffect(p, caller, a, b, minLp), MintFor(p, a, b);
            r.Done? ==>
              && mint.Some?
              && (KeepsValueA(p, r.pool) <==> mint.value * p.reserveA % p.totalLp == 0)
              && (KeepsValueB(p, r.pool) <==> mint.value * p.reserveB % p.totalLp == 0)
  {
    var r := AddEffect(p, caller, a, b, minLp);
    if r.Done? {
      AddDilutesBy(r.receipt.lp, p.reserveA, p.totalLp, r.receipt.usedA);
      AddDilutesBy(r.receipt.lp, p.reserveB, p.totalLp, r.receipt.usedB);
    }
  }

  /** A pool as created with 2,000 and 2,001, and an offer of 1 and 2 that dilutes its second side. */
  lemma AddingCanDilute()
    ensures var created := CreateEffect("alice", "A", "B", 2000, 2001, None, false);
            && created.Done?
            && var p := created.pool;
               var added := AddEffect(p, "bob", 1, 2, 1);
               PoolInv(p) && added.Done? && KeepsValueA(p, added.pool) && !KeepsValueB(p, added.pool)
  {
    RootIs(4_002_000);
    RootUnique(4_002_000, 2000, Root(4_002_000));
    CreateKeeps("alice", "A", "B", 2000, 2001, None, false);
    var p := CreateEffect("alice", "A", "B", 2000, 2001, None, false).pool;
    var expected := Pool(PoolId("A", "B"), "A", "B", 2000, 2001, 2000, map["alice" := 1000], 30, 0, "alice");
    assert p == expected;
    assert MulDiv(1, 2000, 2000) == Some(1) && MulDiv(2, 2000, 2001) == Some(1) && MulDiv(1, 2001, 2000) == Some(1);
    assert AddEffect(p, "bob", 1, 2, 1).Done?;
  }

  /** Removing never lowers the reserve per LP token of either side. */
  lemma RemoveKeepsValue(p: Pool, caller: string, lp: nat, minA: nat, minB: nat)
    requires PoolInv(p)
    ensures var r := RemoveEffect(p, caller, lp, minA, minB);
            r.Done? ==> KeepsValueA(p, r.pool) && KeepsValueB(p, r.pool)
  {
    var r := RemoveEffect(p, caller, lp, minA, minB);
    if r.Done? {
      RemoveGains(lp, p.reserveA, p.totalLp, r.receipt.amountA);
      RemoveGains(lp, p.reserveB, p.totalLp, r.receipt.amountB);
    }
  }

  // ---------------------------------------------------------------- quotes

  lemma PriceArithmetic(rin: nat, rout: nat, amountIn: nat, after: nat, out: nat, scale: nat, spot: nat, exec: nat)
    requires NotAboveExact(after, rin, rout, out) && after <= amountIn && rin > 0 && amountIn > 0
    requires spot * rin <= rout * scale < spot * rin + rin
    requires exec * amountIn <= out * scale
    ensures exec <= spot
  {
    MulMonotone(rout, after, amountIn);
    assert out * (rin + after) == out * rin + out * after;
    assert out * rin <= amountIn * rout;
    ScaledQuotients(out, rin, amountIn, rout, scale, exec);
    if spot < exec { MulMonotone(rin, spot + 1, exec); }
  }

  lemma ScaledQuotients(out: nat, rin: nat, amountIn: nat, rout: nat, scale: nat, exec: nat)
    requires out * rin <= amountIn * rout && exec * amountIn <= out * scale && amountIn > 0
    ensures exec * rin <= rout * scale
  {
    MulMonotone(scale, out * rin, amountIn * rout);
    MulMonotone(rin, exec * amountIn, out * scale);
    assert (exec * rin) * amountIn == (exec * amountIn) * rin;
    assert (out * scale) * rin == (out * rin) * scale;
    assert (amountIn * rout) * scale == (rout * scale) * amountIn;
    Cancel(exec * rin, rout * scale, amountIn);
  }

  /** The subtraction of the execution price from the spot price never underflows. */
  lemma QuoteNeverUnderflows(p: Pool, tokenIn: string, amountIn: nat)
    requires PoolInv(p)
    ensures var q := QuotePrices(p, tokenIn, amountIn); q.Some? ==> q.value.exec <= q.value.spot
  {
    var q := QuotePrices(p, tokenIn, amountIn);
    if q.Some? && amountIn > 0 {
      var (rin, rout) := if tokenIn == p.tokenA then (p.reserveA, p.reserveB) else (p.reserveB, p.reserveA);
      var v := q.value;
      PricedNotAboveExact(amountIn, p.feeBps, rin, rout, v.out, v.fee);
      MulDivIs(rout, LP_PRECISION, rin, v.spot);
      MulDivIs(v.out, LP_PRECISION, amountIn, v.exec);
      PriceArithmetic(rin, rout, amountIn, amountIn - v.fee, v.out, LP_PRECISION, v.spot, v.exec);
    }
  }
}
