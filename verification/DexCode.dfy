/** The exchange as the contract holds it: `DexState`, updated in place. */
module DexCode {
  import opened Words
  import opened Text
  import opened Isqrt
  import opened DexMath
  import opened Dex
  import opened DexRuns
  import opened DexValue

  /** The response to a call; an aborted call has hit an overflow. */
  datatype Response = Rejected | Aborted | Accepted(receipt: Receipt)

  ghost predicate Answers(r: Response, o: Outcome) {
    match o
    case Failed => r == Rejected
    case Trapped => r == Aborted
    case Done(_, receipt) => r == Accepted(receipt)
  }

  datatype QuoteResponse = NoPool | QuoteAborted | Quoted(out: nat, fee: nat, spot: nat, impactBps: nat)

  /** A product in the quote does not fit a u128. */
  ghost predicate QuoteOverflows(p: Pool, tokenIn: string, amountIn: nat) {
    var q := QuotePrices(p, tokenIn, amountIn);
    q.None? || (q.value.spot > 0 && (q.value.spot - q.value.exec) * BPS_DENOMINATOR > U128_MAX)
  }

  class DexState {
    var pools: map<string, Pool>
    var poolCount: nat

    ghost function Value(): State
      reads this
    {
      State(pools, poolCount)
    }

    constructor ()
      ensures Value() == EMPTY
    {
      pools := map[];
      poolCount := 0;
    }

    method CreatePool(caller: string, tokenA: string, tokenB: string, amountA: u128, amountB: u128, fee: Option<nat>)
      returns (r: Response)
      modifies this
      ensures var c := Call(caller, Action.CreatePool(tokenA, tokenB, amountA, amountB, fee), 0);
              Value() == After(old(Value()), c) && Answers(r, CallEffect(old(Value()), c))
    {
      if tokenA == tokenB || amountA == 0 || amountB == 0 {
        return Rejected;
      }
      var id := PoolId(tokenA, tokenB);
      if id in pools {
        return Rejected;
      }
      var n: u128 := Min(amountA * amountB, U128_MAX);
      var initialLp := IsqrtHalf(n);
      SmallRoots();
      if initialLp <= MINIMUM_LIQUIDITY {
        return Rejected;
      }
      var lp := initialLp - MINIMUM_LIQUIDITY;
      var feeBps := if fee.Some? then fee.value else 30;
      if feeBps > 1000 {
        return Rejected;
      }
      if poolCount == U64_MAX {
        return Aborted;
      }
      var pool := Pool(id, tokenA, tokenB, amountA, amountB, initialLp, map[caller := lp], feeBps, 0, caller);
      pools := pools[id := pool];
      poolCount := poolCount + 1;
      r := Accepted(Created(lp));
    }

    method AddLiquidity(caller: string, poolId: string, amountA: u128, amountB: u128, minLp: u128)
      returns (r: Response)
      modifies this`pools
      ensures var c := Call(caller, Action.AddLiquidity(poolId, amountA, amountB, minLp), 0);
              Value() == After(old(Value()), c) && Answers(r, CallEffect(old(Value()), c))
    {
      if poolId !in pools {
        return Rejected;
      }
      var pool := pools[poolId];
      if amountA == 0 || amountB == 0 {
        return Rejected;
      }
      var fromA := if pool.reserveA > 0 then MulDiv(amountA, pool.totalLp, pool.reserveA) else Some(0);
      var fromB := if pool.reserveB > 0 then MulDiv(amountB, pool.totalLp, pool.reserveB) else Some(0);
      if fromA.None? || fromB.None? {
        return Aborted;
      }
      var lp := Min(fromA.value, fromB.value);
      if lp < minLp {
        return Rejected;
      }
      var usedA := MulDiv(lp, pool.reserveA, pool.totalLp);
      var usedB := MulDiv(lp, pool.reserveB, pool.totalLp);
      if usedA.None? || usedB.None? {
        return Aborted;
      }
      var reserveA, reserveB := pool.reserveA + usedA.value, pool.reserveB + usedB.value;
      var total, share := pool.totalLp + lp, pool.ShareOf(caller) + lp;
      if !Fits(reserveA) || !Fits(reserveB) || !Fits(total) || !Fits(share) {
        return Aborted;
      }
      pools := pools[poolId := pool.(reserveA := reserveA, reserveB := reserveB, totalLp := total,
                                     shares := pool.shares[caller := share])];
      r := Accepted(Added(lp, usedA.value, usedB.value));
    }

    method RemoveLiquidity(caller: string, poolId: string, lp: u128, minA: u128, minB: u128) returns (r: Response)
      modifies this`pools
      ensures var c := Call(caller, Action.RemoveLiquidity(poolId, lp, minA, minB), 0);
              Value() == After(old(Value()), c) && Answers(r, CallEffect(old(Value()), c))
    {
      if poolId !in pools {
        return Rejected;
      }
      var pool := pools[poolId];
      if pool.ShareOf(caller) < lp || pool.totalLp == 0 {
        return Rejected;
      }
      var outA := MulDiv(lp, pool.reserveA, pool.totalLp);
      var outB := MulDiv(lp, pool.reserveB, pool.totalLp);
      if outA.None? || outB.None? {
        return Aborted;
      }
      if outA.value < minA || outB.value < minB {
        return Rejected;
      }
      if pool.reserveA < outA.value || pool.reserveB < outB.value || pool.totalLp < lp {
        return Aborted;
      }
      var reserveA: nat, reserveB: nat := pool.reserveA - outA.value, pool.reserveB - outB.value;
      var total: nat := pool.totalLp - lp;
      var shares := pool.shares[caller := pool.ShareOf(caller) - lp];
      if shares[caller] == 0 {
        shares := shares - {caller};
        assert shares == pool.shares - {caller};
      }
      pools := pools[poolId := pool.(reserveA := reserveA, reserveB := reserveB, totalLp := total, shares := shares)];
      r := Accepted(Removed(outA.value, outB.value));
    }

    method Swap(poolId: string, tokenIn: string, amountIn: u128, minOut: u128, deadline: u64, now: u64, caller: string)
      returns (r: Response)
      modifies this`pools
      ensures var c := Call(caller, Action.Swap(poolId, tokenIn, amountIn, minOut, deadline), now);
              Value() == After(old(Value()), c) && Answers(r, CallEffect(old(Value()), c))
    {
      if deadline > 0 && now > deadline {
        return Rejected;
      }
      if poolId !in pools {
        return Rejected;
      }
      var pool := pools[poolId];
      if amountIn == 0 {
        return Rejected;
      }
      var aToB, bToA := tokenIn == pool.tokenA, tokenIn == pool.tokenB;
      if !aToB && !bToA {
        return Rejected;
      }
      var (reserveIn, reserveOut) := if aToB then (pool.reserveA, pool.reserveB) else (pool.reserveB, pool.reserveA);
      var priced := Priced(amountIn, pool.feeBps, reserveIn, reserveOut);
      if priced.None? {
        return Aborted;
      }
      var (out, fee) := priced.value;
      if out < minOut || out == 0 || out >= reserveOut {
        return Rejected;
      }
      var impact := MulDiv(out, BPS_DENOMINATOR, reserveOut);
      if !Fits(reserveIn + amountIn) || impact.None? {
        return Aborted;
      }
      if aToB {
        pool := pool.(reserveA := pool.reserveA + amountIn, reserveB := pool.reserveB - out);
      } else {
        pool := pool.(reserveB := pool.reserveB + amountIn, reserveA := pool.reserveA - out);
      }
      pools := pools[poolId := pool.(lastTrade := now)];
      r := Accepted(Swapped(out, fee, impact.value));
    }

    /** Prices a swap without making it. Any token that is not the pool's first is taken for the second. */
    method Quote(poolId: string, tokenIn: string, amountIn: u128) returns (r: QuoteResponse)
      requires poolId in pools ==> PoolInv(pools[poolId])
      ensures r.NoPool? <==> poolId !in pools
      ensures r.QuoteAborted? <==> poolId in pools && QuoteOverflows(pools[poolId], tokenIn, amountIn)
      ensures r.Quoted? ==>
                var q := QuotePrices(pools[poolId], tokenIn, amountIn);
                && q.Some? && r.out == q.value.out && r.fee == q.value.fee && r.spot == q.value.spot
                && (r.spot > 0 ==> r.impactBps * r.spot <= (r.spot - q.value.exec) * BPS_DENOMINATOR)
                && (r.spot > 0 ==> (r.spot - q.value.exec) * BPS_DENOMINATOR < r.impactBps * r.spot + r.spot)
                && (r.spot == 0 ==> r.impactBps == 0)
    {
      if poolId !in pools {
        return NoPool;
      }
      var pool := pools[poolId];
      QuoteNeverUnderflows(pool, tokenIn, amountIn);
      var prices := QuotePrices(pool, tokenIn, amountIn);
      if prices.None? {
        return QuoteAborted;
      }
      var q := prices.value;
      if q.spot == 0 {
        return Quoted(q.out, q.fee, q.spot, 0);
      }
      var drop: nat := q.spot - q.exec;
      var impact := MulDiv(drop, BPS_DENOMINATOR, q.spot);
      if impact.None? {
        return QuoteAborted;
      }
      MulDivIs(drop, BPS_DENOMINATOR, q.spot, impact.value);
      r := Quoted(q.out, q.fee, q.spot, impact.value);
    }
  }
}
