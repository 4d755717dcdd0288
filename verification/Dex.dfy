/** The constant-product exchange: pools, the calls that change them, and the state they live in. */
module Dex {
  import opened Words
  import opened Text
  import opened Isqrt
  import opened DexMath

  datatype Pool = Pool(
    id: string, tokenA: string, tokenB: string,
    reserveA: nat, reserveB: nat, totalLp: nat, shares: map<string, nat>,
    feeBps: nat, lastTrade: nat, creator: string)
  {
    function ShareOf(who: string): nat {
      if who in shares then shares[who] else 0
    }
  }

  datatype Receipt =
    | Created(lp: nat)
    | Added(lp: nat, usedA: nat, usedB: nat)
    | Removed(amountA: nat, amountB: nat)
    | Swapped(out: nat, fee: nat, impactBps: nat)

  /** A call fails with an error response, traps on an overflow, or is done. */
  datatype Outcome = Failed | Trapped | Done(pool: Pool, receipt: Receipt)

  predicate Fits(x: nat) {
    x <= U128_MAX
  }

  /** Two tokens name one pool, whichever comes first. */
  function PoolId(tokenA: string, tokenB: string): string {
    if Less(tokenA, tokenB) then "POOL:" + (tokenA + ":" + tokenB) else "POOL:" + (tokenB + ":" + tokenA)
  }

  // ---------------------------------------------------------------- the effect of a call on one pool

  ghost function CreateEffect(caller: string, tokenA: string, tokenB: string, a: nat, b: nat, fee: Option<nat>,
                              exists_: bool): Outcome
  {
    var feeBps := if fee.Some? then fee.value else 30;
    if tokenA == tokenB || a == 0 || b == 0 || exists_ then Failed
    else if Root(Min(a * b, U128_MAX)) <= MINIMUM_LIQUIDITY || feeBps > 1000 then Failed
    else
      var total := Root(Min(a * b, U128_MAX));
      var lp := total - MINIMUM_LIQUIDITY;
      Done(Pool(PoolId(tokenA, tokenB), tokenA, tokenB, a, b, total, map[caller := lp], feeBps, 0, caller), Created(lp))
  }

  /** LP tokens for an offer of `a` and `b`: proportional to the scarcer side. */
  function MintFor(p: Pool, a: nat, b: nat): Option<nat> {
    var fromA := if p.reserveA > 0 then MulDiv(a, p.totalLp, p.reserveA) else Some(0);
    var fromB := if p.reserveB > 0 then MulDiv(b, p.totalLp, p.reserveB) else Some(0);
    if fromA.Some? && fromB.Some? then Some(Min(fromA.value, fromB.value)) else None
  }

  function AddEffect(p: Pool, caller: string, a: nat, b: nat, minLp: nat): Outcome {
    if a == 0 || b == 0 then Failed
    else
      match MintFor(p, a, b)
      case None => Trapped
      case Some(lp) =>
        if lp < minLp then Failed
        else
          var usedA := MulDiv(lp, p.reserveA, p.totalLp);
          var usedB := MulDiv(lp, p.reserveB, p.totalLp);
          if usedA.None? || usedB.None? then Trapped
          else if !Fits(p.reserveA + usedA.value) || !Fits(p.reserveB + usedB.value) then Trapped
          else if !Fits(p.totalLp + lp) || !Fits(p.ShareOf(caller) + lp) then Trapped
          else
            Done(p.(reserveA := p.reserveA + usedA.value, reserveB := p.reserveB + usedB.value,
                    totalLp := p.totalLp + lp, shares := p.shares[caller := p.ShareOf(caller) + lp]),
                 Added(lp, usedA.value, usedB.value))
  }

  function SharesAfterRemoval(p: Pool, caller: string, lp: nat): map<string, nat>
    requires lp <= p.ShareOf(caller)
  {
    if p.ShareOf(caller) == lp then p.shares - {caller} else p.shares[caller := p.ShareOf(caller) - lp]
  }

  function RemoveEffect(p: Pool, caller: string, lp: nat, minA: nat, minB: nat): Outcome {
    if p.ShareOf(caller) < lp || p.totalLp == 0 then Failed
    else
      var outA := MulDiv(lp, p.reserveA, p.totalLp);
      var outB := MulDiv(lp, p.reserveB, p.totalLp);
      if outA.None? || outB.None? then Trapped
      else if outA.value < minA || outB.value < minB then Failed
      else if p.reserveA < outA.value || p.reserveB < outB.value || p.totalLp < lp then Trapped
      else
        Done(p.(reserveA := p.reserveA - outA.value, reserveB := p.reserveB - outB.value,
                totalLp := p.totalLp - lp, shares := SharesAfterRemoval(p, caller, lp)),
             Removed(outA.value, outB.value))
  }

  /** `(output, fee)` for an amount put in. */
  function Priced(amountIn: nat, feeBps: nat, reserveIn: nat, reserveOut: nat): Option<(nat, nat)> {
    match DeductFee(amountIn, feeBps)
    case None => None
    case Some((after, fee)) =>
      match ComputeOutput(after, reserveIn, reserveOut)
      case None => None
      case Some(out) => Some((out, fee))
  }

  function SwapEffect(p: Pool, tokenIn: string, amountIn: nat, minOut: nat, now: nat): Outcome {
    if amountIn == 0 || (tokenIn != p.tokenA && tokenIn != p.tokenB) then Failed
    else
      var (rin, rout) := if tokenIn == p.tokenA then (p.reserveA, p.reserveB) else (p.reserveB, p.reserveA);
      match Priced(amountIn, p.feeBps, rin, rout)
      case None => Trapped
      case Some((out, fee)) =>
        if out < minOut || out == 0 || out >= rout then Failed
        else if !Fits(rin + amountIn) then Trapped
        else
          var impact := MulDiv(out, BPS_DENOMINATOR, rout);
          if impact.None? then Trapped
          else
            Done(if tokenIn == p.tokenA
                 then p.(reserveA := rin + amountIn, reserveB := rout - out, lastTrade := now)
                 else p.(reserveB := rin + amountIn, reserveA := rout - out, lastTrade := now),
                 Swapped(out, fee, impact.value))
  }

  /** `(output, fee, spot price, execution price)`, the prices scaled by 10^12; the subtraction is left to `Quote`. */
  datatype Prices = Prices(out: nat, fee: nat, spot: nat, exec: nat)

  function QuotePrices(p: Pool, tokenIn: string, amountIn: nat): Option<Prices> {
    var (rin, rout) := if tokenIn == p.tokenA then (p.reserveA, p.reserveB) else (p.reserveB, p.reserveA);
    match Priced(amountIn, p.feeBps, rin, rout)
    case None => None
    case Some((out, fee)) =>
      var spot := if rin > 0 then MulDiv(rout, LP_PRECISION, rin) else Some(0);
      var exec := if amountIn > 0 then MulDiv(out, LP_PRECISION, amountIn) else Some(0);
      if spot.None? || exec.None? then None else Some(Prices(out, fee, spot.value, exec.value))
  }

  // ---------------------------------------------------------------- calls on the whole state

  datatype Action =
    | CreatePool(tokenA: string, tokenB: string, amountA: nat, amountB: nat, fee: Option<nat>)
    | AddLiquidity(poolId: string, amountA: nat, amountB: nat, minLp: nat)
    | RemoveLiquidity(poolId: string, lp: nat, minA: nat, minB: nat)
    | Swap(poolId: string, tokenIn: string, amountIn: nat, minOut: nat, deadline: nat)
  {
    function Target(): string {
      if CreatePool? then PoolId(tokenA, tokenB) else poolId
    }
  }

  datatype Call = Call(caller: string, action: Action, now: nat)

  datatype State = State(pools: map<string, Pool>, count: nat)

  ghost function CallEffect(s: State, c: Call): Outcome {
    var id := c.action.Target();
    match c.action
    case CreatePool(tokenA, tokenB, a, b, fee) =>
      var r := CreateEffect(c.caller, tokenA, tokenB, a, b, fee, id in s.pools);
      if r.Done? && s.count == U64_MAX then Trapped else r
    case AddLiquidity(_, a, b, minLp) =>
      if id in s.pools then AddEffect(s.pools[id], c.caller, a, b, minLp) else Failed
    case RemoveLiquidity(_, lp, minA, minB) =>
      if id in s.pools then RemoveEffect(s.pools[id], c.caller, lp, minA, minB) else Failed
    case Swap(_, tokenIn, amountIn, minOut, deadline) =>
      if deadline > 0 && c.now > deadline then Failed
      else if id in s.pools then SwapEffect(s.pools[id], tokenIn, amountIn, minOut, c.now)
      else Failed
  }

  /** A call that fails or traps changes nothing. */
  ghost function After(s: State, c: Call): State {
    var r := CallEffect(s, c);
    if r.Done? then
      State(s.pools[c.action.Target() := r.pool], if c.action.CreatePool? then s.count + 1 else s.count)
    else s
  }

  ghost function Run(s: State, calls: seq<Call>): State
    decreases |calls|
  {
    if calls == [] then s else Run(After(s, calls[0]), calls[1..])
  }

  const EMPTY := State(map[], 0)
}
