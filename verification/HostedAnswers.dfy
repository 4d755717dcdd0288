/** What the deployed exchange answers to the strings it is called with, in the numbers of the pools it stores. */
module HostedAnswers {
  import opened Words
  import opened Storage
  import opened Dex
  import opened DexMath
  import opened DexRuns
  import opened DexAnswers
  import opened DexCode
  import opened DexStore
  import opened DexEntries
  import opened DexContract
  import opened DexHosted
  import opened DexTexts

  /** The store stands for `s`, and the exchange is set up. */
  ghost predicate Holds(e: Entries, s: State) {
    Stores(e, s) && Inv(s) && Small(s) && Str(e, DexKey(DexInit)) == "1"
  }

  /** The call `a`, written down by `caller` at `now`, is answered `r` and leaves `e'`. */
  ghost predicate Called(e: Entries, e': Entries, a: Action, caller: string, now: nat, r: Response) {
    Hosts(e, e', Decoded(ExportOf(a), Written(a)), caller, now, r)
  }

  /** A call with missing arguments or names, or before the exchange is set up, is rejected and changes nothing. */
  lemma RejectedOutright(e: Entries, e': Entries, x: Export, args: seq<string>, caller: string, now: nat, r: Response)
    requires Hosts(e, e', Decoded(x, args), caller, now, r)
    requires || Str(e, DexKey(DexInit)) != "1"
             || |args| < (if x == SwapExport then 5 else 4) || args[0] == ""
             || (x != AddLiquidityExport && x != RemoveLiquidityExport && args[1] == "")
    ensures r == Rejected && e' == e
  {
    UndecodedExactly(x, args);
    hide Decoded, StoredEffect, Carried, Str;
  }

  /** The call can be made: written down, by an address without a colon, at a time that fits. */
  predicate Makes(a: Action, caller: string, now: nat) {
    Writable(a) && Sendable(Call(caller, a, now))
  }

  /**
   * Any other call is answered by what it does to the numbers, but that a pool whose initial
   * product does not fit u128 is refused; and unless the two part ways the numbers are kept.
   */
  lemma AnsweredByNumbers(e: Entries, e': Entries, s: State, a: Action, caller: string, now: nat, r: Response)
    requires Holds(e, s) && Makes(a, caller, now) && Called(e, e', a, caller, now, r)
    ensures var c := Call(caller, a, now);
            && (RefusedHereOnly(s, c) ==> r == Rejected)
            && (!RefusedHereOnly(s, c) ==>
                  && (r.Accepted? <==> CallEffect(s, c).Done?) && (r == Aborted <==> CallEffect(s, c).Trapped?)
                  && (r.Accepted? ==> r.receipt == CallEffect(s, c).receipt))
            && (Stores(e', After(s, c)) <==> !PartsWays(s, c))
  {
    var c := Call(caller, a, now);
    hide Holds, Makes, Called, Answers, SameOutcome, StoredEffect, CallEffect, Carried, After, Stores, RefusedHereOnly;
    hide PartsWays, Sendable, Writable, Agreeable, Small, Inv;
    MakesIs(a, caller, now);
    HoldsIs(e, s);
    CalledIs(e, e', a, caller, now, r);
    RefusedIsNotAgreeable(s, c);
    if RefusedHereOnly(s, c) { RefusedOutright(e, c); }
    AnswersAgreeExactly(e, s, c);
    CarriedDecodesExactly(e, s, c);
    SameAnswers(r, StoredEffect(e, c), CallEffect(s, c), caller);
  }

  lemma HoldsIs(e: Entries, s: State)
    requires Holds(e, s)
    ensures Stores(e, s) && Inv(s) && Small(s) && Initialized(e)
  {
  }

  lemma CalledIs(e: Entries, e': Entries, a: Action, caller: string, now: nat, r: Response)
    requires Initialized(e) && Writable(a) && Called(e, e', a, caller, now, r)
    ensures var c := Call(caller, a, now); Answers(r, StoredEffect(e, c)) && e' == Carried(e, c)
  {
    WrittenIsDecoded(a);
    hide Decoded, Written, StoredEffect, Carried;
  }

  lemma SameAnswers(r: Response, o: Outcome, n: Outcome, who: string)
    requires Answers(r, o)
    ensures o == Failed ==> r == Rejected
    ensures SameOutcome(o, n, who) ==>
              && (r.Accepted? <==> n.Done?) && (r == Aborted <==> n.Trapped?)
              && (r.Accepted? ==> r.receipt == n.receipt)
  {
    hide Same;
  }

  lemma MakesIs(a: Action, caller: string, now: nat)
    requires Makes(a, caller, now)
    ensures Writable(a) && Sendable(Call(caller, a, now))
  {
  }

  lemma RefusedIsNotAgreeable(s: State, c: Call)
    ensures RefusedHereOnly(s, c) ==> !Agreeable(c)
  {
  }

  lemma OnlyCreationsAreRefused(s: State, c: Call)
    ensures !c.action.CreatePool? ==> !RefusedHereOnly(s, c)
    ensures c.action.Swap? ==> !PartsWays(s, c)
  {
  }

  /**
   * A swap written down for the deployed exchange is accepted, with this output and fee, if
   * and only if its deadline is kept and the stored pool's numbers allow it; they are kept.
   */
  lemma SwapAnsweredExactly(e: Entries, e': Entries, s: State, id: string, tokenIn: string, amountIn: nat,
                            minOut: nat, deadline: nat, caller: string, now: nat, r: Response, out: nat, fee: nat)
    requires var a := Action.Swap(id, tokenIn, amountIn, minOut, deadline);
             Holds(e, s) && Makes(a, caller, now) && Called(e, e', a, caller, now, r)
    ensures r.Accepted? && r.receipt.Swapped? && r.receipt.out == out && r.receipt.fee == fee <==>
            && id in s.pools && (deadline == 0 || now <= deadline)
            && Swaps(s.pools[id], tokenIn, amountIn, minOut, out, fee)
    ensures Stores(e', After(s, Call(caller, Action.Swap(id, tokenIn, amountIn, minOut, deadline), now)))
  {
    var a := Action.Swap(id, tokenIn, amountIn, minOut, deadline);
    AnsweredByNumbers(e, e', s, a, caller, now, r);
    OnlyCreationsAreRefused(s, Call(caller, a, now));
    SwapCallExactly(s, Call(caller, a, now), out, fee);
    hide Holds, Makes, PartsWays, RefusedHereOnly, Called, CallEffect, After, Stores, Swaps, Traded;
  }

  /** An offer is accepted for these LP tokens and amounts if and only if the stored pool's numbers allow it. */
  lemma AddAnsweredExactly(e: Entries, e': Entries, s: State, a: Action, caller: string, now: nat, r: Response,
                           lp: nat, usedA: nat, usedB: nat)
    requires a.AddLiquidity? && Holds(e, s) && Makes(a, caller, now) && Called(e, e', a, caller, now, r)
    ensures r == Accepted(Added(lp, usedA, usedB)) <==>
            && a.poolId in s.pools
            && Adds(s.pools[a.poolId], a.amountA, a.amountB, a.minLp, lp, usedA, usedB)
  {
    AnsweredByNumbers(e, e', s, a, caller, now, r);
    OnlyCreationsAreRefused(s, Call(caller, a, now));
    HoldsIs(e, s);
    AddCallExactly(s, Call(caller, a, now), lp, usedA, usedB);
    hide Holds, Makes, PartsWays, RefusedHereOnly, Called, CallEffect, After, Stores, Adds, Inv;
  }

  /** A removal pays these amounts if and only if the stored pool's numbers and the caller's share allow it. */
  lemma RemoveAnsweredExactly(e: Entries, e': Entries, s: State, a: Action, caller: string, now: nat, r: Response,
                              outA: nat, outB: nat)
    requires a.RemoveLiquidity? && Holds(e, s) && Makes(a, caller, now) && Called(e, e', a, caller, now, r)
    ensures r == Accepted(Removed(outA, outB)) <==>
            a.poolId in s.pools && Removes(s.pools[a.poolId], caller, a.lp, a.minA, a.minB, outA, outB)
  {
    AnsweredByNumbers(e, e', s, a, caller, now, r);
    OnlyCreationsAreRefused(s, Call(caller, a, now));
    HoldsIs(e, s);
    RemoveCallExactly(s, Call(caller, a, now), outA, outB);
    hide Holds, Makes, PartsWays, RefusedHereOnly, Called, CallEffect, After, Stores, Removes, Inv;
  }

  lemma SoundOversized(s: State, c: Call, total: nat)
    requires c.action.CreatePool? && IsInitial(total, c.action.amountA, c.action.amountB) && Writable(c.action)
    ensures var CreatePool(tokenA, tokenB, a, b, fee) := c.action;
            a * b <= U128_MAX ==> !RefusedHereOnly(s, c)
    ensures var CreatePool(tokenA, tokenB, a, b, fee) := c.action;
            (a * b > U128_MAX && tokenA != tokenB && PoolId(tokenA, tokenB) !in s.pools
             && (fee.Some? ==> fee.value <= 1_000)) ==> RefusedHereOnly(s, c)
  {
    hide PoolId;
  }

  /** A pool is made if and only if tokens and fee are in order, and the product of the amounts fits and is enough. */
  lemma CreateAnsweredExactly(e: Entries, e': Entries, s: State, a: Action, caller: string, now: nat, r: Response,
                              total: nat)
    requires a.CreatePool? && Holds(e, s) && Makes(a, caller, now) && Called(e, e', a, caller, now, r)
    requires IsInitial(total, a.amountA, a.amountB)
    ensures r.Accepted? <==>
            && a.tokenA != a.tokenB && PoolId(a.tokenA, a.tokenB) !in s.pools && (a.fee.Some? ==> a.fee.value <= 1_000)
            && a.amountA > 0 && a.amountB > 0 && a.amountA * a.amountB <= U128_MAX && total > 1_000
            && s.count != 0xFFFF_FFFF_FFFF_FFFF
    ensures r.Accepted? ==> r.receipt == Created(total - 1_000)
  {
    var c := Call(caller, a, now);
    hide Holds, Called, CallEffect, After, Stores, PartsWays, RefusedHereOnly, PoolId, IsInitial, Sendable, Writable;
    AnsweredByNumbers(e, e', s, a, caller, now, r);
    SoundOversized(s, c, total);
    CreateCallExactly(s, c, total);
  }
}
