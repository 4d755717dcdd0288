/** The deployed exchange: its exported calls, reading and writing the string-keyed store. */
module DexContract {
  import opened Words
  import opened Text
  import opened Decimal
  import opened Storage
  import opened Isqrt
  import opened DexMath
  import opened Dex
  import opened DexCode
  import opened DexRuns
  import opened DexEntries
  import opened DexStore

  // ---------------------------------------------------------------- arguments

  /** An argument that has to be there and not be empty. */
  function TextArg(args: seq<string>, i: nat): Option<string> {
    if i < |args| && args[i] != "" then Some(args[i]) else None
  }

  /** A numeric argument: anything that is not a number counts as 0. */
  ghost function NumArg(args: seq<string>, i: nat, limit: nat): Option<nat> {
    if i < |args| then Some(Parsed(args[i], limit)) else None
  }

  ghost function CreateArgs(args: seq<string>): Option<Action> {
    var fee := if TextArg(args, 4).Some? then NumArg(args, 4, U128_MAX) else None;
    if TextArg(args, 0).None? || TextArg(args, 1).None? || |args| < 4 then None
    else
      Some(Action.CreatePool(args[0], args[1], NumArg(args, 2, U128_MAX).value, NumArg(args, 3, U128_MAX).value, fee))
  }

  ghost function AddArgs(args: seq<string>): Option<Action> {
    if TextArg(args, 0).None? || |args| < 4 then None
    else
      Some(Action.AddLiquidity(args[0], NumArg(args, 1, U128_MAX).value, NumArg(args, 2, U128_MAX).value,
                               NumArg(args, 3, U128_MAX).value))
  }

  ghost function RemoveArgs(args: seq<string>): Option<Action> {
    if TextArg(args, 0).None? || |args| < 4 then None
    else
      Some(Action.RemoveLiquidity(args[0], NumArg(args, 1, U128_MAX).value, NumArg(args, 2, U128_MAX).value,
                                  NumArg(args, 3, U128_MAX).value))
  }

  ghost function SwapArgs(args: seq<string>): Option<Action> {
    if TextArg(args, 0).None? || TextArg(args, 1).None? || |args| < 5 then None
    else
      Some(Action.Swap(args[0], args[1], NumArg(args, 2, U128_MAX).value, NumArg(args, 3, U128_MAX).value,
                       NumArg(args, 4, U64_MAX).value))
  }

  ghost predicate Initialized(e: Entries) {
    Str(e, DexKey(DexInit)) == "1"
  }

  /** The answer `r` and the new entries `e'` are those of the decoded call. */
  ghost predicate Performs(e: Entries, e': Entries, action: Option<Action>, caller: string, now: nat, r: Response) {
    if !Initialized(e) || action.None? then r == Rejected && e' == e
    else
      var c := Call(caller, action.value, now);
      Answers(r, StoredEffect(e, c)) && e' == StoredAfter(e, c)
  }

  lemma AddedPool(p: Pool, caller: string, a: nat, b: nat, minLp: nat)
    ensures var r := AddEffect(p, caller, a, b, minLp);
            r.Done? ==>
              && r.receipt.Added? && LiquidityOnly(p, r.pool)
              && r.pool.reserveA == p.reserveA + r.receipt.usedA <= U128_MAX
              && r.pool.reserveB == p.reserveB + r.receipt.usedB <= U128_MAX
              && r.pool.totalLp == p.totalLp + r.receipt.lp <= U128_MAX
              && r.pool.ShareOf(caller) == p.ShareOf(caller) + r.receipt.lp <= U128_MAX
  {
  }

  lemma RemovedPool(p: Pool, caller: string, lp: nat, minA: nat, minB: nat)
    ensures var r := RemoveEffect(p, caller, lp, minA, minB);
            r.Done? ==>
              && r.receipt.Removed? && LiquidityOnly(p, r.pool)
              && r.pool.reserveA == p.reserveA - r.receipt.amountA
              && r.pool.reserveB == p.reserveB - r.receipt.amountB
              && r.pool.totalLp == p.totalLp - lp
              && r.pool.ShareOf(caller) == p.ShareOf(caller) - lp
  {
  }

  lemma SwappedPool(p: Pool, tokenIn: string, amountIn: nat, minOut: nat, now: nat, r: Outcome)
    requires r == SwapEffect(p, tokenIn, amountIn, minOut, now)
    ensures r.Done? ==>
              && r.receipt.Swapped? && TradeOnly(p, r.pool) && r.pool.lastTrade == now
              && if tokenIn == p.tokenA
                 then
                   && r.pool.reserveA == p.reserveA + amountIn <= U128_MAX
                   && r.pool.reserveB == p.reserveB - r.receipt.out
                 else
                   && r.pool.reserveB == p.reserveB + amountIn <= U128_MAX
                   && r.pool.reserveA == p.reserveA - r.receipt.out
  {
  }

  lemma SwapPerforms(e: Entries, e': Entries, args: seq<string>, caller: string, now: nat, r: Response)
    requires SwapArgs(args).Some? && Initialized(e)
    requires var a := SwapArgs(args).value;
             var effect := SwapEffect(PoolSeen(e, a.poolId, caller), a.tokenIn, a.amountIn, a.minOut, now);
             && Exists(e, a.poolId) && !(a.deadline > 0 && now > a.deadline)
             && Answers(r, effect)
             && e' == if effect.Done? then AfterSwap(e, effect.pool, a.tokenIn == effect.pool.tokenA) else e
    ensures Performs(e, e', SwapArgs(args), caller, now, r)
  {
    hide Str, Num, Put, SwapEffect, AfterSwap;
  }

  lemma RemovePerforms(e: Entries, e': Entries, args: seq<string>, caller: string, r: Response)
    requires RemoveArgs(args).Some? && Initialized(e)
    requires var a := RemoveArgs(args).value;
             var effect := RemoveEffect(PoolSeen(e, a.poolId, caller), caller, a.lp, a.minA, a.minB);
             && Exists(e, a.poolId)
             && Answers(r, effect) && e' == if effect.Done? then AfterRemove(e, effect.pool, caller) else e
    ensures Performs(e, e', RemoveArgs(args), caller, 0, r)
  {
  }

  class DexContract {
    const store: KeyValueStore

    constructor (store: KeyValueStore)
      ensures this.store == store
    {
      this.store := store;
    }

    method Init(caller: string) returns (ok: bool)
      requires store.Valid()
      modifies store
      ensures store.Valid()
      ensures ok <==> !old(Initialized(store.entries))
      ensures !ok ==> store.entries == old(store.entries)
      ensures ok ==> store.entries == WithSettings(old(store.entries), caller)
    {
      var init := store.GetStr(DexKey(DexInit));
      if init == "1" {
        return false;
      }
      store.SetStr(DexKey(DexInit), "1");
      store.SetStr(DexKey(DexOwner), caller);
      store.SetNum(DexKey(PoolCount), 0);
      ok := true;
    }

    method PoolExists(id: string) returns (found: bool)
      requires store.Valid()
      ensures found == Exists(store.entries, id)
    {
      var token := store.GetStr(PoolKey(id, TokenA));
      found := token != "";
    }

    method IsInitialized() returns (ok: bool)
      requires store.Valid()
      ensures ok == Initialized(store.entries)
    {
      var init := store.GetStr(DexKey(DexInit));
      ok := init == "1";
    }

    method CreatePool(caller: string, args: seq<string>) returns (r: Response)
      requires store.Valid()
      modifies store
      ensures store.Valid()
      ensures Performs(old(store.entries), store.entries, CreateArgs(args), caller, 0, r)
    {
      var init := IsInitialized();
      if !init || TextArg(args, 0).None? || TextArg(args, 1).None? || |args| < 4 {
        return Rejected;
      }
      var tokenA, tokenB := args[0], args[1];
      var amountA := Parse(args[2], U128_MAX);
      var amountB := Parse(args[3], U128_MAX);
      var fee: Option<nat> := None;
      if TextArg(args, 4).Some? {
        var feeBps := Parse(args[4], U128_MAX);
        fee := Some(feeBps);
      }
      r := CreateFrom(caller, tokenA, tokenB, amountA, amountB, fee);
    }

    method CreateFrom(caller: string, tokenA: string, tokenB: string, amountA: u128, amountB: u128, fee: Option<nat>)
      returns (r: Response)
      requires store.Valid()
      modifies store
      ensures store.Valid()
      ensures var effect := StoredCreate(old(store.entries), caller, tokenA, tokenB, amountA, amountB, fee);
              && Answers(r, effect)
              && store.entries == if effect.Done? then AfterCreate(old(store.entries), effect.pool, caller)
                               else old(store.entries)
    {
      hide Str, Num, Put, NewPoolEntries;
      var id := PoolId(tokenA, tokenB);
      var found := PoolExists(id);
      var count := store.GetNum(DexKey(PoolCount));
      r := DecideCreate(found, count, caller, tokenA, tokenB, amountA, amountB, fee);
      if r.Accepted? {
        var feeBps := if fee.Some? then fee.value else 30;
        ghost var p := StoredCreate(store.entries, caller, tokenA, tokenB, amountA, amountB, fee).pool;
        WritePool(id, tokenA, tokenB, amountA, amountB, r.receipt.lp + MINIMUM_LIQUIDITY, feeBps, caller,
                  r.receipt.lp, p);
        ListPool(id, count);
      }
    }

    /** Append a pool to the list. */
    method ListPool(id: string, count: u64)
      requires store.Valid() && count < U64_MAX
      modifies store
      ensures store.Valid()
      ensures store.entries ==
              PutNum(Put(old(store.entries), ListKey(count), id), DexKey(PoolCount), count + 1)
    {
      store.SetStr(ListKey(count), id);
      store.SetNum(DexKey(PoolCount), count + 1);
    }

    static method DecideCreate(found: bool, count: u64, caller: string, tokenA: string, tokenB: string,
                               amountA: u128, amountB: u128, fee: Option<nat>) returns (r: Response)
      ensures var effect := CreateDecision(found, count, caller, tokenA, tokenB, amountA, amountB, fee);
              && Answers(r, effect)
              && (r.Accepted? ==>
                    && r.receipt.Created? && r.receipt.lp + MINIMUM_LIQUIDITY <= U128_MAX && count < U64_MAX
                    && (if fee.Some? then fee.value else 30) <= 1000
                    && effect.pool == Dex.Pool(PoolId(tokenA, tokenB), tokenA, tokenB, amountA, amountB,
                                               r.receipt.lp + MINIMUM_LIQUIDITY, map[caller := r.receipt.lp],
                                               if fee.Some? then fee.value else 30, 0, caller))
    {
      var feeBps := if fee.Some? then fee.value else 30;
      if tokenA == tokenB || amountA == 0 || amountB == 0 || feeBps > 1000 {
        return Rejected;
      }
      if found || amountA * amountB > U128_MAX {
        return Rejected;
      }
      var initialLp := IsqrtCeil(amountA * amountB);
      if initialLp <= MINIMUM_LIQUIDITY {
        return Rejected;
      }
      if count == U64_MAX {
        return Aborted;
      }
      r := Accepted(Created(initialLp - MINIMUM_LIQUIDITY));
    }

    /** The entries of a new pool, in the order they are written. */
    method WritePool(id: string, tokenA: string, tokenB: string, amountA: u128, amountB: u128, total: u128,
                     feeBps: u128, caller: string, lp: u128, ghost p: Dex.Pool)
      requires store.Valid()
      requires p.id == id && p.tokenA == tokenA && p.tokenB == tokenB && p.reserveA == amountA && p.reserveB == amountB
      requires p.totalLp == total && p.feeBps == feeBps && p.ShareOf(caller) == lp
      modifies store
      ensures store.Valid() && store.entries == NewPoolEntries(old(store.entries), p, caller)
    {
      store.SetStr(PoolKey(id, TokenA), tokenA);
      store.SetStr(PoolKey(id, TokenB), tokenB);
      store.SetNum(PoolKey(id, ReserveA), amountA);
      store.SetNum(PoolKey(id, ReserveB), amountB);
      store.SetNum(PoolKey(id, TotalLp), total);
      store.SetNum(PoolKey(id, FeeBps), feeBps);
      store.SetStr(PoolKey(id, Creator), caller);
      store.SetNum(PoolKey(id, LastTrade), 0);
      store.SetNum(LpKey(id, caller), lp);
    }

    method AddLiquidity(caller: string, args: seq<string>) returns (r: Response)
      requires store.Valid()
      modifies store
      ensures store.Valid()
      ensures Performs(old(store.entries), store.entries, AddArgs(args), caller, 0, r)
    {
      hide Str, Num, Put, WithLiquidity;
      var init := IsInitialized();
      if !init || TextArg(args, 0).None? || |args| < 4 {
        return Rejected;
      }
      var id := args[0];
      var amountA := Parse(args[1], U128_MAX);
      var amountB := Parse(args[2], U128_MAX);
      var minLp := Parse(args[3], U128_MAX);
      var found := PoolExists(id);
      if !found || amountA == 0 || amountB == 0 {
        return Rejected;
      }
      var reserveA := store.GetNum(PoolKey(id, ReserveA));
      var reserveB := store.GetNum(PoolKey(id, ReserveB));
      var total := store.GetNum(PoolKey(id, TotalLp));
      if reserveA == 0 || reserveB == 0 || total == 0 {
        return Rejected;
      }
      var share := store.GetNum(LpKey(id, caller));
      ghost var seen := PoolSeen(store.entries, id, caller);
      r := DecideAdd(seen, caller, share, reserveA, reserveB, total, amountA, amountB, minLp);
      if r.Accepted? {
        AddedPool(seen, caller, amountA, amountB, minLp);
        WriteLiquidity(id, caller, reserveA + r.receipt.usedA, reserveB + r.receipt.usedB, total + r.receipt.lp,
                       share + r.receipt.lp,
                       AddEffect(seen, caller, amountA, amountB, minLp).pool);
      }
    }

    /** LP tokens to mint, amounts to take, and whether that is done at all. */
    static method DecideAdd(ghost p: Pool, caller: string, share: u128, reserveA: u128, reserveB: u128, total: u128,
                            amountA: u128, amountB: u128, minLp: u128) returns (r: Response)
      requires p.reserveA == reserveA > 0 && p.reserveB == reserveB > 0 && p.totalLp == total > 0
      requires p.ShareOf(caller) == share && amountA > 0 && amountB > 0
      ensures Answers(r, AddEffect(p, caller, amountA, amountB, minLp))
    {
      var fromA, fromB := MulDiv(amountA, total, reserveA), MulDiv(amountB, total, reserveB);
      if fromA.None? || fromB.None? {
        return Aborted;
      }
      var lp := if fromA.value < fromB.value then fromA.value else fromB.value;
      if lp < minLp {
        return Rejected;
      }
      var usedA, usedB := MulDiv(lp, reserveA, total), MulDiv(lp, reserveB, total);
      if usedA.None? || usedB.None? {
        return Aborted;
      }
      if !Fits(reserveA + usedA.value) || !Fits(reserveB + usedB.value) || !Fits(total + lp) || !Fits(share + lp) {
        return Aborted;
      }
      r := Accepted(Added(lp, usedA.value, usedB.value));
    }

    /** The entries that adding liquidity rewrites. */
    method WriteLiquidity(id: string, caller: string, reserveA: u128, reserveB: u128, total: u128, share: u128,
                          ghost p: Pool)
      requires store.Valid()
      requires p.id == id && p.reserveA == reserveA && p.reserveB == reserveB && p.totalLp == total
      requires p.ShareOf(caller) == share
      modifies store
      ensures store.Valid() && store.entries == AfterAdd(old(store.entries), p, caller)
    {
      store.SetNum(PoolKey(id, ReserveA), reserveA);
      store.SetNum(PoolKey(id, ReserveB), reserveB);
      store.SetNum(PoolKey(id, TotalLp), total);
      store.SetNum(LpKey(id, caller), share);
    }

    method RemoveLiquidity(caller: string, args: seq<string>) returns (r: Response)
      requires store.Valid()
      modifies store
      ensures store.Valid()
      ensures Performs(old(store.entries), store.entries, RemoveArgs(args), caller, 0, r)
    {
      var init := IsInitialized();
      if !init || TextArg(args, 0).None? || |args| < 4 {
        return Rejected;
      }
      var id := args[0];
      var lp := Parse(args[1], U128_MAX);
      var minA := Parse(args[2], U128_MAX);
      var minB := Parse(args[3], U128_MAX);
      var found := PoolExists(id);
      if !found {
        return Rejected;
      }
      r := RemoveFrom(id, caller, lp, minA, minB);
      RemovePerforms(old(store.entries), store.entries, args, caller, r);
    }

    method RemoveFrom(id: string, caller: string, lp: u128, minA: u128, minB: u128) returns (r: Response)
      requires store.Valid()
      modifies store
      ensures store.Valid()
      ensures var effect := RemoveEffect(PoolSeen(old(store.entries), id, caller), caller, lp, minA, minB);
              && Answers(r, effect)
              && store.entries == if effect.Done? then AfterRemove(old(store.entries), effect.pool, caller)
                               else old(store.entries)
    {
      ghost var seen := PoolSeen(store.entries, id, caller);
      var share := store.GetNum(LpKey(id, caller));
      if share < lp {
        return Rejected;
      }
      var reserveA := store.GetNum(PoolKey(id, ReserveA));
      var reserveB := store.GetNum(PoolKey(id, ReserveB));
      var total := store.GetNum(PoolKey(id, TotalLp));
      if total == 0 {
        return Rejected;
      }
      r := DecideRemove(seen, caller, share, reserveA, reserveB, total, lp, minA, minB);
      if r.Accepted? {
        RemovedPool(seen, caller, lp, minA, minB);
        EraseLiquidity(id, caller, reserveA - r.receipt.amountA, reserveB - r.receipt.amountB, total - lp, share - lp,
                       RemoveEffect(seen, caller, lp, minA, minB).pool);
      }
    }

    static method DecideRemove(ghost p: Pool, caller: string, share: u128, reserveA: u128, reserveB: u128, total: u128,
                               lp: u128, minA: u128, minB: u128) returns (r: Response)
      requires p.reserveA == reserveA && p.reserveB == reserveB && p.totalLp == total > 0
      requires p.ShareOf(caller) == share >= lp
      ensures Answers(r, RemoveEffect(p, caller, lp, minA, minB))
    {
      var outA, outB := MulDiv(lp, reserveA, total), MulDiv(lp, reserveB, total);
      if outA.None? || outB.None? {
        return Aborted;
      }
      if outA.value < minA || outB.value < minB {
        return Rejected;
      }
      if reserveA < outA.value || reserveB < outB.value || total < lp {
        return Aborted;
      }
      r := Accepted(Removed(outA.value, outB.value));
    }

    /** The entries that removing liquidity rewrites; an empty LP entry is deleted. */
    method EraseLiquidity(id: string, caller: string, reserveA: u128, reserveB: u128, total: u128, share: u128,
                          ghost p: Pool)
      requires store.Valid()
      requires p.id == id && p.reserveA == reserveA && p.reserveB == reserveB && p.totalLp == total
      requires p.ShareOf(caller) == share
      modifies store
      ensures store.Valid() && store.entries == AfterRemove(old(store.entries), p, caller)
    {
      store.SetNum(PoolKey(id, ReserveA), reserveA);
      store.SetNum(PoolKey(id, ReserveB), reserveB);
      store.SetNum(PoolKey(id, TotalLp), total);
      if share == 0 {
        store.Delete(LpKey(id, caller));
      } else {
        store.SetNum(LpKey(id, caller), share);
      }
    }

    method Swap(caller: string, args: seq<string>, now: u64) returns (r: Response)
      requires store.Valid()
      modifies store
      ensures store.Valid()
      ensures Performs(old(store.entries), store.entries, SwapArgs(args), caller, now, r)
    {
      var init := IsInitialized();
      if !init || TextArg(args, 0).None? || TextArg(args, 1).None? || |args| < 5 {
        return Rejected;
      }
      var id, tokenIn := args[0], args[1];
      var amountIn := Parse(args[2], U128_MAX);
      var minOut := Parse(args[3], U128_MAX);
      var deadline := Parse(args[4], U64_MAX);
      var found := PoolExists(id);
      if !found || amountIn == 0 || (deadline > 0 && now > deadline) {
        return Rejected;
      }
      r := SwapIn(id, caller, tokenIn, amountIn, minOut, now);
      SwapPerforms(old(store.entries), store.entries, args, caller, now, r);
    }

    /** The swap itself, once the arguments are in order. */
    method SwapIn(id: string, caller: string, tokenIn: string, amountIn: u128, minOut: u128, now: u64)
      returns (r: Response)
      requires store.Valid() && amountIn > 0
      modifies store
      ensures store.Valid()
      ensures var effect := SwapEffect(PoolSeen(old(store.entries), id, caller), tokenIn, amountIn, minOut, now);
              && Answers(r, effect)
              && store.entries == if effect.Done?
                               then AfterSwap(old(store.entries), effect.pool, tokenIn == effect.pool.tokenA)
                               else old(store.entries)
    {
      ghost var seen := PoolSeen(store.entries, id, caller);
      var tokenA := store.GetStr(PoolKey(id, TokenA));
      var tokenB := store.GetStr(PoolKey(id, TokenB));
      var reserveA := store.GetNum(PoolKey(id, ReserveA));
      var reserveB := store.GetNum(PoolKey(id, ReserveB));
      var feeBps := store.GetNum(PoolKey(id, FeeBps));
      r := DecideSwap(seen, tokenA, tokenB, reserveA, reserveB, feeBps, tokenIn, amountIn, minOut, now);
      if r.Accepted? {
        ghost var effect := SwapEffect(seen, tokenIn, amountIn, minOut, now);
        SwappedPool(seen, tokenIn, amountIn, minOut, now, effect);
        WriteSwap(id, tokenIn == tokenA, reserveA, reserveB, amountIn, r.receipt.out, now, effect.pool);
      }
    }

    static method DecideSwap(ghost p: Pool, tokenA: string, tokenB: string, reserveA: u128, reserveB: u128,
                             feeBps: u128, tokenIn: string, amountIn: u128, minOut: u128, now: u64)
      returns (r: Response)
      requires p.tokenA == tokenA && p.tokenB == tokenB && p.reserveA == reserveA && p.reserveB == reserveB
      requires p.feeBps == feeBps && amountIn > 0
      ensures Answers(r, SwapEffect(p, tokenIn, amountIn, minOut, now))
    {
      var aToB := tokenIn == tokenA;
      if !aToB && tokenIn != tokenB {
        return Rejected;
      }
      var (reserveIn, reserveOut) := if aToB then (reserveA, reserveB) else (reserveB, reserveA);
      var priced := Priced(amountIn, feeBps, reserveIn, reserveOut);
      if priced.None? {
        return Aborted;
      }
      var (out, fee) := priced.value;
      if out < minOut || out == 0 || out >= reserveOut {
        return Rejected;
      }
      var impact := MulDiv(out, BPS_DENOMINATOR, reserveOut);
      if !Fits(reserveIn + amountIn) || impact.None? {
        return Aborted;
      }
      r := Accepted(Swapped(out, fee, impact.value));
    }

    /** The entries that a swap rewrites, those of the token put in first. */
    method WriteSwap(id: string, aToB: bool, reserveA: u128, reserveB: u128, amountIn: u128, out: u128, now: u64,
                     ghost p: Pool)
      requires store.Valid() && p.id == id && p.lastTrade == now
      requires Fits(p.reserveA) && Fits(p.reserveB)
      requires if aToB then p.reserveA == reserveA + amountIn && p.reserveB == reserveB - out
               else p.reserveB == reserveB + amountIn && p.reserveA == reserveA - out
      modifies store
      ensures store.Valid() && store.entries == AfterSwap(old(store.entries), p, aToB)
    {
      hide Put, Digits;
      if aToB {
        store.SetNum(PoolKey(id, ReserveA), reserveA + amountIn);
        store.SetNum(PoolKey(id, ReserveB), reserveB - out);
      } else {
        store.SetNum(PoolKey(id, ReserveB), reserveB + amountIn);
        store.SetNum(PoolKey(id, ReserveA), reserveA - out);
      }
      store.SetNum(PoolKey(id, LastTrade), now);
    }

    /** The pool identifiers that `list_pools` reports: every pool, each once. */
    method ListPools(ghost s: State) returns (ids: seq<string>)
      requires store.Valid() && Stores(store.entries, s) && Inv(s)
      ensures |ids| == s.count
      ensures forall id :: id in ids <==> id in s.pools
      ensures forall i, j :: 0 <= i < j < |ids| ==> ids[i] != ids[j]
    {
      NoEmptyId(s);
      hide Str, Num, Reads, NoStrayShares, Found, Named, Inv, Tracked;
      var count := store.GetNum(DexKey(PoolCount));
      ids := [];
      for i := 0 to count
        invariant |ids| == i
        invariant forall j :: 0 <= j < i ==> ids[j] == Str(store.entries, ListKey(j))
      {
        var id := store.GetStr(ListKey(i));
        if id != "" {
          ids := ids + [id];
        }
      }
      forall id | id in s.pools ensures id in ids {
        var i :| 0 <= i < s.count && Str(store.entries, ListKey(i)) == id;
        assert ids[i] == id;
      }
    }
  }
}
