/** The entries stand for a state of the numeric exchange: a data refinement, call by call. */
module DexStore {
  import opened Words
  import opened Text
  import opened Decimal
  import opened Storage
  import opened Isqrt
  import opened DexMath
  import opened Dex
  import opened DexRuns
  import opened DexEntries

  // ---------------------------------------------------------------- the entries stand for a numeric state

  /** Entry `i` of the pool list, for every `i` below the count, names each pool once. */
  ghost predicate Lists(e: Entries, s: State) {
    && (forall i :: 0 <= i < s.count ==> Str(e, ListKey(i)) in s.pools)
    && (forall i, j :: 0 <= i < j < s.count ==> Str(e, ListKey(i)) != Str(e, ListKey(j)))
    && (forall id :: id in s.pools ==> exists i :: 0 <= i < s.count && Str(e, ListKey(i)) == id)
  }

  ghost predicate Found(e: Entries, s: State) {
    forall id :: Exists(e, id) <==> id in s.pools
  }

  ghost predicate Named(s: State) {
    forall id :: id in s.pools ==> s.pools[id].tokenA != "" && s.pools[id].tokenB != ""
  }

  ghost predicate Reads(e: Entries, s: State) {
    forall id, who :: Plain(who) && id in s.pools ==> Same(PoolSeen(e, id, who), s.pools[id], who)
  }

  ghost predicate NoStrayShares(e: Entries, s: State) {
    forall id, who :: Plain(who) && id !in s.pools ==> Num(e, LpKey(id, who)) == 0
  }

  ghost predicate Stores(e: Entries, s: State) {
    Count(e) == s.count && Found(e, s) && Named(s) && Reads(e, s) && NoStrayShares(e, s) && Lists(e, s)
  }

  // ---------------------------------------------------------------- one call

  /** Two views of a pool that agree for the caller give the same answer, and agree afterwards. */
  ghost predicate SameOutcome(o: Outcome, n: Outcome, who: string) {
    match o
    case Failed => n.Failed?
    case Trapped => n.Trapped?
    case Done(p, receipt) => n.Done? && receipt == n.receipt && Same(p, n.pool, who)
  }

  lemma AddSame(p: Pool, q: Pool, who: string, a: nat, b: nat, minLp: nat)
    requires Same(p, q, who)
    ensures SameOutcome(AddEffect(p, who, a, b, minLp), AddEffect(q, who, a, b, minLp), who)
  {
  }

  lemma RemoveSame(p: Pool, q: Pool, who: string, lp: nat, minA: nat, minB: nat)
    requires Same(p, q, who)
    ensures SameOutcome(RemoveEffect(p, who, lp, minA, minB), RemoveEffect(q, who, lp, minA, minB), who)
  {
  }

  lemma SwapSame(p: Pool, q: Pool, who: string, tokenIn: string, amountIn: nat, minOut: nat, now: nat)
    requires Same(p, q, who)
    ensures SameOutcome(SwapEffect(p, tokenIn, amountIn, minOut, now),
                        SwapEffect(q, tokenIn, amountIn, minOut, now), who)
  {
  }

  /** The calls on which the two forms agree: plain callers, named tokens, and an initial product that fits. */
  predicate Agreeable(c: Call) {
    && Plain(c.caller)
    && c.now <= U64_MAX
    && match c.action
       case CreatePool(tokenA, tokenB, a, b, _) =>
         tokenA != "" && tokenB != "" && Fits(a) && Fits(b) && a * b <= U128_MAX
       case _ => true
  }

  /** An exported call answers as the numeric exchange does. */
  lemma AnswersAgree(e: Entries, s: State, c: Call)
    requires Stores(e, s) && Inv(s) && Agreeable(c)
    ensures SameOutcome(StoredEffect(e, c), CallEffect(s, c), c.caller)
  {
    hide Str, Num, Lists, NoStrayShares, PoolId;
    var id := c.action.Target();
    var seen := PoolSeen(e, id, c.caller);
    if id in s.pools {
      var p := s.pools[id];
      assert Same(seen, p, c.caller) && PoolInv(p);
      match c.action
      case CreatePool(_, _, _, _, _) =>
      case AddLiquidity(_, a, b, minLp) => AddSame(seen, p, c.caller, a, b, minLp);
      case RemoveLiquidity(_, lp, minA, minB) => RemoveSame(seen, p, c.caller, lp, minA, minB);
      case Swap(_, tokenIn, amountIn, minOut, _) => SwapSame(seen, p, c.caller, tokenIn, amountIn, minOut, c.now);
    }
  }

  // ---------------------------------------------------------------- the diagram for one call

  /** A call leaves the LP shares of everyone but its caller alone. */
  lemma OthersKeepShares(s: State, c: Call, w: string)
    requires CallEffect(s, c).Done? && w != c.caller
    ensures var id := c.action.Target();
            CallEffect(s, c).pool.ShareOf(w) == if id in s.pools then s.pools[id].ShareOf(w) else 0
  {
  }

  lemma PoolIsStored(e: Entries, e': Entries, s: State, c: Call, w: string)
    requires Stores(e, s) && Inv(s) && Agreeable(c) && StoredEffect(e, c).Done? && Plain(w)
    requires var p := StoredEffect(e, c).pool;
             p.id == c.action.Target() && Wrote(e, e', p, c.caller, c.action.CreatePool?)
    ensures CallEffect(s, c).Done?
    ensures Same(PoolSeen(e', c.action.Target(), w), CallEffect(s, c).pool, w)
  {
    hide Str, Num, Lists, PoolId, StoredEffect, CallEffect;
    var id := c.action.Target();
    AnswersAgree(e, s, c);
    if w != c.caller {
      OthersKeepShares(s, c, w);
      assert Num(e', LpKey(id, w)) == Num(e, LpKey(id, w));
      if id in s.pools { assert Same(PoolSeen(e, id, w), s.pools[id], w); }
    }
  }

  lemma DistinctWithOneMore(e: Entries, e': Entries, n: nat, ids: set<string>, id: string)
    requires forall i :: 0 <= i < n ==> Str(e, ListKey(i)) in ids
    requires forall i, j :: 0 <= i < j < n ==> Str(e, ListKey(i)) != Str(e, ListKey(j))
    requires SameList(e, e', n) && id !in ids && Str(e', ListKey(n)) == id
    ensures forall i :: 0 <= i < n + 1 ==> Str(e', ListKey(i)) in ids + {id}
    ensures forall i, j :: 0 <= i < j < n + 1 ==> Str(e', ListKey(i)) != Str(e', ListKey(j))
  {
    forall i | 0 <= i < n + 1 ensures Str(e', ListKey(i)) in ids + {id} {
      if i < n { assert Str(e, ListKey(i)) in ids; }
    }
    forall i, j | 0 <= i < j < n + 1 ensures Str(e', ListKey(i)) != Str(e', ListKey(j)) {
      assert Str(e', ListKey(i)) == Str(e, ListKey(i));
      if j < n { assert Str(e', ListKey(j)) == Str(e, ListKey(j)); }
    }
  }

  lemma ListGrows(e: Entries, e': Entries, s: State, s': State, id: string)
    requires Lists(e, s) && SameList(e, e', s.count) && id !in s.pools
    requires s'.count == s.count + 1 && s'.pools.Keys == s.pools.Keys + {id} && Str(e', ListKey(s.count)) == id
    ensures Lists(e', s')
  {
    DistinctWithOneMore(e, e', s.count, s.pools.Keys, id);
    forall j | j in s'.pools ensures exists i :: 0 <= i < s'.count && Str(e', ListKey(i)) == j {
      if j == id {
        assert Str(e', ListKey(s.count)) == j;
      } else {
        assert j in s.pools;
        var i :| 0 <= i < s.count && Str(e, ListKey(i)) == j;
        assert Str(e', ListKey(i)) == j;
      }
    }
  }

  lemma ListStays(e: Entries, e': Entries, s: State, s': State)
    requires Lists(e, s) && SameList(e, e', s.count)
    requires s'.count == s.count && s'.pools.Keys == s.pools.Keys
    ensures Lists(e', s')
  {
    forall j | j in s'.pools ensures exists i :: 0 <= i < s'.count && Str(e', ListKey(i)) == j {
      assert j in s.pools;
      var i :| 0 <= i < s.count && Str(e, ListKey(i)) == j;
      assert Str(e', ListKey(i)) == j;
    }
  }

  /** A pool is created where there was none, and changed where there was one. */
  lemma CreatesOrChanges(s: State, c: Call)
    requires CallEffect(s, c).Done?
    ensures c.action.CreatePool? <==> c.action.Target() !in s.pools
  {
  }

  /** Only a creation changes the pool list, and it adds the new pool at its end. */
  lemma ListIsStored(e: Entries, e': Entries, s: State, s': State, c: Call, p: Pool)
    requires Lists(e, s) && Count(e) == s.count && Wrote(e, e', p, c.caller, c.action.CreatePool?)
    requires c.action.CreatePool? <==> p.id !in s.pools
    requires s'.pools.Keys == s.pools.Keys + {p.id}
    requires s'.count == if c.action.CreatePool? then s.count + 1 else s.count
    ensures Count(e') == s'.count && Lists(e', s')
  {
    hide Str, Num, Lists, Same, Elsewhere, PoolId;
    if c.action.CreatePool? {
      ListGrows(e, e', s, s', p.id);
    } else {
      ListStays(e, e', s, s');
    }
  }

  /** The tokens of the pool that a call leaves. */
  lemma TokensAreNamed(e: Entries, s: State, c: Call)
    requires Stores(e, s) && Agreeable(c) && CallEffect(s, c).Done?
    ensures CallEffect(s, c).pool.tokenA != "" && CallEffect(s, c).pool.tokenB != ""
  {
    hide Str, Num, Reads, Lists, Found, NoStrayShares, PoolId;
    var id := c.action.Target();
    if id in s.pools { assert Named(s); }
  }

  lemma FoundAfter(e: Entries, e': Entries, s: State, s': State, id: string, p: Pool, who: string)
    requires Found(e, s) && Elsewhere(e, e', id, who) && s'.pools == s.pools[id := p]
    requires Same(PoolSeen(e', id, who), p, who) && p.tokenA != ""
    ensures Found(e', s')
  {
    forall j ensures Exists(e', j) <==> j in s'.pools {
      if j == id {
        assert PoolSeen(e', id, who).tokenA == p.tokenA;
      } else {
        assert Exists(e, j) == Exists(e', j);
      }
    }
  }

  /** Entries of other pools are untouched; those of the one that changed read as its new value. */
  lemma ReadsAfter(e: Entries, e': Entries, s: State, s': State, id: string, p: Pool, who: string)
    requires Reads(e, s) && Elsewhere(e, e', id, who) && s'.pools == s.pools[id := p]
    requires StoredPool(e', id, p)
    ensures Reads(e', s')
  {
    forall j, w | Plain(w) && j in s'.pools ensures Same(PoolSeen(e', j, w), s'.pools[j], w) {
      if j != id {
        assert Same(PoolSeen(e, j, w), s.pools[j], w);
        OtherPoolsRead(e, e', id, who, j, w);
      }
    }
  }

  lemma OtherPoolsRead(e: Entries, e': Entries, id: string, who: string, j: string, w: string)
    requires Elsewhere(e, e', id, who) && j != id && Plain(w)
    ensures PoolSeen(e', j, w) == PoolSeen(e, j, w)
  {
  }

  lemma NoStraysAfter(e: Entries, e': Entries, s: State, s': State, id: string, p: Pool, who: string)
    requires NoStrayShares(e, s) && Elsewhere(e, e', id, who) && s'.pools == s.pools[id := p]
    ensures NoStrayShares(e', s')
  {
  }

  ghost predicate StoredPool(e: Entries, id: string, p: Pool) {
    forall w :: Plain(w) ==> Same(PoolSeen(e, id, w), p, w)
  }

  lemma OnePoolChanges(e: Entries, e': Entries, s: State, s': State, id: string, p: Pool, who: string)
    requires Found(e, s) && Named(s) && Reads(e, s) && NoStrayShares(e, s)
    requires Elsewhere(e, e', id, who) && Plain(who) && s'.pools == s.pools[id := p]
    requires StoredPool(e', id, p) && p.tokenA != "" && p.tokenB != ""
    ensures Found(e', s') && Named(s') && Reads(e', s') && NoStrayShares(e', s')
  {
    assert Same(PoolSeen(e', id, who), p, who);
    FoundAfter(e, e', s, s', id, p, who);
    ReadsAfter(e, e', s, s', id, p, who);
    NoStraysAfter(e, e', s, s', id, p, who);
  }

  lemma WriteRefines(e: Entries, e': Entries, s: State, c: Call)
    requires Stores(e, s) && Inv(s) && Agreeable(c) && StoredEffect(e, c).Done?
    requires var p := StoredEffect(e, c).pool;
             p.id == c.action.Target() && Wrote(e, e', p, c.caller, c.action.CreatePool?)
    ensures Stores(e', After(s, c))
  {
    hide StoredEffect, CallEffect, Num, Str, Lists;
    var id := c.action.Target();
    PoolIsStored(e, e', s, c, c.caller);
    forall w | Plain(w) ensures Same(PoolSeen(e', id, w), CallEffect(s, c).pool, w) {
      PoolIsStored(e, e', s, c, w);
    }
    CreatesOrChanges(s, c);
    TokensAreNamed(e, s, c);
    ListIsStored(e, e', s, After(s, c), c, StoredEffect(e, c).pool);
    OnePoolChanges(e, e', s, After(s, c), id, CallEffect(s, c).pool, c.caller);
  }

  // ---------------------------------------------------------------- room for the keys

  /** No pool, and no LP share that counts, has a key that is cut or that a cut key falls on. */
  ghost predicate Small(s: State) {
    && (forall id :: id in s.pools ==> ShortPool(id))
    && (forall id, who :: id in s.pools && s.pools[id].ShareOf(who) > 0 ==> ShortShare(id, who))
  }

  /** A creation with which nothing is wrong but, perhaps, the size of its names or of its product. */
  ghost predicate SoundCreation(s: State, c: Call) {
    && c.action.CreatePool?
    && var CreatePool(tokenA, tokenB, a, b, fee) := c.action;
    && tokenA != tokenB && PoolId(tokenA, tokenB) !in s.pools
    && (fee.Some? ==> fee.value <= 1000)
    && (MINIMUM_LIQUIDITY + 1) * (MINIMUM_LIQUIDITY + 1) <= a * b
  }

  /** An offer of liquidity that goes through: its products and sums fit, and it is worth what was asked for. */
  ghost predicate AddGoesThrough(p: Pool, a: nat, b: nat, minLp: nat) {
    && a > 0 && b > 0 && MintFor(p, a, b).Some?
    && var lp := MintFor(p, a, b).value;
       var usedA, usedB := MulDiv(lp, p.reserveA, p.totalLp), MulDiv(lp, p.reserveB, p.totalLp);
    && minLp <= lp && Fits(p.totalLp + lp)
    && usedA.Some? && Fits(p.reserveA + usedA.value) && usedB.Some? && Fits(p.reserveB + usedB.value)
  }

  /** A call that leaves a pool, or its caller a share, under a key for which there is no room. */
  ghost predicate Outgrows(s: State, c: Call) {
    var id := c.action.Target();
    match c.action
    case CreatePool(_, _, _, _, _) =>
      SoundCreation(s, c) && s.count < U64_MAX && (!ShortPool(id) || !ShortShare(id, c.caller))
    case AddLiquidity(_, a, b, minLp) =>
      && id in s.pools && !ShortShare(id, c.caller)
      && var p := s.pools[id];
      && AddGoesThrough(p, a, b, minLp) && MintFor(p, a, b) != Some(0)
    case _ => false
  }

  lemma EnoughLiquidity(n: nat)
    ensures Root(Min(n, U128_MAX)) <= MINIMUM_LIQUIDITY <==>
            n < (MINIMUM_LIQUIDITY + 1) * (MINIMUM_LIQUIDITY + 1)
  {
    var m := Min(n, U128_MAX);
    RootIs(m);
    if Root(m) <= MINIMUM_LIQUIDITY {
      SquareMonotone(Root(m) + 1, MINIMUM_LIQUIDITY + 1);
    } else {
      SquareMonotone(MINIMUM_LIQUIDITY + 1, Root(m));
    }
  }

  lemma ZeroProduct(a: nat, b: nat)
    ensures a * b == 0 <==> a == 0 || b == 0
  {
  }

  lemma SoundCreationIs(s: State, c: Call)
    requires c.action.CreatePool?
    ensures CallEffect(s, c).Failed? <==> !SoundCreation(s, c)
    ensures CallEffect(s, c).Done? <==> SoundCreation(s, c) && s.count != U64_MAX
    ensures CallEffect(s, c).Done? ==> CallEffect(s, c).pool.ShareOf(c.caller) > 0
  {
    hide PoolId, Root;
    EnoughLiquidity(c.action.amountA * c.action.amountB);
    ZeroProduct(c.action.amountA, c.action.amountB);
  }

  lemma AddGoesThroughIs(p: Pool, who: string, a: nat, b: nat, minLp: nat)
    requires PoolInv(p)
    ensures var r := AddEffect(p, who, a, b, minLp);
            && (r.Done? <==> AddGoesThrough(p, a, b, minLp))
            && (r.Done? ==> r.pool.ShareOf(who) == p.ShareOf(who) + MintFor(p, a, b).value)
  {
    ShareBelowTotal(p, who);
    hide MintFor, MulDiv, PoolId;
  }

  /** What it is for a call to outgrow the room there is. */
  lemma OutgrowsIs(s: State, c: Call)
    requires Inv(s) && Small(s)
    ensures Outgrows(s, c) <==>
            && CallEffect(s, c).Done? && CallEffect(s, c).pool.ShareOf(c.caller) > 0
            && (c.action.CreatePool? || c.action.AddLiquidity?)
            && (!ShortPool(c.action.Target()) || !ShortShare(c.action.Target(), c.caller))
  {
    hide PoolId, PoolInv, MintFor, AddGoesThrough;
    var id := c.action.Target();
    match c.action
    case CreatePool(_, _, _, _, _) => SoundCreationIs(s, c);
    case AddLiquidity(_, a, b, minLp) =>
      if id in s.pools {
        var p := s.pools[id];
        AddGoesThroughIs(p, c.caller, a, b, minLp);
      }
    case _ =>
  }

  lemma SmallAfter(s: State, c: Call)
    requires Inv(s) && Small(s) && !Outgrows(s, c)
    ensures Small(After(s, c))
  {
    if CallEffect(s, c).Done? {
      var id, p := c.action.Target(), CallEffect(s, c).pool;
      NewPoolIsShort(s, c);
      forall who | p.ShareOf(who) > 0 ensures ShortShare(id, who) { NewShareIsShort(s, c, who); }
      hide CallEffect, Outgrows, PoolId, ShortShare, ShortPool;
    }
  }

  lemma NewPoolIsShort(s: State, c: Call)
    requires Inv(s) && Small(s) && !Outgrows(s, c) && CallEffect(s, c).Done?
    ensures ShortPool(c.action.Target())
  {
    OutgrowsIs(s, c);
    if c.action.CreatePool? { SoundCreationIs(s, c); } else { CallerHadShare(s, c); }
    hide CallEffect, Outgrows, PoolId;
  }

  lemma NewShareIsShort(s: State, c: Call, who: string)
    requires Inv(s) && Small(s) && !Outgrows(s, c) && CallEffect(s, c).Done?
    requires CallEffect(s, c).pool.ShareOf(who) > 0
    ensures ShortShare(c.action.Target(), who)
  {
    OutgrowsIs(s, c);
    if who != c.caller {
      OthersKeepShares(s, c, who);
    } else if !c.action.CreatePool? {
      CallerHadShare(s, c);
    }
    hide CallEffect, Outgrows, PoolId;
  }

  /** Only adding liquidity gives a share to a caller who had none. */
  lemma CallerHadShare(s: State, c: Call)
    requires CallEffect(s, c).Done? && !c.action.CreatePool?
    ensures c.action.Target() in s.pools
    ensures !c.action.AddLiquidity? && CallEffect(s, c).pool.ShareOf(c.caller) > 0 ==>
              s.pools[c.action.Target()].ShareOf(c.caller) > 0
  {
    hide PoolId;
  }

  // ---------------------------------------------------------------- one call, on the entries

  lemma OutcomeFits(e: Entries, s: State, c: Call)
    requires Stores(e, s) && Inv(s) && Agreeable(c) && StoredEffect(e, c).Done?
    ensures var p := StoredEffect(e, c).pool;
            PoolFits(p, c.caller) && p.id == c.action.Target()
  {
    AnswersAgree(e, s, c);
    CallKeepsPool(s, c);
    var p, q := StoredEffect(e, c).pool, CallEffect(s, c).pool;
    ShareBelowTotal(q, c.caller);
    TradeTimeFits(e, c);
    hide StoredEffect, CallEffect, Stores, PoolId;
    assert p.(shares := map[]) == q.(shares := map[]);
  }

  lemma NewPoolUntraded(who: string, tokenA: string, tokenB: string, a: nat, b: nat, fee: Option<nat>, taken: bool)
    ensures var r := CreateEffect(who, tokenA, tokenB, a, b, fee, taken); r.Done? ==> r.pool.lastTrade == 0
  {
  }

  /** What a call that goes through does to the pool as its caller sees it. */
  lemma EffectIs(e: Entries, c: Call)
    requires StoredEffect(e, c).Done?
    ensures var id := c.action.Target();
            var seen := PoolSeen(e, id, c.caller);
            StoredEffect(e, c) ==
            match c.action
            case CreatePool(tokenA, tokenB, a, b, fee) =>
              CreateEffect(c.caller, tokenA, tokenB, a, b, fee, Exists(e, id))
            case AddLiquidity(_, a, b, minLp) => AddEffect(seen, c.caller, a, b, minLp)
            case RemoveLiquidity(_, lp, minA, minB) => RemoveEffect(seen, c.caller, lp, minA, minB)
            case Swap(_, tokenIn, amountIn, minOut, _) => SwapEffect(seen, tokenIn, amountIn, minOut, c.now)
  {
    hide Str, Num, PoolId, PoolSeen, CreateEffect, AddEffect, RemoveEffect, SwapEffect;
  }

  lemma TradeTimeFits(e: Entries, c: Call)
    requires StoredEffect(e, c).Done? && c.now <= U64_MAX
    ensures StoredEffect(e, c).pool.lastTrade <= U64_MAX
  {
    var id := c.action.Target();
    var seen := PoolSeen(e, id, c.caller);
    NumFits(e, PoolKey(id, LastTrade));
    assert seen.lastTrade <= U64_MAX;
    EffectIs(e, c);
    hide *;
    match c.action
    case CreatePool(tokenA, tokenB, a, b, fee) => NewPoolUntraded(c.caller, tokenA, tokenB, a, b, fee, Exists(e, id));
    case AddLiquidity(_, a, b, minLp) => AddKeepsTime(seen, c.caller, a, b, minLp);
    case RemoveLiquidity(_, lp, minA, minB) => RemoveKeepsTime(seen, c.caller, lp, minA, minB);
    case Swap(_, tokenIn, amountIn, minOut, _) => SwapSetsTime(seen, tokenIn, amountIn, minOut, c.now);
  }

  lemma AddKeepsTime(p: Pool, who: string, a: nat, b: nat, minLp: nat)
    ensures var r := AddEffect(p, who, a, b, minLp); r.Done? ==> r.pool.lastTrade == p.lastTrade
  {
  }

  lemma RemoveKeepsTime(p: Pool, who: string, lp: nat, minA: nat, minB: nat)
    ensures var r := RemoveEffect(p, who, lp, minA, minB); r.Done? ==> r.pool.lastTrade == p.lastTrade
  {
  }

  lemma SwapSetsTime(p: Pool, tokenIn: string, amountIn: nat, minOut: nat, now: nat)
    ensures var r := SwapEffect(p, tokenIn, amountIn, minOut, now); r.Done? ==> r.pool.lastTrade == now
  {
  }

  /** What a call writes is read back, if there is room for its keys. */
  lemma WrittenIsRead(e: Entries, c: Call, p: Pool)
    requires StoredEffect(e, c).Done? && p == StoredEffect(e, c).pool
    requires Plain(c.caller) && PoolFits(p, c.caller) && p.id == c.action.Target()
    requires ShortPool(p.id) && (c.action.Swap? || ShortShare(p.id, c.caller))
    ensures Wrote(e, StoredAfter(e, c), p, c.caller, c.action.CreatePool?)
  {
    hide Str, Num, PoolId, Wrote, AfterCreate, AfterAdd, AfterRemove, AfterSwap;
    var seen := PoolSeen(e, c.action.Target(), c.caller);
    match c.action
    case CreatePool(_, _, _, _, _) =>
      NumFits(e, DexKey(PoolCount));
      CreateWrote(e, p, c.caller);
    case AddLiquidity(_, a, b, minLp) =>
      AddFrame(seen, c.caller, a, b, minLp);
      AddWrote(e, p, c.caller);
    case RemoveLiquidity(_, lp, minA, minB) =>
      RemoveFrame(seen, c.caller, lp, minA, minB);
      RemoveWrote(e, p, c.caller);
    case Swap(_, tokenIn, amountIn, minOut, _) =>
      SwapFrame(seen, tokenIn, amountIn, minOut, c.now);
      SwapWrote(e, p, c.caller, tokenIn == p.tokenA);
  }

  ghost predicate LongSharesReadZero(e: Entries) {
    forall l: Key {:trigger Num(e, l)} :: l.LpKey? && Sound(l) && !Short(l) ==> Num(e, l) == 0
  }

  lemma SmallReadsZero(e: Entries, s: State)
    requires Stores(e, s) && Small(s)
    ensures LongSharesReadZero(e)
  {
    hide Num, Str, Short;
    forall l: Key | l.LpKey? && Sound(l) && !Short(l) ensures Num(e, l) == 0 {
      ShortShareIs(l.id, l.who);
      if l.id in s.pools { assert Same(PoolSeen(e, l.id, l.who), s.pools[l.id], l.who); }
    }
  }

  /** `e'` is `x` with 0, or nothing, under a key of an LP entry for which there is no room. */
  ghost predicate Zeroed(x: Entries, e': Entries, k: Key) {
    k.LpKey? && Sound(k) && !Short(k) && (e' == PutNum(x, k, 0) || e' == Drop(x, k))
  }

  lemma ZeroedOtherKind(x: Entries, e': Entries, k: Key, l: Key)
    requires Zeroed(x, e', k) && !l.LpKey?
    ensures Str(e', l) == Str(x, l) && Num(e', l) == Num(x, l)
  {
    PutOtherKind(x, k, Digits(0), l);
    DropOtherKind(x, k, l);
  }

  lemma ZeroedShare(x: Entries, e': Entries, k: Key, l: Key)
    requires Zeroed(x, e', k) && l.LpKey? && Sound(l) && (!Short(l) ==> Num(x, l) == 0)
    ensures Num(e', l) == Num(x, l)
  {
    if Slot(l) == Slot(k) {
      if Short(l) { ShortApart(l, k); }
      NumberRoundTrip(x, k, 0);
      assert Str(Drop(x, k), k) == "";
    } else {
      PutElsewhere(x, k, Digits(0), l);
      DropElsewhere(x, k, l);
    }
  }

  /** Such a write changes nothing that is read. */
  lemma ZeroedAlike(x: Entries, e': Entries, k: Key)
    requires LongSharesReadZero(x) && Zeroed(x, e', k)
    ensures ReadsAlike(x, e')
  {
    forall l: Key | !l.LpKey? ensures Str(e', l) == Str(x, l) && Num(e', l) == Num(x, l) {
      ZeroedOtherKind(x, e', k, l);
    }
    forall l: Key | l.LpKey? && Sound(l) ensures Num(e', l) == Num(x, l) {
      ZeroedShare(x, e', k, l);
    }
    hide Num, Str, Zeroed, Short, LongSharesReadZero;
  }

  lemma StillReadZero(e: Entries, x: Entries, p: Pool, who: string)
    requires LongSharesReadZero(e) && Elsewhere(e, x, p.id, who) && Num(x, LpKey(p.id, who)) == 0
    ensures LongSharesReadZero(x)
  {
    hide Num, Str, Short;
    forall l: Key | l.LpKey? && Sound(l) && !Short(l) ensures Num(x, l) == 0 {
      if l != LpKey(p.id, who) { assert Num(x, l) == Num(e, l); }
    }
  }

  /** Whoever has no share, and no room for one, leaves none behind by adding or removing nothing. */
  lemma ZeroShareWrote(e: Entries, s: State, c: Call, p: Pool)
    requires Stores(e, s) && Small(s) && Plain(c.caller) && (c.action.AddLiquidity? || c.action.RemoveLiquidity?)
    requires StoredEffect(e, c).Done? && p == StoredEffect(e, c).pool && LiquidityOnly(PoolSeen(e, p.id, c.caller), p)
    requires PoolFits(p, c.caller) && ShortPool(p.id) && !ShortShare(p.id, c.caller) && p.ShareOf(c.caller) == 0
    ensures Wrote(e, StoredAfter(e, c), p, c.caller, false)
  {
    var k, x := LpKey(p.id, c.caller), WithLiquidity(e, p);
    hide StoredEffect, WithLiquidity, Num, Str, Put, Drop, Digits, Stores, Small, Wrote, Elsewhere, LongSharesReadZero;
    SmallReadsZero(e, s);
    ShortShareIs(p.id, c.caller);
    assert Num(e, k) == 0 by { ReadsZero(e, k); }
    LiquidityWrote(e, p, c.caller);
    LiquidityKeepsShares(e, p, c.caller);
    assert Elsewhere(e, x, p.id, c.caller) by { WroteElsewhere(e, x, p, c.caller); }
    StillReadZero(e, x, p, c.caller);
    ZeroedAlike(x, StoredAfter(e, c), k);
    AlikeWrote(e, x, StoredAfter(e, c), p, c.caller, false);
  }

  lemma ReadsZero(e: Entries, k: Key)
    requires LongSharesReadZero(e) && k.LpKey? && Sound(k) && !Short(k)
    ensures Num(e, k) == 0
  {
  }

  lemma WroteElsewhere(e: Entries, x: Entries, p: Pool, who: string)
    requires Wrote(e, x, p, who, false)
    ensures Elsewhere(e, x, p.id, who)
  {
  }

  /** What a call writes is read back, unless the call outgrows the room there is. */
  lemma CallWrote(e: Entries, s: State, c: Call)
    requires Stores(e, s) && Inv(s) && Small(s) && Agreeable(c) && !Outgrows(s, c) && StoredEffect(e, c).Done?
    ensures var p := StoredEffect(e, c).pool;
            && p.id == c.action.Target() && ShortPool(p.id)
            && Wrote(e, StoredAfter(e, c), p, c.caller, c.action.CreatePool?)
  {
    hide StoredEffect, CallEffect, Stores, Small, PoolId, Inv, Wrote, StoredAfter, Outgrows, PoolFits;
    AnswersAgree(e, s, c);
    OutcomeFits(e, s, c);
    NewPoolIsShort(s, c);
    var p, q := StoredEffect(e, c).pool, CallEffect(s, c).pool;
    assert p.ShareOf(c.caller) == q.ShareOf(c.caller);
    if c.action.Swap? || ShortShare(p.id, c.caller) {
      WrittenIsRead(e, c, p);
    } else {
      if q.ShareOf(c.caller) > 0 { NewShareIsShort(s, c, c.caller); }
      if c.action.CreatePool? { SoundCreationIs(s, c); }
      OnlyLiquidity(e, c);
      ZeroShareWrote(e, s, c, p);
    }
  }

  lemma OnlyLiquidity(e: Entries, c: Call)
    requires StoredEffect(e, c).Done? && (c.action.AddLiquidity? || c.action.RemoveLiquidity?)
    ensures LiquidityOnly(PoolSeen(e, c.action.Target(), c.caller), StoredEffect(e, c).pool)
  {
    hide Num, Str;
    var seen := PoolSeen(e, c.action.Target(), c.caller);
    match c.action
    case AddLiquidity(_, a, b, minLp) => AddFrame(seen, c.caller, a, b, minLp);
    case RemoveLiquidity(_, lp, minA, minB) => RemoveFrame(seen, c.caller, lp, minA, minB);
  }

  /**
   * Entries that stand for a numeric state have, when a call ends for whose keys there is
   * room, been made to stand for the state after it.
   */
  lemma CallRefines(e: Entries, s: State, c: Call)
    requires Stores(e, s) && Inv(s) && Small(s) && Agreeable(c) && !Outgrows(s, c)
    ensures SameOutcome(StoredEffect(e, c), CallEffect(s, c), c.caller)
    ensures Stores(StoredAfter(e, c), After(s, c))
  {
    AnswersAgree(e, s, c);
    if StoredEffect(e, c).Done? {
      CallWrote(e, s, c);
      WriteRefines(e, StoredAfter(e, c), s, c);
    }
    hide StoredEffect, CallEffect, Stores, Small, PoolId, Inv, Outgrows;
  }

  // ---------------------------------------------------------------- deployment, and where the two forms differ

  ghost function WithSettings(e: Entries, owner: string): Entries {
    PutNum(Put(Put(e, DexKey(DexInit), "1"), DexKey(DexOwner), owner), DexKey(PoolCount), 0)
  }

  /** The entries written on deployment. */
  ghost function Deployed(owner: string): Entries {
    WithSettings(map[], owner)
  }

  lemma SettingsAreShort()
    ensures Short(DexKey(DexInit)) && Short(DexKey(DexOwner)) && Short(DexKey(PoolCount))
  {
  }

  lemma SettingsRead(none: Entries, a: Entries, b: Entries, e: Entries, owner: string)
    requires none == map[]
    requires Sets(none, a, DexKey(DexInit), "1") && Sets(a, b, DexKey(DexOwner), owner)
    requires Sets(b, e, DexKey(PoolCount), Digits(0))
    ensures Stores(e, EMPTY)
  {
    hide Digits;
    assert forall l :: Str(none, l) == "";
    hide Str;
    NumberIsRead(e, DexKey(PoolCount), 0);
    forall id, who | Plain(who) ensures Num(e, LpKey(id, who)) == 0 {
      assert Str(e, LpKey(id, who)) == Str(b, LpKey(id, who)) == Str(a, LpKey(id, who)) == "";
    }
    forall id ensures !Exists(e, id) {
      assert Str(e, PoolKey(id, TokenA)) == Str(b, PoolKey(id, TokenA)) == Str(a, PoolKey(id, TokenA)) == "";
    }
  }

  lemma DeployedIsEmpty(owner: string)
    ensures Stores(Deployed(owner), EMPTY) && Inv(EMPTY) && Small(EMPTY)
  {
    var none: Entries := map[];
    var a := Put(none, DexKey(DexInit), "1");
    var b := Put(a, DexKey(DexOwner), owner);
    SettingsAreShort();
    PutSets(none, DexKey(DexInit), "1");
    PutSets(a, DexKey(DexOwner), owner);
    PutSets(b, DexKey(PoolCount), Digits(0));
    SettingsRead(none, a, b, Deployed(owner), owner);
  }

  /** A difference: an initial product beyond u128 is refused here, and saturates in the numeric form. */
  lemma OversizedPoolIsRefused(e: Entries, c: Call)
    requires c.action.CreatePool? && c.action.amountA * c.action.amountB > U128_MAX
    ensures StoredEffect(e, c) == Failed && StoredAfter(e, c) == e
    ensures var a := c.action;
            var r := CreateEffect(c.caller, a.tokenA, a.tokenB, a.amountA, a.amountB, None, false);
            c.action.tokenA != c.action.tokenB ==> r.Done? && r.pool.totalLp == 0xFFFF_FFFF_FFFF_FFFF
  {
    hide Str, Num, PoolId;
    RootIs(U128_MAX);
    RootUnique(U128_MAX, 0xFFFF_FFFF_FFFF_FFFF, Root(U128_MAX));
  }

  /** What any caller can send: an address without colons, a time that is a u64, initial amounts that are u128. */
  predicate Sendable(c: Call) {
    Plain(c.caller) && c.now <= U64_MAX && Fitting(c)
  }

  /** A sound creation, but for an empty token name or an oversized product. */
  ghost predicate RefusedHereOnly(s: State, c: Call) {
    && SoundCreation(s, c)
    && var a := c.action;
    (a.tokenA == "" || a.tokenB == "" || U128_MAX < a.amountA * a.amountB)
  }

  lemma RefusedHereOnlyIs(s: State, c: Call)
    requires Fitting(c)
    ensures RefusedHereOnly(s, c) <==>
            && c.action.CreatePool? && !CallEffect(s, c).Failed?
            && var a := c.action;
            (a.tokenA == "" || a.tokenB == "" || U128_MAX < a.amountA * a.amountB)
  {
    if c.action.CreatePool? { SoundCreationIs(s, c); }
    hide CallEffect, SoundCreation;
  }

  lemma RefusedOutright(e: Entries, c: Call)
    requires Sendable(c) && !Agreeable(c)
    ensures StoredEffect(e, c) == Failed && StoredAfter(e, c) == e
  {
    hide Str, Num, PoolId;
  }

  /** The two forms answer alike exactly when the call is not such a creation. */
  lemma AnswersAgreeExactly(e: Entries, s: State, c: Call)
    requires Stores(e, s) && Inv(s) && Sendable(c)
    ensures SameOutcome(StoredEffect(e, c), CallEffect(s, c), c.caller) <==> !RefusedHereOnly(s, c)
  {
    RefusedHereOnlyIs(s, c);
    if Agreeable(c) {
      AnswersAgree(e, s, c);
    } else {
      RefusedOutright(e, c);
    }
    hide StoredEffect, CallEffect, SoundCreation, Stores;
  }
}
