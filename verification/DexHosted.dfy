/**
 * The exchange as the virtual machine hosts it: a call works on a copy of the stored entries,
 * and of what it touched only the entries still there are put back. A deletion is not kept.
 */
module DexHosted {
  import opened Words
  import opened Text
  import opened Decimal
  import opened Storage
  import opened Isqrt
  import opened DexMath
  import opened Dex
  import opened DexRuns
  import opened DexCode
  import opened DexEntries
  import opened DexStore
  import opened DexContract

  /** The entries that the next call starts from. */
  ghost function Carried(e: Entries, c: Call): Entries {
    e + StoredAfter(e, c)
  }

  ghost function CarriedRun(e: Entries, calls: seq<Call>): Entries
    decreases |calls|
  {
    if calls == [] then e else CarriedRun(Carried(e, calls[0]), calls[1..])
  }

  /** A removal that goes through and leaves its caller, who had a share, none: to be told before the call. */
  ghost predicate TakesWholeShare(s: State, c: Call) {
    && c.action.RemoveLiquidity? && c.action.poolId in s.pools
    && var (p, lp) := (s.pools[c.action.poolId], c.action.lp);
    && lp == p.ShareOf(c.caller) && 0 < lp && 0 < p.totalLp
    && Fits(lp * p.reserveA) && c.action.minA <= lp * p.reserveA / p.totalLp
    && Fits(lp * p.reserveB) && c.action.minB <= lp * p.reserveB / p.totalLp
  }

  // ---------------------------------------------------------------- one call

  /** The removals that delete the LP entry of their caller. */
  ghost predicate Deletes(e: Entries, c: Call) {
    && c.action.RemoveLiquidity?
    && var r := StoredEffect(e, c);
    && r.Done? && r.pool.ShareOf(c.caller) == 0
  }

  lemma LiquidityGrows(e: Entries, p: Pool)
    ensures e.Keys <= WithReserves(e, p).Keys <= WithLiquidity(e, p).Keys
  {
    hide Put, Digits;
    var a := PutNum(e, PoolKey(p.id, ReserveA), p.reserveA);
    PutGrows(e, PoolKey(p.id, ReserveA), Digits(p.reserveA));
    PutGrows(a, PoolKey(p.id, ReserveB), Digits(p.reserveB));
    PutGrows(WithReserves(e, p), PoolKey(p.id, TotalLp), Digits(p.totalLp));
  }

  lemma NewPoolGrows(e: Entries, p: Pool, who: string)
    ensures e.Keys <= NewPoolEntries(e, p, who).Keys
  {
    hide Put, Digits, WithLiquidity;
    var a := Put(e, PoolKey(p.id, TokenA), p.tokenA);
    var tokens := Put(a, PoolKey(p.id, TokenB), p.tokenB);
    var fee := PutNum(WithLiquidity(tokens, p), PoolKey(p.id, FeeBps), p.feeBps);
    var creator := Put(fee, PoolKey(p.id, Creator), who);
    var last := PutNum(creator, PoolKey(p.id, LastTrade), 0);
    PutGrows(e, PoolKey(p.id, TokenA), p.tokenA);
    PutGrows(a, PoolKey(p.id, TokenB), p.tokenB);
    LiquidityGrows(tokens, p);
    PutGrows(WithLiquidity(tokens, p), PoolKey(p.id, FeeBps), Digits(p.feeBps));
    PutGrows(fee, PoolKey(p.id, Creator), who);
    PutGrows(creator, PoolKey(p.id, LastTrade), Digits(0));
    PutGrows(last, LpKey(p.id, who), Digits(p.ShareOf(who)));
  }

  lemma SwapGrows(e: Entries, p: Pool, aToB: bool)
    ensures e.Keys <= AfterSwap(e, p, aToB).Keys
  {
    hide Put, Digits;
    var (f, g) := if aToB then (ReserveA, ReserveB) else (ReserveB, ReserveA);
    var a := PutNum(e, PoolKey(p.id, f), Amount(p, f));
    var b := PutNum(a, PoolKey(p.id, g), Amount(p, g));
    PutGrows(e, PoolKey(p.id, f), Digits(Amount(p, f)));
    PutGrows(a, PoolKey(p.id, g), Digits(Amount(p, g)));
    PutGrows(b, PoolKey(p.id, LastTrade), Digits(p.lastTrade));
  }

  lemma WriteGrows(e: Entries, c: Call, p: Pool)
    requires !(c.action.RemoveLiquidity? && p.ShareOf(c.caller) == 0)
    ensures e.Keys <= Write(e, c, p).Keys
  {
    hide Put, Digits, NewPoolEntries, WithLiquidity, AfterSwap, Str, Num;
    var new_, n := NewPoolEntries(e, p, c.caller), Count(e);
    match c.action
    case CreatePool(_, _, _, _, _) =>
      NewPoolGrows(e, p, c.caller);
      PutGrows(new_, ListKey(n), p.id);
      PutGrows(Put(new_, ListKey(n), p.id), DexKey(PoolCount), Digits(n + 1));
    case Swap(_, tokenIn, _, _, _) => SwapGrows(e, p, tokenIn == p.tokenA);
    case _ =>
      LiquidityGrows(e, p);
      PutGrows(WithLiquidity(e, p), LpKey(p.id, c.caller), Digits(p.ShareOf(c.caller)));
  }

  /** The entry kept under `l`, if any, is the same. */
  ghost predicate SameEntry(e: Entries, e': Entries, l: Key) {
    Slot(l).Some? ==>
      && (Slot(l).value in e' <==> Slot(l).value in e)
      && (Slot(l).value in e ==> e'[Slot(l).value] == e[Slot(l).value])
  }

  lemma PutKeepsEntry(e: Entries, k: Key, s: string, l: Key)
    requires Prefix(k) != Prefix(l)
    ensures SameEntry(e, Put(e, k, s), l)
  {
    if Slot(k).Some? && Slot(k) == Slot(l) { KindsApart(k, l); }
  }

  lemma LiquidityKeepsEntry(e: Entries, p: Pool, l: Key)
    requires l.LpKey?
    ensures SameEntry(e, WithLiquidity(e, p), l)
  {
    var a := PutNum(e, PoolKey(p.id, ReserveA), p.reserveA);
    PutKeepsEntry(e, PoolKey(p.id, ReserveA), Digits(p.reserveA), l);
    PutKeepsEntry(a, PoolKey(p.id, ReserveB), Digits(p.reserveB), l);
    PutKeepsEntry(WithReserves(e, p), PoolKey(p.id, TotalLp), Digits(p.totalLp), l);
    hide Put, Digits, Slot;
  }

  lemma DropIsLost(e: Entries, x: Entries, k: Key)
    requires e.Keys <= x.Keys && SameEntry(e, x, k)
    ensures e + Drop(x, k) == x
  {
    hide Slot;
  }

  /** Only deletions make a difference. */
  lemma CarriedIs(e: Entries, c: Call)
    ensures Carried(e, c) ==
            if Deletes(e, c) then WithLiquidity(e, StoredEffect(e, c).pool) else StoredAfter(e, c)
  {
    hide StoredEffect, Put, Drop, WithLiquidity, SameEntry, AfterCreate, AfterAdd, AfterSwap;
    var r := StoredEffect(e, c);
    if Deletes(e, c) {
      LiquidityGrows(e, r.pool);
      LiquidityKeepsEntry(e, r.pool, LpKey(r.pool.id, c.caller));
      DropIsLost(e, WithLiquidity(e, r.pool), LpKey(r.pool.id, c.caller));
    } else {
      if r.Done? { WriteGrows(e, c, r.pool); }
      GrownCovers(e, StoredAfter(e, c));
    }
  }

  lemma WholeShareIsDeletion(s: State, c: Call)
    requires Inv(s)
    ensures TakesWholeShare(s, c) <==>
            && c.action.RemoveLiquidity? && 0 < c.action.lp
            && var r := CallEffect(s, c);
            && r.Done? && r.pool.ShareOf(c.caller) == 0
  {
    if c.action.RemoveLiquidity? && c.action.poolId in s.pools {
      var p := s.pools[c.action.poolId];
      assert PoolInv(p);
      RemovalLeaves(p, c.caller, c.action.lp, c.action.minA, c.action.minB);
    }
  }

  lemma RemovalLeaves(p: Pool, who: string, lp: nat, minA: nat, minB: nat)
    requires PoolInv(p)
    ensures var r := RemoveEffect(p, who, lp, minA, minB);
            && (r.Done? <==>
                  && lp <= p.ShareOf(who)
                  && Fits(lp * p.reserveA) && minA <= lp * p.reserveA / p.totalLp
                  && Fits(lp * p.reserveB) && minB <= lp * p.reserveB / p.totalLp)
            && (r.Done? ==> r.pool.ShareOf(who) == p.ShareOf(who) - lp)
  {
    RemoveTrapsOnlyOnProducts(p, who, lp, minA, minB);
  }

  /** After a removal of the whole share the share is still on record, which the exchange says is gone. */
  lemma ShareComesBack(e: Entries, s: State, c: Call)
    requires Stores(e, s) && Inv(s) && Agreeable(c) && TakesWholeShare(s, c)
    ensures Num(Carried(e, c), LpKey(c.action.poolId, c.caller)) == c.action.lp
    ensures After(s, c).pools[c.action.poolId].ShareOf(c.caller) == 0
    ensures !Stores(Carried(e, c), After(s, c))
  {
    var id := c.action.poolId;
    WholeShareIsDeletion(s, c);
    AnswersAgree(e, s, c);
    OutcomeFits(e, s, c);
    CarriedIs(e, c);
    LiquidityKeepsShares(e, StoredEffect(e, c).pool, c.caller);
    assert Same(PoolSeen(e, id, c.caller), s.pools[id], c.caller);
    hide StoredEffect, Str, Num, WithLiquidity, Carried, PoolInv;
    assert PoolSeen(Carried(e, c), id, c.caller).ShareOf(c.caller) == c.action.lp;
  }

  lemma OtherCallsCarry(e: Entries, s: State, c: Call)
    requires Stores(e, s) && Inv(s) && Small(s) && Agreeable(c) && !TakesWholeShare(s, c) && !Outgrows(s, c)
    ensures Stores(Carried(e, c), After(s, c))
  {
    hide StoredEffect, CallEffect, Stores, Small, Inv, Outgrows, PoolFits, Wrote, WithLiquidity, Carried, StoredAfter;
    CallRefines(e, s, c);
    CarriedIs(e, c);
    if Deletes(e, c) {
      WholeShareIsDeletion(s, c);
      CallWrote(e, s, c);
      OutcomeFits(e, s, c);
      OnlyLiquidity(e, c);
      NothingToDelete(e, s, c);
      LiquidityWrote(e, StoredEffect(e, c).pool, c.caller);
      WriteRefines(e, Carried(e, c), s, c);
    }
  }

  lemma NothingToDelete(e: Entries, s: State, c: Call)
    requires Stores(e, s) && Inv(s) && Agreeable(c) && Deletes(e, c) && !TakesWholeShare(s, c)
    ensures Num(e, LpKey(c.action.poolId, c.caller)) == StoredEffect(e, c).pool.ShareOf(c.caller) == 0
  {
    hide Str, Num;
    WholeShareIsDeletion(s, c);
    AnswersAgree(e, s, c);
    assert Same(PoolSeen(e, c.action.poolId, c.caller), s.pools[c.action.poolId], c.caller);
  }

  // ---------------------------------------------------------------- keys without room

  lemma ShareIsRead(e: Entries, s: State, id: string, who: string)
    requires Stores(e, s) && id in s.pools && Plain(who)
    ensures Num(e, LpKey(id, who)) == s.pools[id].ShareOf(who)
  {
    hide Num, Str, Lists;
    assert Same(PoolSeen(e, id, who), s.pools[id], who);
  }

  /** Whoever has a share under too long a key has it under a second name as well. */
  lemma LongShareFails(e: Entries, s: State, id: string, who: string)
    requires id in s.pools && Plain(who) && !ShortShare(id, who)
    requires s.pools[id].ShareOf(who) > 0 && s.pools[id].ShareOf(who + "x") == 0
    ensures !Stores(e, s)
  {
    var k, l := LpKey(id, who), LpKey(id, who + "x");
    ShortShareIs(id, who);
    LongerSameSlot(k);
    assert Str(e, k) == Str(e, l) && Num(e, k) == Num(e, l);
    if Stores(e, s) {
      hide Num, Str, Longer, Stores;
      ShareIsRead(e, s, id, who);
      ShareIsRead(e, s, id, who + "x");
    }
  }

  /** A field that is not empty, under too long a key, makes a pool of another name. */
  lemma LongFieldFails(e: Entries, s: State, id: string, f: PoolField)
    requires !Short(PoolKey(id, f)) && Str(e, PoolKey(id, f)) != "" && id + ":" + PoolFieldName(f) !in s.pools
    ensures !Stores(e, s)
  {
    LongerSameSlot(PoolKey(id, f));
    hide PoolFieldName;
    assert Str(e, PoolKey(id, f)) == Str(e, Longer(PoolKey(id, f)));
    assert Exists(e, id + ":" + PoolFieldName(f));
  }

  /** The reserve of such a pool is read, or it is the first to have too long a key. */
  lemma LongPoolFails(e: Entries, s: State, id: string)
    requires id in s.pools && s.pools[id].reserveA > 0 && !ShortPool(id)
    requires forall j :: j in s.pools && j != id ==> ShortPool(j)
    requires |id| == 1008 ==> Str(e, PoolKey(id, LastTrade)) != ""
    ensures !Stores(e, s)
  {
    hide Stores, Str;
    if Stores(e, s) {
      ReserveIsThere(e, s, id);
      if |id| == 1008 { LongFieldFails(e, s, id, LastTrade); } else { LongFieldFails(e, s, id, ReserveA); }
    }
  }

  lemma ReserveIsThere(e: Entries, s: State, id: string)
    requires Stores(e, s) && id in s.pools && s.pools[id].reserveA > 0
    ensures Str(e, PoolKey(id, ReserveA)) != ""
  {
    assert Plain("");
    assert Same(PoolSeen(e, id, ""), s.pools[id], "");
    hide Str;
    assert Num(e, PoolKey(id, ReserveA)) > 0;
  }

  lemma LastFieldReads(e: Entries, id: string)
    requires |id| == 1008
    ensures var k := PoolKey(id, LastTrade); Str(PutNum(e, k, 0), k) != ""
  {
    assert |Render(PoolKey(id, LastTrade))| == MAX_KEY;
    hide Render;
  }

  /** The last field that a creation writes is there, if its key is not cut. */
  lemma LastFieldIsThere(e: Entries, p: Pool, who: string)
    requires |p.id| == 1008
    ensures Str(AfterCreate(e, p, who), PoolKey(p.id, LastTrade)) != ""
  {
    var k := PoolKey(p.id, LastTrade);
    var fee := PutNum(WithLiquidity(Put(Put(e, PoolKey(p.id, TokenA), p.tokenA), PoolKey(p.id, TokenB), p.tokenB), p),
                      PoolKey(p.id, FeeBps), p.feeBps);
    var last := PutNum(Put(fee, PoolKey(p.id, Creator), who), k, 0);
    LastFieldReads(Put(fee, PoolKey(p.id, Creator), who), p.id);
    hide Put, Str, Num, WithLiquidity, Render, Digits;
    StillThere(last, k, LpKey(p.id, who), Digits(p.ShareOf(who)), ListKey(Count(e)), p.id, Digits(Count(e) + 1));
  }

  /** Entries of other kinds, a share, a place in the list and the count, leave it there. */
  lemma StillThere(e: Entries, k: Key, share: Key, s: string, place: Key, t: string, u: string)
    requires k.PoolKey? && share.LpKey? && place.ListKey? && Str(e, k) != ""
    ensures Str(Put(Put(Put(e, share, s), place, t), DexKey(PoolCount), u), k) != ""
  {
    hide Put, Str;
    PutOtherKind(e, share, s, k);
    PutOtherKind(Put(e, share, s), place, t, k);
    PutOtherKind(Put(Put(e, share, s), place, t), DexKey(PoolCount), u, k);
  }

  lemma OutgrowingFails(e: Entries, s: State, c: Call)
    requires Stores(e, s) && Inv(s) && Small(s) && Agreeable(c) && Outgrows(s, c)
    ensures !Stores(Carried(e, c), After(s, c))
  {
    hide Stores, Small, Str, Num, Outgrows, StoredEffect, StoredAfter, CallEffect, PoolInv;
    var id, who := c.action.Target(), c.caller;
    OutgrowsIs(s, c);
    var p, s' := CallEffect(s, c).pool, After(s, c);
    CallKeepsPool(s, c);
    if ShortPool(id) {
      OthersKeepShares(s, c, who + "x");
      NobodyElseLong(s, id, who + "x");
      LongShareFails(Carried(e, c), s', id, who);
    } else {
      ShortIds(s);
      ReservesArePositive(p);
      if c.action.AddLiquidity? { CallerHadShare(s, c); }
      if |id| == 1008 { CreatedLastField(e, s, c); }
      LongPoolFails(Carried(e, c), s', id);
    }
  }

  lemma ReservesArePositive(p: Pool)
    requires PoolInv(p)
    ensures p.reserveA > 0
  {
  }

  lemma ShortIds(s: State)
    requires Small(s)
    ensures forall j :: j in s.pools ==> ShortPool(j)
  {
  }

  lemma NobodyElseLong(s: State, id: string, who: string)
    requires Small(s) && !ShortShare(id, who)
    ensures id in s.pools ==> s.pools[id].ShareOf(who) == 0
  {
  }

  lemma CreatedLastField(e: Entries, s: State, c: Call)
    requires Stores(e, s) && Inv(s) && Agreeable(c) && CallEffect(s, c).Done? && c.action.CreatePool?
    requires |c.action.Target()| == 1008
    ensures Str(Carried(e, c), PoolKey(c.action.Target(), LastTrade)) != ""
  {
    hide Str, AfterCreate, StoredEffect, CallEffect, Stores;
    AnswersAgree(e, s, c);
    OutcomeFits(e, s, c);
    CarriedIs(e, c);
    LastFieldIsThere(e, StoredEffect(e, c).pool, c.caller);
  }

  // ---------------------------------------------------------------- one call, exactly

  lemma OnlyNumericCreates(e: Entries, s: State, c: Call)
    requires Stores(e, s) && Inv(s) && Sendable(c) && !Agreeable(c)
    ensures Stores(Carried(e, c), After(s, c)) <==> !(RefusedHereOnly(s, c) && s.count < U64_MAX)
  {
    RefusedHereOnlyIs(s, c);
    RefusedOutright(e, c);
    SoundCreationIs(s, c);
    GrownCovers(e, e);
    hide StoredEffect, StoredAfter, CallEffect, SoundCreation, Str, Num, Lists;
    if RefusedHereOnly(s, c) && s.count < U64_MAX {
      assert c.action.Target() in After(s, c).pools && !Exists(e, c.action.Target());
    }
  }

  /**
   * The calls after which store and exchange part ways, as can be told before the call: a whole
   * share is taken, a pool only the numeric exchange allows is made, or there is no room for a key.
   */
  ghost predicate PartsWays(s: State, c: Call) {
    TakesWholeShare(s, c) || (RefusedHereOnly(s, c) && s.count < U64_MAX) || Outgrows(s, c)
  }

  /** What is kept of a call stands for the state after it, or the call is one of those. */
  lemma CarriedDecodesExactly(e: Entries, s: State, c: Call)
    requires Stores(e, s) && Inv(s) && Small(s) && Sendable(c)
    ensures Stores(Carried(e, c), After(s, c)) <==> !PartsWays(s, c)
  {
    hide Stores, Small, Carried, TakesWholeShare, Outgrows, CallEffect, Inv, SoundCreation;
    if !Agreeable(c) {
      OnlyNumericCreates(e, s, c);
      NoOtherReason(s, c);
    } else if TakesWholeShare(s, c) {
      ShareComesBack(e, s, c);
    } else if Outgrows(s, c) {
      OutgrowingFails(e, s, c);
    } else {
      OtherCallsCarry(e, s, c);
      AgreeableIsNotRefused(s, c);
    }
  }

  lemma AgreeableIsNotRefused(s: State, c: Call)
    requires Agreeable(c)
    ensures !RefusedHereOnly(s, c)
  {
  }

  /** A creation refused here that also outgrows the room is one that only the numeric exchange allows. */
  lemma NoOtherReason(s: State, c: Call)
    requires Sendable(c) && !Agreeable(c)
    ensures !TakesWholeShare(s, c)
    ensures Outgrows(s, c) ==> RefusedHereOnly(s, c) && s.count < U64_MAX
  {
  }

  // ---------------------------------------------------------------- runs

  /** The store stands for the state of the exchange before and after every call. */
  ghost predicate DecodesThroughout(e: Entries, s: State, calls: seq<Call>)
    decreases |calls|
  {
    Stores(e, s) && (calls == [] || DecodesThroughout(Carried(e, calls[0]), After(s, calls[0]), calls[1..]))
  }

  ghost predicate NeverParts(s: State, calls: seq<Call>)
    decreases |calls|
  {
    calls == [] || (!PartsWays(s, calls[0]) && NeverParts(After(s, calls[0]), calls[1..]))
  }

  lemma {:induction false} RunDecodesExactly(e: Entries, s: State, calls: seq<Call>)
    requires Stores(e, s) && Inv(s) && Small(s) && forall c :: c in calls ==> Sendable(c)
    ensures DecodesThroughout(e, s, calls) <==> NeverParts(s, calls)
    decreases |calls|
  {
    hide Stores, Small, Carried, After, Inv, TakesWholeShare, Outgrows, RefusedHereOnly;
    if calls != [] {
      var c := calls[0];
      CarriedDecodesExactly(e, s, c);
      CallKeepsInv(s, c);
      if !PartsWays(s, c) {
        SmallAfter(s, c);
        RunDecodesExactly(Carried(e, c), After(s, c), calls[1..]);
      } else if Stores(Carried(e, c), After(s, c)) {
        assert false;
      } else {
        NotFromTheStart(Carried(e, c), After(s, c), calls[1..]);
      }
    }
  }

  lemma NotFromTheStart(e: Entries, s: State, calls: seq<Call>)
    requires !Stores(e, s)
    ensures !DecodesThroughout(e, s, calls)
  {
  }

  /**
   * From deployment on, the stored entries are those of the exchange after every call exactly
   * when no call takes a whole share, makes a pool that only the numeric exchange allows, or
   * outgrows the room there is for keys.
   */
  lemma HostedStoreDecodesExactly(owner: string, calls: seq<Call>)
    requires forall c :: c in calls ==> Sendable(c)
    ensures DecodesThroughout(Deployed(owner), EMPTY, calls) <==> NeverParts(EMPTY, calls)
  {
    hide Deployed, Stores, Small, DecodesThroughout, NeverParts;
    DeployedIsEmpty(owner);
    RunDecodesExactly(Deployed(owner), EMPTY, calls);
  }

  lemma {:induction false} LastDecodes(e: Entries, s: State, calls: seq<Call>)
    requires DecodesThroughout(e, s, calls)
    ensures Stores(CarriedRun(e, calls), Run(s, calls))
    decreases |calls|
  {
    hide Stores, Carried, After;
    if calls != [] { LastDecodes(Carried(e, calls[0]), After(s, calls[0]), calls[1..]); }
  }

  /** After such a run the store holds what the numeric exchange holds, pool by pool and share by share. */
  lemma StoreDecodes(owner: string, calls: seq<Call>)
    requires (forall c :: c in calls ==> Sendable(c)) && NeverParts(EMPTY, calls)
    ensures Stores(CarriedRun(Deployed(owner), calls), Run(EMPTY, calls))
  {
    hide Deployed, Stores, Small, DecodesThroughout, NeverParts, Run, CarriedRun;
    HostedStoreDecodesExactly(owner, calls);
    LastDecodes(Deployed(owner), EMPTY, calls);
  }

  // ---------------------------------------------------------------- runs that fail

  /** A pool of a token with a name so long that its fields are all kept in one place. */
  lemma LongNameFails(owner: string, name: string, c: Call)
    requires |name| == 1100 && Plain(name)
    requires c == Call("alice", CreatePool(name, "B", 2000, 3000, None), 0)
    ensures Sendable(c) && CallEffect(EMPTY, c).Done?
    ensures !Stores(Carried(Deployed(owner), c), After(EMPTY, c))
  {
    hide Deployed, Stores, Small, Carried, CallEffect;
    assert |c.action.Target()| > 1100;
    assert c.action.amountA * c.action.amountB == 6_000_000;
    assert SoundCreation(EMPTY, c) && Outgrows(EMPTY, c);
    SoundCreationIs(EMPTY, c);
    DeployedIsEmpty(owner);
    OutgrowingFails(Deployed(owner), EMPTY, c);
  }

  const SMALL_POOL := Action.CreatePool("A", "B", 2000, 2000, None)

  lemma SmallPool(s: State)
    requires s == After(EMPTY, Call("alice", SMALL_POOL, 0))
    ensures SMALL_POOL.Target() in s.pools
    ensures var p := s.pools[SMALL_POOL.Target()];
            p.ShareOf("alice") == 1000 && p.totalLp == p.reserveA == p.reserveB == 2000
  {
    RootIs(4_000_000);
    RootUnique(4_000_000, 2000, Root(4_000_000));
    assert SMALL_POOL.amountA * SMALL_POOL.amountB == 4_000_000;
  }

  lemma SmallPoolTaken(s: State, c: Call)
    requires s == After(EMPTY, Call("alice", SMALL_POOL, 0))
    requires c.caller == "alice" && c.action == RemoveLiquidity(SMALL_POOL.Target(), 1000, 0, 0)
    ensures TakesWholeShare(s, c)
  {
    SmallPool(s);
  }

  lemma FirstTakes(s: State, calls: seq<Call>)
    requires calls != [] && TakesWholeShare(s, calls[0])
    ensures !NeverParts(s, calls)
  {
    hide TakesWholeShare;
  }

  lemma LaterTakes(s: State, s': State, calls: seq<Call>)
    requires calls != [] && s' == After(s, calls[0]) && !NeverParts(s', calls[1..])
    ensures !NeverParts(s, calls)
  {
    hide After, PartsWays;
  }

  lemma FirstCall(owner: string, c: Call)
    requires c == Call("alice", SMALL_POOL, 0)
    ensures Stores(Carried(Deployed(owner), c), After(EMPTY, c)) && Inv(After(EMPTY, c))
  {
    hide Deployed, Stores, Small, Carried, CallEffect, After;
    DeployedIsEmpty(owner);
    CallKeepsInv(EMPTY, c);
    assert |c.action.Target()| == 8;
    OtherCallsCarry(Deployed(owner), EMPTY, c);
  }

  /** The creator of a pool takes its share out: after that run the share is on record again. */
  lemma WholeShareIsBack(owner: string, e: Entries, s: State, calls: seq<Call>)
    requires |calls| == 2 && calls[0] == Call("alice", SMALL_POOL, 0)
    requires calls[1] == Call("alice", RemoveLiquidity(SMALL_POOL.Target(), 1000, 0, 0), 0)
    requires e == Carried(Deployed(owner), calls[0]) && s == After(EMPTY, calls[0])
    ensures Stores(e, s) && !Stores(Carried(e, calls[1]), After(s, calls[1])) && !NeverParts(EMPTY, calls)
    ensures Num(Carried(e, calls[1]), LpKey(SMALL_POOL.Target(), "alice")) == 1000
  {
    hide Deployed, Stores, Carried, After, Num, NeverParts, TakesWholeShare;
    FirstCall(owner, calls[0]);
    SmallPoolTaken(s, calls[1]);
    ShareComesBack(e, s, calls[1]);
    FirstTakes(s, calls[1..]);
    LaterTakes(EMPTY, s, calls);
  }

  // ---------------------------------------------------------------- the contract record of the virtual machine

  /** The exported calls that change pools. */
  datatype Export = CreatePoolExport | AddLiquidityExport | RemoveLiquidityExport | SwapExport

  ghost function Decoded(x: Export, args: seq<string>): Option<Action> {
    match x
    case CreatePoolExport => CreateArgs(args)
    case AddLiquidityExport => AddArgs(args)
    case RemoveLiquidityExport => RemoveArgs(args)
    case SwapExport => SwapArgs(args)
  }

  /** The answer `r` is that of the decoded call, and the entries kept after it are `e'`. */
  ghost predicate Hosts(e: Entries, e': Entries, action: Option<Action>, caller: string, now: nat, r: Response) {
    if !Initialized(e) || action.None? then r == Rejected && e' == e
    else
      var c := Call(caller, action.value, now);
      Answers(r, StoredEffect(e, c)) && e' == Carried(e, c)
  }

  /** Only a swap looks at the time. */
  lemma TimeIsForSwaps(e: Entries, c: Call, now: nat)
    requires !c.action.Swap?
    ensures StoredEffect(e, c.(now := now)) == StoredEffect(e, c)
    ensures StoredAfter(e, c.(now := now)) == StoredAfter(e, c)
  {
    hide Str, Num, Put;
  }

  lemma PerformedIsHosted(e: Entries, w: Entries, x: Export, args: seq<string>, caller: string, now: nat, r: Response)
    requires Performs(e, w, Decoded(x, args), caller, if x.SwapExport? then now else 0, r)
    ensures Hosts(e, e + w, Decoded(x, args), caller, now, r)
    ensures r == Aborted ==> w == e
  {
    hide StoredEffect, Str;
    var action := Decoded(x, args);
    assert e + e == e;
    if action.Some? && !x.SwapExport? { TimeIsForSwaps(e, Call(caller, action.value, 0), now); }
  }

  class HostedExchange {
    var state: Entries

    /** Deployment: no entries but those that `init` writes. */
    constructor (owner: string)
      ensures state == Deployed(owner)
    {
      state := map[];
      new;
      var store := new KeyValueStore(state);
      var contract := new DexContract(store);
      SettingsAreNew();
      var ok := contract.Init(owner);
      state := store.Commit();
    }

    /** One call: the contract works on its own copy of the state, of which a call that aborts keeps nothing. */
    method Invoke(x: Export, args: seq<string>, caller: string, now: u64) returns (r: Response)
      modifies this
      ensures Hosts(old(state), state, Decoded(x, args), caller, now, r)
    {
      hide Hosts, Performs;
      var store := new KeyValueStore(state);
      var contract := new DexContract(store);
      match x {
        case CreatePoolExport => r := contract.CreatePool(caller, args);
        case AddLiquidityExport => r := contract.AddLiquidity(caller, args);
        case RemoveLiquidityExport => r := contract.RemoveLiquidity(caller, args);
        case SwapExport => r := contract.Swap(caller, args, now);
      }
      PerformedIsHosted(state, store.entries, x, args, caller, now, r);
      if r.Aborted? {
        assert state + store.entries == state;
      } else {
        state := store.Commit();
      }
    }
  }

  lemma SettingsAreNew()
    ensures !Initialized(map[])
  {
  }
}
