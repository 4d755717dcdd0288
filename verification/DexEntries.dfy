/** The exchange over a string-keyed store: what each exported call answers, writes, and reads back. */
module DexEntries {
  import opened Words
  import opened Text
  import opened Decimal
  import opened Storage
  import opened DexMath
  import opened Dex

  // ---------------------------------------------------------------- reading the store

  ghost predicate Exists(e: Entries, id: string) {
    Str(e, PoolKey(id, TokenA)) != ""
  }

  /** A pool as one caller reads it. */
  ghost function PoolSeen(e: Entries, id: string, who: string): Pool {
    Pool(id, Str(e, PoolKey(id, TokenA)), Str(e, PoolKey(id, TokenB)),
         Num(e, PoolKey(id, ReserveA)), Num(e, PoolKey(id, ReserveB)), Num(e, PoolKey(id, TotalLp)),
         map[who := Num(e, LpKey(id, who))],
         Num(e, PoolKey(id, FeeBps)), Num(e, PoolKey(id, LastTrade)), Str(e, PoolKey(id, Creator)))
  }

  ghost function Count(e: Entries): nat {
    Num(e, DexKey(PoolCount))
  }

  // ---------------------------------------------------------------- the exported calls

  /** A creation, given whether the pool exists and how many there are. */
  ghost function CreateDecision(found: bool, count: nat, caller: string, tokenA: string, tokenB: string, a: nat, b: nat,
                                fee: Option<nat>): Outcome
  {
    if a * b > U128_MAX then Failed
    else
      var r := CreateEffect(caller, tokenA, tokenB, a, b, fee, found);
      if r.Done? && count == U64_MAX then Trapped else r
  }

  ghost function StoredCreate(e: Entries, caller: string, tokenA: string, tokenB: string, a: nat, b: nat,
                              fee: Option<nat>): Outcome
  {
    CreateDecision(Exists(e, PoolId(tokenA, tokenB)), Count(e), caller, tokenA, tokenB, a, b, fee)
  }

  /** What an exported call answers, and the pool it writes. */
  ghost function StoredEffect(e: Entries, c: Call): Outcome {
    var id := c.action.Target();
    var seen := PoolSeen(e, id, c.caller);
    match c.action
    case CreatePool(tokenA, tokenB, a, b, fee) =>
      if tokenA == "" || tokenB == "" then Failed else StoredCreate(e, c.caller, tokenA, tokenB, a, b, fee)
    case AddLiquidity(_, a, b, minLp) =>
      if !Exists(e, id) || seen.reserveA == 0 || seen.reserveB == 0 || seen.totalLp == 0 then Failed
      else AddEffect(seen, c.caller, a, b, minLp)
    case RemoveLiquidity(_, lp, minA, minB) =>
      if Exists(e, id) then RemoveEffect(seen, c.caller, lp, minA, minB) else Failed
    case Swap(_, tokenIn, amountIn, minOut, deadline) =>
      if !Exists(e, id) || (deadline > 0 && c.now > deadline) then Failed
      else SwapEffect(seen, tokenIn, amountIn, minOut, c.now)
  }

  // What follows are the writes of each call, in their order: keys that are cut can fall on one entry.

  ghost function WithReserves(e: Entries, p: Pool): Entries {
    PutNum(PutNum(e, PoolKey(p.id, ReserveA), p.reserveA), PoolKey(p.id, ReserveB), p.reserveB)
  }

  ghost function WithLiquidity(e: Entries, p: Pool): Entries {
    PutNum(WithReserves(e, p), PoolKey(p.id, TotalLp), p.totalLp)
  }

  ghost function NewPoolEntries(e: Entries, p: Pool, who: string): Entries {
    var tokens := Put(Put(e, PoolKey(p.id, TokenA), p.tokenA), PoolKey(p.id, TokenB), p.tokenB);
    var fee := PutNum(WithLiquidity(tokens, p), PoolKey(p.id, FeeBps), p.feeBps);
    var creator := Put(fee, PoolKey(p.id, Creator), who);
    PutNum(PutNum(creator, PoolKey(p.id, LastTrade), 0), LpKey(p.id, who), p.ShareOf(who))
  }

  ghost function AfterCreate(e: Entries, p: Pool, who: string): Entries {
    PutNum(Put(NewPoolEntries(e, p, who), ListKey(Count(e)), p.id), DexKey(PoolCount), Count(e) + 1)
  }

  ghost function AfterAdd(e: Entries, p: Pool, who: string): Entries {
    PutNum(WithLiquidity(e, p), LpKey(p.id, who), p.ShareOf(who))
  }

  ghost function AfterRemove(e: Entries, p: Pool, who: string): Entries {
    if p.ShareOf(who) == 0 then Drop(WithLiquidity(e, p), LpKey(p.id, who)) else AfterAdd(e, p, who)
  }

  ghost function AfterSwap(e: Entries, p: Pool, aToB: bool): Entries {
    var swapped := if aToB then WithReserves(e, p)
                   else PutNum(PutNum(e, PoolKey(p.id, ReserveB), p.reserveB), PoolKey(p.id, ReserveA), p.reserveA);
    PutNum(swapped, PoolKey(p.id, LastTrade), p.lastTrade)
  }

  /** The entries once `p` is the outcome of a call. */
  ghost function Write(e: Entries, c: Call, p: Pool): Entries {
    match c.action
    case CreatePool(_, _, _, _, _) => AfterCreate(e, p, c.caller)
    case AddLiquidity(_, _, _, _) => AfterAdd(e, p, c.caller)
    case RemoveLiquidity(_, _, _, _) => AfterRemove(e, p, c.caller)
    case Swap(_, tokenIn, _, _, _) => AfterSwap(e, p, tokenIn == p.tokenA)
  }

  ghost function StoredAfter(e: Entries, c: Call): Entries {
    var r := StoredEffect(e, c);
    if r.Done? then Write(e, c, r.pool) else e
  }

  // ---------------------------------------------------------------- what a call wrote, as it is read

  /** Same pool, as far as `who` can tell. */
  ghost predicate Same(p: Pool, q: Pool, who: string) {
    p.(shares := map[]) == q.(shares := map[]) && p.ShareOf(who) == q.ShareOf(who)
  }

  /** Identifiers that leave room for every field name, "last_trade" being the longest. */
  predicate ShortPool(id: string) {
    |id| <= 1007
  }

  predicate ShortShare(id: string, who: string) {
    |id| + |who| <= 1019
  }

  lemma ShortPoolIs(id: string, f: PoolField)
    ensures ShortPool(id) ==> Short(PoolKey(id, f))
    ensures Short(PoolKey(id, LastTrade)) ==> ShortPool(id)
  {
  }

  lemma ShortShareIs(id: string, who: string)
    ensures ShortShare(id, who) <==> Short(LpKey(id, who))
  {
  }

  /** The text of one field. */
  ghost function Field(p: Pool, f: PoolField): string {
    match f
    case TokenA => p.tokenA
    case TokenB => p.tokenB
    case ReserveA => Digits(p.reserveA)
    case ReserveB => Digits(p.reserveB)
    case TotalLp => Digits(p.totalLp)
    case FeeBps => Digits(p.feeBps)
    case Creator => p.creator
    case LastTrade => Digits(p.lastTrade)
  }

  /** Some fields of `p` have been written; of other keys, only the LP entry of `who` may read differently. */
  ghost predicate HasFields(e: Entries, e': Entries, p: Pool, fs: set<PoolField>, who: string) {
    forall l {:trigger Str(e', l)} :: Sound(l) && l != LpKey(p.id, who) ==>
      Str(e', l) == if l.PoolKey? && l.id == p.id && l.poolField in fs then Field(p, l.poolField) else Str(e, l)
  }

  lemma NoFieldsYet(e: Entries, p: Pool, who: string)
    ensures HasFields(e, e, p, {}, who)
  {
  }

  lemma FieldStep(e: Entries, e': Entries, p: Pool, fs: set<PoolField>, who: string, f: PoolField, s: string)
    requires HasFields(e, e', p, fs, who) && ShortPool(p.id) && s == Field(p, f)
    ensures HasFields(e, Put(e', PoolKey(p.id, f), s), p, fs + {f}, who)
  {
    hide Str, Put, Field;
    ShortPoolIs(p.id, f);
    PutSets(e', PoolKey(p.id, f), s);
  }

  lemma ReservesAreWritten(e: Entries, e': Entries, p: Pool, fs: set<PoolField>, who: string)
    requires HasFields(e, e', p, fs, who) && ShortPool(p.id)
    ensures HasFields(e, WithReserves(e', p), p, fs + {ReserveA, ReserveB}, who)
  {
    hide HasFields, Put;
    var a := PutNum(e', PoolKey(p.id, ReserveA), p.reserveA);
    FieldStep(e, e', p, fs, who, ReserveA, Digits(p.reserveA));
    FieldStep(e, a, p, fs + {ReserveA}, who, ReserveB, Digits(p.reserveB));
    assert fs + {ReserveA} + {ReserveB} == fs + {ReserveA, ReserveB};
  }

  lemma LiquidityIsWritten(e: Entries, e': Entries, p: Pool, fs: set<PoolField>, who: string)
    requires HasFields(e, e', p, fs, who) && ShortPool(p.id)
    ensures HasFields(e, WithLiquidity(e', p), p, fs + {ReserveA, ReserveB, TotalLp}, who)
  {
    hide HasFields, Put, WithReserves;
    ReservesAreWritten(e, e', p, fs, who);
    FieldStep(e, WithReserves(e', p), p, fs + {ReserveA, ReserveB}, who, TotalLp, Digits(p.totalLp));
    assert fs + {ReserveA, ReserveB} + {TotalLp} == fs + {ReserveA, ReserveB, TotalLp};
  }

  /** The amounts of a pool fit the types they are read back with. */
  ghost predicate PoolFits(p: Pool, who: string) {
    && Fits(p.reserveA) && Fits(p.reserveB) && Fits(p.totalLp) && Fits(p.feeBps) && Fits(p.ShareOf(who))
    && p.lastTrade <= U64_MAX
  }

  ghost predicate Agrees(seen: Pool, p: Pool, f: PoolField) {
    match f
    case TokenA => seen.tokenA == p.tokenA
    case TokenB => seen.tokenB == p.tokenB
    case ReserveA => seen.reserveA == p.reserveA
    case ReserveB => seen.reserveB == p.reserveB
    case TotalLp => seen.totalLp == p.totalLp
    case FeeBps => seen.feeBps == p.feeBps
    case Creator => seen.creator == p.creator
    case LastTrade => seen.lastTrade == p.lastTrade
  }

  /** `p` is what was seen, but for some fields. */
  ghost predicate SeenBut(seen: Pool, p: Pool, fs: set<PoolField>) {
    seen.id == p.id && forall f :: f !in fs ==> Agrees(seen, p, f)
  }

  lemma NumberIsRead(e: Entries, k: Key, n: nat)
    requires Str(e, k) == Digits(n) && Limit(k).Some? && n <= Limit(k).value
    ensures Num(e, k) == n
  {
    ParsePrinted(n, Limit(k).value);
  }

  /** The number of a numeric field. */
  ghost function Amount(p: Pool, f: PoolField): nat {
    match f
    case ReserveA => p.reserveA
    case ReserveB => p.reserveB
    case TotalLp => p.totalLp
    case FeeBps => p.feeBps
    case LastTrade => p.lastTrade
    case _ => 0
  }

  lemma AmountIsRead(e: Entries, p: Pool, who: string, f: PoolField)
    requires PoolFits(p, who) && Limit(PoolKey(p.id, f)).Some? && Str(e, PoolKey(p.id, f)) == Field(p, f)
    ensures Num(e, PoolKey(p.id, f)) == Amount(p, f)
  {
    hide Str, Num, Digits;
    NumberIsRead(e, PoolKey(p.id, f), Amount(p, f));
  }

  lemma FieldIsRead(e: Entries, e': Entries, p: Pool, fs: set<PoolField>, who: string, f: PoolField)
    requires HasFields(e, e', p, fs, who) && PoolFits(p, who) && SeenBut(PoolSeen(e, p.id, who), p, fs)
    ensures Agrees(PoolSeen(e', p.id, who), p, f)
  {
    var k := PoolKey(p.id, f);
    assert Str(e', k) == if f in fs then Field(p, f) else Str(e, k) by { hide Str, Field; }
    if f in fs {
      hide HasFields, SeenBut, Str, Num, Digits, PoolFits;
      if Limit(k).Some? { AmountIsRead(e', p, who, f); }
    } else {
      hide HasFields, Str, Parsed, PoolFits;
      assert Agrees(PoolSeen(e, p.id, who), p, f);
    }
  }

  /** What a call wrote, as it is read: one pool, one LP entry of it, and the pool list if the pool is new. */
  ghost predicate Wrote(e: Entries, e': Entries, p: Pool, who: string, created: bool) {
    && Same(PoolSeen(e', p.id, who), p, who)
    && Elsewhere(e, e', p.id, who)
    && SameList(e, e', Count(e))
    && Count(e') == (if created then Count(e) + 1 else Count(e))
    && (created ==> Str(e', ListKey(Count(e))) == p.id)
  }

  /** Outside one pool and one LP entry of it, everything reads the same. */
  ghost predicate Elsewhere(e: Entries, e': Entries, id: string, who: string) {
    && (forall k: Key {:trigger Str(e', k)} {:trigger Num(e', k)} :: k.PoolKey? && k.id != id ==>
          Str(e', k) == Str(e, k) && Num(e', k) == Num(e, k))
    && (forall k: Key {:trigger Num(e', k)} :: k.LpKey? && Sound(k) && k != LpKey(id, who) ==>
          Num(e', k) == Num(e, k))
  }

  ghost predicate SameList(e: Entries, e': Entries, n: nat) {
    forall i :: 0 <= i < n ==> Str(e', ListKey(i)) == Str(e, ListKey(i))
  }

  lemma AllFieldsAgree(seen: Pool, p: Pool)
    requires seen.id == p.id && forall f :: Agrees(seen, p, f)
    ensures seen.(shares := map[]) == p.(shares := map[])
  {
    assert Agrees(seen, p, TokenA) && Agrees(seen, p, TokenB) && Agrees(seen, p, Creator);
    assert Agrees(seen, p, ReserveA) && Agrees(seen, p, ReserveB) && Agrees(seen, p, TotalLp);
    assert Agrees(seen, p, FeeBps) && Agrees(seen, p, LastTrade);
  }

  lemma FieldsAreRead(e: Entries, e': Entries, p: Pool, fs: set<PoolField>, who: string)
    requires HasFields(e, e', p, fs, who) && PoolFits(p, who) && SeenBut(PoolSeen(e, p.id, who), p, fs)
    requires Num(e', LpKey(p.id, who)) == p.ShareOf(who)
    ensures Same(PoolSeen(e', p.id, who), p, who)
  {
    forall f ensures Agrees(PoolSeen(e', p.id, who), p, f) { FieldIsRead(e, e', p, fs, who, f); }
    hide HasFields, Str, PoolFits, Agrees, SeenBut;
    AllFieldsAgree(PoolSeen(e', p.id, who), p);
  }

  lemma FieldsOnly(e: Entries, e': Entries, p: Pool, fs: set<PoolField>, who: string)
    requires HasFields(e, e', p, fs, who)
    ensures Elsewhere(e, e', p.id, who) && SameList(e, e', Count(e)) && Count(e') == Count(e)
  {
    hide Str;
    assert Str(e', DexKey(PoolCount)) == Str(e, DexKey(PoolCount));
  }

  lemma FieldsWrote(e: Entries, e': Entries, p: Pool, fs: set<PoolField>, who: string)
    requires HasFields(e, e', p, fs, who) && PoolFits(p, who) && SeenBut(PoolSeen(e, p.id, who), p, fs)
    requires Num(e', LpKey(p.id, who)) == p.ShareOf(who)
    ensures Wrote(e, e', p, who, false)
  {
    FieldsAreRead(e, e', p, fs, who);
    FieldsOnly(e, e', p, fs, who);
  }

  /** Writing the LP entry. */
  lemma ShareStep(e: Entries, e': Entries, p: Pool, fs: set<PoolField>, who: string)
    requires HasFields(e, e', p, fs, who) && ShortShare(p.id, who) && Plain(who) && Fits(p.ShareOf(who))
    ensures var w := PutNum(e', LpKey(p.id, who), p.ShareOf(who));
            HasFields(e, w, p, fs, who) && Num(w, LpKey(p.id, who)) == p.ShareOf(who)
  {
    hide Str, Put, Digits, Field;
    var k := LpKey(p.id, who);
    ShortShareIs(p.id, who);
    PutSets(e', k, Digits(p.ShareOf(who)));
    NumberIsRead(PutNum(e', k, p.ShareOf(who)), k, p.ShareOf(who));
  }

  lemma DropStep(e: Entries, e': Entries, p: Pool, fs: set<PoolField>, who: string)
    requires HasFields(e, e', p, fs, who) && ShortShare(p.id, who) && Plain(who)
    ensures var w := Drop(e', LpKey(p.id, who));
            HasFields(e, w, p, fs, who) && Num(w, LpKey(p.id, who)) == 0
  {
    hide Str, Drop, Field;
    var k := LpKey(p.id, who);
    ShortShareIs(p.id, who);
    DropSets(e', k);
    assert Str(Drop(e', k), k) == "";
  }

  /** `p` is what `who` saw, but for reserves, LP supply and share. */
  ghost predicate LiquidityOnly(seen: Pool, p: Pool) {
    p == seen.(reserveA := p.reserveA, reserveB := p.reserveB, totalLp := p.totalLp, shares := p.shares)
  }

  /** `p` is what was seen, but for reserves and trade time. */
  ghost predicate TradeOnly(seen: Pool, p: Pool) {
    p == seen.(reserveA := p.reserveA, reserveB := p.reserveB, lastTrade := p.lastTrade)
  }

  lemma AddFrame(p: Pool, who: string, a: nat, b: nat, minLp: nat)
    ensures var r := AddEffect(p, who, a, b, minLp); r.Done? ==> LiquidityOnly(p, r.pool)
  {
  }

  lemma RemoveFrame(p: Pool, who: string, lp: nat, minA: nat, minB: nat)
    ensures var r := RemoveEffect(p, who, lp, minA, minB); r.Done? ==> LiquidityOnly(p, r.pool)
  {
  }

  lemma SwapFrame(p: Pool, tokenIn: string, amountIn: nat, minOut: nat, now: nat)
    ensures var r := SwapEffect(p, tokenIn, amountIn, minOut, now); r.Done? ==> TradeOnly(p, r.pool)
  {
  }

  lemma AddWrote(e: Entries, p: Pool, who: string)
    requires ShortPool(p.id) && ShortShare(p.id, who) && Plain(who) && PoolFits(p, who)
    requires LiquidityOnly(PoolSeen(e, p.id, who), p)
    ensures Wrote(e, AfterAdd(e, p, who), p, who, false)
  {
    hide HasFields, Put, WithLiquidity, Wrote, Str, Num;
    var fs := {} + {ReserveA, ReserveB, TotalLp};
    NoFieldsYet(e, p, who);
    LiquidityIsWritten(e, e, p, {}, who);
    ShareStep(e, WithLiquidity(e, p), p, fs, who);
    FieldsWrote(e, AfterAdd(e, p, who), p, fs, who);
  }

  lemma RemoveWrote(e: Entries, p: Pool, who: string)
    requires ShortPool(p.id) && ShortShare(p.id, who) && Plain(who) && PoolFits(p, who)
    requires LiquidityOnly(PoolSeen(e, p.id, who), p)
    ensures Wrote(e, AfterRemove(e, p, who), p, who, false)
  {
    hide HasFields, Put, Drop, WithLiquidity, Wrote, Str, Num;
    var fs := {} + {ReserveA, ReserveB, TotalLp};
    if p.ShareOf(who) == 0 {
      NoFieldsYet(e, p, who);
      LiquidityIsWritten(e, e, p, {}, who);
      DropStep(e, WithLiquidity(e, p), p, fs, who);
      FieldsWrote(e, AfterRemove(e, p, who), p, fs, who);
    } else {
      AddWrote(e, p, who);
    }
  }

  /** The fields alone, where the share stays as it was read. */
  lemma LiquidityWrote(e: Entries, p: Pool, who: string)
    requires ShortPool(p.id) && PoolFits(p, who) && LiquidityOnly(PoolSeen(e, p.id, who), p)
    requires Num(e, LpKey(p.id, who)) == p.ShareOf(who)
    ensures Wrote(e, WithLiquidity(e, p), p, who, false)
  {
    hide HasFields, WithLiquidity, Wrote, Str, Num;
    NoFieldsYet(e, p, who);
    LiquidityIsWritten(e, e, p, {}, who);
    LiquidityKeepsShares(e, p, who);
    FieldsWrote(e, WithLiquidity(e, p), p, {} + {ReserveA, ReserveB, TotalLp}, who);
  }

  lemma PoolPutKeepsShare(e: Entries, id: string, f: PoolField, s: string, l: Key)
    requires l.LpKey?
    ensures Str(Put(e, PoolKey(id, f), s), l) == Str(e, l) && Num(Put(e, PoolKey(id, f), s), l) == Num(e, l)
  {
    PutOtherKind(e, PoolKey(id, f), s, l);
  }

  lemma LiquidityKeepsShares(e: Entries, p: Pool, who: string)
    ensures Num(WithLiquidity(e, p), LpKey(p.id, who)) == Num(e, LpKey(p.id, who))
  {
    hide Put, Num, Str;
    var a := PutNum(e, PoolKey(p.id, ReserveA), p.reserveA);
    PoolPutKeepsShare(e, p.id, ReserveA, Digits(p.reserveA), LpKey(p.id, who));
    PoolPutKeepsShare(a, p.id, ReserveB, Digits(p.reserveB), LpKey(p.id, who));
    PoolPutKeepsShare(WithReserves(e, p), p.id, TotalLp, Digits(p.totalLp), LpKey(p.id, who));
  }

  // ---------------------------------------------------------------- a new pool, a trade

  lemma TokensAreWritten(e: Entries, p: Pool, who: string)
    requires ShortPool(p.id)
    ensures HasFields(e, Put(Put(e, PoolKey(p.id, TokenA), p.tokenA), PoolKey(p.id, TokenB), p.tokenB), p,
                      {TokenA, TokenB}, who)
  {
    hide HasFields, Put;
    NoFieldsYet(e, p, who);
    FieldStep(e, e, p, {}, who, TokenA, p.tokenA);
    FieldStep(e, Put(e, PoolKey(p.id, TokenA), p.tokenA), p, {} + {TokenA}, who, TokenB, p.tokenB);
    assert {} + {TokenA} + {TokenB} == {TokenA, TokenB};
  }

  lemma RestIsWritten(e: Entries, e': Entries, p: Pool, who: string, fs: set<PoolField>)
    requires ShortPool(p.id) && p.creator == who && p.lastTrade == 0 && HasFields(e, e', p, fs, who)
    ensures var fee := PutNum(e', PoolKey(p.id, FeeBps), p.feeBps);
            var creator := Put(fee, PoolKey(p.id, Creator), who);
            HasFields(e, PutNum(creator, PoolKey(p.id, LastTrade), 0), p, fs + {FeeBps, Creator, LastTrade}, who)
  {
    hide HasFields, Put, Digits;
    var fee := PutNum(e', PoolKey(p.id, FeeBps), p.feeBps);
    var creator := Put(fee, PoolKey(p.id, Creator), who);
    FieldStep(e, e', p, fs, who, FeeBps, Digits(p.feeBps));
    FieldStep(e, fee, p, fs + {FeeBps}, who, Creator, who);
    FieldStep(e, creator, p, fs + {FeeBps} + {Creator}, who, LastTrade, Digits(0));
    assert fs + {FeeBps} + {Creator} + {LastTrade} == fs + {FeeBps, Creator, LastTrade};
  }

  lemma NewPoolWrote(e: Entries, p: Pool, who: string)
    requires ShortPool(p.id) && ShortShare(p.id, who) && Plain(who) && PoolFits(p, who)
    requires p.creator == who && p.lastTrade == 0
    ensures Wrote(e, NewPoolEntries(e, p, who), p, who, false)
  {
    hide HasFields, Put, WithLiquidity, Wrote, Str, Num, Digits;
    var tokens := Put(Put(e, PoolKey(p.id, TokenA), p.tokenA), PoolKey(p.id, TokenB), p.tokenB);
    var fee := PutNum(WithLiquidity(tokens, p), PoolKey(p.id, FeeBps), p.feeBps);
    var fields := PutNum(Put(fee, PoolKey(p.id, Creator), who), PoolKey(p.id, LastTrade), 0);
    var fs := {TokenA, TokenB} + {ReserveA, ReserveB, TotalLp} + {FeeBps, Creator, LastTrade};
    TokensAreWritten(e, p, who);
    LiquidityIsWritten(e, tokens, p, {TokenA, TokenB}, who);
    RestIsWritten(e, WithLiquidity(tokens, p), p, who, {TokenA, TokenB} + {ReserveA, ReserveB, TotalLp});
    ShareStep(e, fields, p, fs, who);
    EveryField(PoolSeen(e, p.id, who), p, fs);
    FieldsWrote(e, NewPoolEntries(e, p, who), p, fs, who);
  }

  lemma EveryField(seen: Pool, p: Pool, fs: set<PoolField>)
    requires seen.id == p.id && fs == {TokenA, TokenB} + {ReserveA, ReserveB, TotalLp} + {FeeBps, Creator, LastTrade}
    ensures SeenBut(seen, p, fs)
  {
  }

  lemma ListKeyIsShort(i: nat)
    requires i <= U128_MAX
    ensures Short(ListKey(i)) && Short(DexKey(PoolCount))
  {
    PrintedLength(i);
  }

  /** A new pool takes the next place of the list. */
  lemma ListWrote(e: Entries, e': Entries, p: Pool, who: string)
    requires Wrote(e, e', p, who, false) && Plain(who) && Count(e) < U64_MAX
    ensures Wrote(e, PutNum(Put(e', ListKey(Count(e)), p.id), DexKey(PoolCount), Count(e) + 1), p, who, true)
  {
    var n := Count(e);
    var f := Put(e', ListKey(n), p.id);
    var g := PutNum(f, DexKey(PoolCount), n + 1);
    hide Put, Str, Digits;
    ListKeyIsShort(n);
    PutSets(e', ListKey(n), p.id);
    PutSets(f, DexKey(PoolCount), Digits(n + 1));
    SameReadingWrote(e, e', f, g, p, who, n);
  }

  lemma SameReadingWrote(e: Entries, e': Entries, f: Entries, g: Entries, p: Pool, who: string, n: nat)
    requires Wrote(e, e', p, who, false) && Plain(who) && n == Count(e) < U64_MAX
    requires Sets(e', f, ListKey(n), p.id) && Sets(f, g, DexKey(PoolCount), Digits(n + 1))
    ensures Wrote(e, g, p, who, true)
  {
    hide Str, Digits, Parsed;
    NumberIsRead(g, DexKey(PoolCount), n + 1);
    assert Str(g, ListKey(n)) == Str(f, ListKey(n)) == p.id;
    assert PoolSeen(g, p.id, who) == PoolSeen(e', p.id, who);
    assert SameList(e, g, n) by {
      forall i | 0 <= i < n ensures Str(g, ListKey(i)) == Str(e, ListKey(i)) {
        assert Str(g, ListKey(i)) == Str(f, ListKey(i)) == Str(e', ListKey(i)) == Str(e, ListKey(i));
      }
    }
    OtherKeysElsewhere(e, e', f, g, p.id, who, n, p.id, Digits(n + 1));
  }

  lemma OtherKeysElsewhere(e: Entries, e': Entries, f: Entries, g: Entries, id: string, who: string, n: nat,
                           s: string, t: string)
    requires Elsewhere(e, e', id, who) && Sets(e', f, ListKey(n), s) && Sets(f, g, DexKey(PoolCount), t)
    ensures Elsewhere(e, g, id, who)
  {
    hide Str, Parsed;
    forall k: Key | (k.PoolKey? || k.LpKey?) && Sound(k) ensures Str(g, k) == Str(e', k) && Num(g, k) == Num(e', k) {
      assert Str(g, k) == Str(f, k) == Str(e', k);
    }
    hide Num;
  }

  lemma CreateWrote(e: Entries, p: Pool, who: string)
    requires ShortPool(p.id) && ShortShare(p.id, who) && Plain(who) && PoolFits(p, who)
    requires p.creator == who && p.lastTrade == 0 && Count(e) < U64_MAX
    ensures Wrote(e, AfterCreate(e, p, who), p, who, true)
  {
    hide Put, Wrote, NewPoolEntries;
    NewPoolWrote(e, p, who);
    ListWrote(e, NewPoolEntries(e, p, who), p, who);
  }

  lemma TradeIsWritten(e: Entries, p: Pool, aToB: bool, who: string)
    requires ShortPool(p.id)
    ensures HasFields(e, AfterSwap(e, p, aToB), p, {ReserveA, ReserveB, LastTrade}, who)
  {
    hide HasFields, Put, Digits;
    NoFieldsYet(e, p, who);
    var fs := {ReserveA, ReserveB};
    if aToB {
      hide WithReserves;
      ReservesAreWritten(e, e, p, {}, who);
      assert {} + {ReserveA, ReserveB} == fs;
      FieldStep(e, WithReserves(e, p), p, fs, who, LastTrade, Digits(p.lastTrade));
    } else {
      var b := PutNum(e, PoolKey(p.id, ReserveB), p.reserveB);
      FieldStep(e, e, p, {}, who, ReserveB, Digits(p.reserveB));
      FieldStep(e, b, p, {} + {ReserveB}, who, ReserveA, Digits(p.reserveA));
      assert {} + {ReserveB} + {ReserveA} == fs;
      FieldStep(e, PutNum(b, PoolKey(p.id, ReserveA), p.reserveA), p, fs, who, LastTrade, Digits(p.lastTrade));
    }
    assert fs + {LastTrade} == {ReserveA, ReserveB, LastTrade};
  }

  lemma TradeKeepsShares(e: Entries, p: Pool, aToB: bool, l: Key)
    requires l.LpKey?
    ensures Num(AfterSwap(e, p, aToB), l) == Num(e, l)
  {
    hide Put, Str, Num, Digits;
    var (f, g) := if aToB then (ReserveA, ReserveB) else (ReserveB, ReserveA);
    var a := PutNum(e, PoolKey(p.id, f), Amount(p, f));
    var b := PutNum(a, PoolKey(p.id, g), Amount(p, g));
    PoolPutKeepsShare(e, p.id, f, Digits(Amount(p, f)), l);
    PoolPutKeepsShare(a, p.id, g, Digits(Amount(p, g)), l);
    PoolPutKeepsShare(b, p.id, LastTrade, Digits(p.lastTrade), l);
  }

  lemma SwapWrote(e: Entries, p: Pool, who: string, aToB: bool)
    requires ShortPool(p.id) && PoolFits(p, who)
    requires TradeOnly(PoolSeen(e, p.id, who), p)
    ensures Wrote(e, AfterSwap(e, p, aToB), p, who, false)
  {
    hide HasFields, AfterSwap, Wrote, Str, Num;
    TradeIsWritten(e, p, aToB, who);
    TradeKeepsShares(e, p, aToB, LpKey(p.id, who));
    FieldsWrote(e, AfterSwap(e, p, aToB), p, {ReserveA, ReserveB, LastTrade}, who);
  }

  /** All text, and the number of every LP entry, read the same. */
  ghost predicate ReadsAlike(e: Entries, e': Entries) {
    && (forall l: Key {:trigger Str(e', l)} {:trigger Num(e', l)} :: !l.LpKey? ==>
          Str(e', l) == Str(e, l) && Num(e', l) == Num(e, l))
    && (forall l: Key {:trigger Num(e', l)} :: l.LpKey? && Sound(l) ==> Num(e', l) == Num(e, l))
  }

  lemma AlikeWrote(e: Entries, x: Entries, e': Entries, p: Pool, who: string, created: bool)
    requires Wrote(e, x, p, who, created) && ReadsAlike(x, e') && Plain(who)
    ensures Wrote(e, e', p, who, created)
  {
    hide Num, Str;
    assert PoolSeen(e', p.id, who) == PoolSeen(x, p.id, who);
    assert Elsewhere(e, e', p.id, who) by { hide Same, SameList, PoolSeen; }
    assert SameList(e, e', Count(e)) by { hide Same, Elsewhere, PoolSeen; }
  }
}
