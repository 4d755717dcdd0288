/** The contracts' string-keyed storage, and the typed keys it is used with. */
module Storage {
  import opened Words
  import opened Text
  import opened Decimal

  datatype PoolField = TokenA | TokenB | ReserveA | ReserveB | TotalLp | FeeBps | Creator | LastTrade
  datatype DexField = DexInit | DexOwner | PoolCount
  datatype TokenField = TokenInit | Name | Symbol | Decimals | TotalSupply | Owner | IsWrapped | WrappedOrigin
                      | MaxSupply | BridgeOperator

  /** One key for each thing a contract stores. An allowance is keyed by the text `owner:spender`. */
  datatype Key =
    | DexKey(dexField: DexField)
    | PoolKey(id: string, poolField: PoolField)
    | LpKey(id: string, who: string)
    | ListKey(index: nat)
    | TokenKey(tokenField: TokenField)
    | BalanceKey(who: string)
    | AllowanceKey(pair: string)

  function PoolFieldName(f: PoolField): string {
    match f
    case TokenA => "token_a"
    case TokenB => "token_b"
    case ReserveA => "reserve_a"
    case ReserveB => "reserve_b"
    case TotalLp => "total_lp"
    case FeeBps => "fee_bps"
    case Creator => "creator"
    case LastTrade => "last_trade"
  }

  function DexFieldName(f: DexField): string {
    match f
    case DexInit => "init"
    case DexOwner => "owner"
    case PoolCount => "pool_count"
  }

  function TokenFieldName(f: TokenField): string {
    match f
    case TokenInit => "init"
    case Name => "name"
    case Symbol => "symbol"
    case Decimals => "decimals"
    case TotalSupply => "total_supply"
    case Owner => "owner"
    case IsWrapped => "is_wrapped"
    case WrappedOrigin => "wrapped_origin"
    case MaxSupply => "max_supply"
    case BridgeOperator => "bridge_operator"
  }

  function Prefix(k: Key): string {
    match k
    case DexKey(_) => "dex:"
    case PoolKey(_, _) => "pool:"
    case LpKey(_, _) => "lp:"
    case ListKey(_) => "pool_list:"
    case TokenKey(_) => "usp01:"
    case BalanceKey(_) => "bal:"
    case AllowanceKey(_) => "allow:"
  }

  ghost function Rest(k: Key): string {
    match k
    case DexKey(f) => DexFieldName(f)
    case PoolKey(id, f) => id + ":" + PoolFieldName(f)
    case LpKey(id, who) => id + ":" + who
    case ListKey(i) => Digits(i)
    case TokenKey(f) => TokenFieldName(f)
    case BalanceKey(who) => who
    case AllowanceKey(pair) => pair
  }

  /** The string a key is stored under. */
  ghost function Render(k: Key): string {
    Prefix(k) + Rest(k)
  }

  /** Pool identifiers hold colons, addresses do not. */
  predicate Sound(k: Key) {
    k.LpKey? ==> Plain(k.who)
  }

  // ---------------------------------------------------------------- keys do not collide

  lemma PrefixesDiffer(k: Key, l: Key)
    requires Render(k) == Render(l)
    ensures Prefix(k) == Prefix(l)
  {
    var s, t := Render(k), Render(l);
    assert s[0] == Prefix(k)[0] && t[0] == Prefix(l)[0];
    if s[0] == 'p' {
      assert s[4] == Prefix(k)[4] && t[4] == Prefix(l)[4];
    }
  }

  lemma PoolFieldNames(f: PoolField, g: PoolField)
    ensures Plain(PoolFieldName(f))
    ensures PoolFieldName(f) == PoolFieldName(g) ==> f == g
  {
    assert PoolFieldName(f)[0] in "trfcl";
    if PoolFieldName(f) == PoolFieldName(g) {
      assert PoolFieldName(f)[|PoolFieldName(f)| - 1] == PoolFieldName(g)[|PoolFieldName(g)| - 1];
    }
  }

  lemma DexFieldNames(f: DexField, g: DexField)
    ensures DexFieldName(f) == DexFieldName(g) ==> f == g
  {
    assert DexFieldName(f)[0] == 'i' <==> f == DexInit;
    assert DexFieldName(g)[0] == 'i' <==> g == DexInit;
  }

  lemma TokenFieldNames(f: TokenField, g: TokenField)
    ensures TokenFieldName(f) == TokenFieldName(g) ==> f == g
  {
    var s, t := TokenFieldName(f), TokenFieldName(g);
    if s == t {
      assert s[0] == t[0] && s[1] == t[1] && |s| == |t|;
    }
  }

  /** Keys that name different things are different strings. */
  lemma RenderInjective(k: Key, l: Key)
    requires Sound(k) && Sound(l) && Render(k) == Render(l)
    ensures k == l
  {
    PrefixesDiffer(k, l);
    SamePrefix(Prefix(k), Rest(k), Rest(l));
    match k
    case DexKey(f) => DexFieldNames(f, l.dexField);
    case PoolKey(id, f) =>
      PoolFieldNames(f, l.poolField);
      PoolFieldNames(l.poolField, f);
      LastColonSplit(id, PoolFieldName(f), l.id, PoolFieldName(l.poolField));
    case LpKey(id, who) => LastColonSplit(id, who, l.id, l.who);
    case ListKey(i) => DigitsInjective(i, l.index);
    case TokenKey(f) => TokenFieldNames(f, l.tokenField);
    case BalanceKey(_) =>
    case AllowanceKey(_) =>
  }

  // ---------------------------------------------------------------- where an entry is kept

  /** The host reads no more of a key than this. */
  const MAX_KEY: nat := 1024

  /** A byte that continues a character of more than one byte. */
  predicate Continues(c: char) {
    0x80 <= c as int < 0xC0
  }

  /** What the host makes of a key: its first bytes, and nothing if they end inside a character. */
  function Cut(key: string): Option<string> {
    if |key| <= MAX_KEY then Some(key)
    else if Continues(key[MAX_KEY]) then None
    else Some(key[..MAX_KEY])
  }

  ghost function Slot(k: Key): Option<string> {
    Cut(Render(k))
  }

  /** The key is neither cut, nor what a longer key can be cut to. */
  ghost predicate Short(k: Key) {
    |Render(k)| < MAX_KEY
  }

  lemma CutKeepsPrefix(key: string, p: string)
    requires p <= key && |p| <= MAX_KEY && Cut(key).Some?
    ensures p <= Cut(key).value
  {
  }

  /** Keys of different kinds are kept apart, however long they are. */
  lemma KindsApart(k: Key, l: Key)
    requires Slot(k).Some? && Slot(k) == Slot(l)
    ensures Prefix(k) == Prefix(l)
  {
    CutKeepsPrefix(Render(k), Prefix(k));
    CutKeepsPrefix(Render(l), Prefix(l));
    var s := Slot(k).value;
    assert s[0] == Prefix(k)[0] == Prefix(l)[0];
    if s[0] == 'p' {
      assert s[4] == Prefix(k)[4] == Prefix(l)[4];
    }
  }

  lemma ShortApart(k: Key, l: Key)
    requires Sound(k) && Sound(l) && Short(k) && Slot(k) == Slot(l)
    ensures k == l
  {
    RenderInjective(k, l);
  }

  /** A key of the same kind that goes on after a whole key of at least that length. */
  ghost function Longer(k: Key): Key {
    match k
    case PoolKey(id, f) => PoolKey(id + ":" + PoolFieldName(f), TokenA)
    case LpKey(id, who) => LpKey(id, who + "x")
    case BalanceKey(who) => BalanceKey(who + "x")
    case AllowanceKey(pair) => AllowanceKey(pair + "x")
    case _ => k
  }

  lemma LongerSameSlot(k: Key)
    requires Sound(k) && !Short(k) && (k.PoolKey? || k.LpKey? || k.BalanceKey? || k.AllowanceKey?)
    ensures Sound(Longer(k)) && Longer(k) != k && Slot(Longer(k)) == Slot(k)
  {
    var s, t := Render(k), Render(Longer(k));
    var tail := if k.PoolKey? then ":token_a" else "x";
    assert t == s + tail;
    if |s| == MAX_KEY {
      assert t[MAX_KEY] == tail[0] && t[..MAX_KEY] == s;
    } else {
      assert t[MAX_KEY] == s[MAX_KEY] && t[..MAX_KEY] == s[..MAX_KEY];
    }
  }

  /** A key has its entry to itself exactly when it is shorter than what the host reads of a key. */
  lemma OwnEntryExactly(k: Key)
    requires Sound(k) && (k.PoolKey? || k.LpKey? || k.BalanceKey? || k.AllowanceKey?)
    ensures (forall l :: Sound(l) && Slot(l) == Slot(k) ==> l == k) <==> Short(k)
  {
    if Short(k) {
      forall l | Sound(l) && Slot(l) == Slot(k) ensures l == k { ShortApart(k, l); }
    } else {
      LongerSameSlot(k);
    }
  }

  /** The eight entries of one pool are kept apart exactly when its identifier has at most 1,009 bytes. */
  lemma PoolFieldsApartExactly(id: string)
    ensures (forall f, g :: Slot(PoolKey(id, f)) == Slot(PoolKey(id, g)) ==> f == g) <==> |id| <= 1009
  {
    var pre := "pool:" + id + ":";
    if |id| <= 1009 {
      forall f, g | Slot(PoolKey(id, f)) == Slot(PoolKey(id, g)) ensures f == g { FieldsApart(id, pre, f, g); }
    } else {
      var a, b := Render(PoolKey(id, ReserveA)), Render(PoolKey(id, ReserveB));
      assert a == pre + "reserve_a" && b == pre + "reserve_b";
      assert a[..MAX_KEY] == b[..MAX_KEY];
      assert |id| > 1010 ==> a[MAX_KEY] == b[MAX_KEY];
      assert Slot(PoolKey(id, ReserveA)) == Slot(PoolKey(id, ReserveB));
    }
  }

  lemma EndingsApart(pre: string, x: string, y: string)
    requires |pre| <= 1015 && x != "" && y != "" && Cut(pre + x).Some? && Cut(pre + x) == Cut(pre + y)
    ensures x[0] == y[0]
    ensures |x| <= 9 && |y| <= 9 ==> x == y
  {
    var s := Cut(pre + x).value;
    assert s[|pre|] == (pre + x)[|pre|] == (pre + y)[|pre|];
    if |x| <= 9 && |y| <= 9 { SamePrefix(pre, x, y); }
  }

  lemma EndingIsCut(pre: string, x: string)
    requires |pre| <= 1015 && |x| <= 10 && (|x| == 10 ==> x[9] == 'e')
    ensures Cut(pre + x).Some?
  {
    if |pre + x| > MAX_KEY { assert (pre + x)[MAX_KEY] == x[9]; }
  }

  /** Only one field name has ten letters, and only that one starts with an l. */
  lemma LongestFieldName(f: PoolField)
    ensures var x := PoolFieldName(f);
            && 7 <= |x| <= 10 && (|x| == 10 ==> x[9] == 'e')
            && (|x| == 10 <==> f == LastTrade) && (x[0] == 'l' <==> f == LastTrade)
  {
  }

  lemma FieldsApart(id: string, pre: string, f: PoolField, g: PoolField)
    requires pre == "pool:" + id + ":" && |id| <= 1009 && Slot(PoolKey(id, f)) == Slot(PoolKey(id, g))
    ensures f == g
  {
    hide PoolFieldName;
    var x, y := PoolFieldName(f), PoolFieldName(g);
    assert Render(PoolKey(id, f)) == pre + x && Render(PoolKey(id, g)) == pre + y;
    assert Cut(pre + x) == Cut(pre + y);
    hide *;
    LongestFieldName(f);
    LongestFieldName(g);
    EndingIsCut(pre, x);
    EndingsApart(pre, x, y);
    PoolFieldNames(f, g);
  }

  // ---------------------------------------------------------------- the entries

  type Entries = map<string, string>

  /** The largest number stored under a key; `None` for a key that holds text. */
  function Limit(k: Key): Option<nat> {
    match k
    case DexKey(f) => if f == PoolCount then Some(U64_MAX) else None
    case PoolKey(_, f) =>
      if f == LastTrade then Some(U64_MAX)
      else if f in {ReserveA, ReserveB, TotalLp, FeeBps} then Some(U128_MAX)
      else None
    case LpKey(_, _) => Some(U128_MAX)
    case ListKey(_) => None
    case TokenKey(f) => if f in {Decimals, TotalSupply, MaxSupply} then Some(U128_MAX) else None
    case BalanceKey(_) => Some(U128_MAX)
    case AllowanceKey(_) => Some(U128_MAX)
  }

  /** The string read under a key; a missing entry reads as the empty string. */
  ghost function Str(e: Entries, k: Key): string {
    if Slot(k).Some? && Slot(k).value in e then e[Slot(k).value] else ""
  }

  /** The number read under a key: anything that is not a number of its type counts as 0. */
  ghost function Num(e: Entries, k: Key): nat {
    Parsed(Str(e, k), if Limit(k).Some? then Limit(k).value else 0)
  }

  ghost function Put(e: Entries, k: Key, s: string): Entries {
    if Slot(k).Some? then e[Slot(k).value := s] else e
  }

  ghost function PutNum(e: Entries, k: Key, n: nat): Entries {
    Put(e, k, Digits(n))
  }

  ghost function Drop(e: Entries, k: Key): Entries {
    if Slot(k).Some? then e - {Slot(k).value} else e
  }

  lemma NumFits(e: Entries, k: Key)
    requires Limit(k).Some?
    ensures Num(e, k) <= Limit(k).value
  {
  }

  /** A number read back is the number written, where the host keeps the entry at all. */
  lemma NumberRoundTrip(e: Entries, k: Key, n: nat)
    requires Limit(k).Some? && n <= Limit(k).value
    ensures Num(PutNum(e, k, n), k) == if Slot(k).Some? then n else 0
  {
    ParsePrinted(n, Limit(k).value);
  }

  /** Keys kept in different places do not see each other's entries. */
  lemma PutElsewhere(e: Entries, k: Key, s: string, l: Key)
    requires Slot(l) != Slot(k)
    ensures Str(Put(e, k, s), l) == Str(e, l) && Num(Put(e, k, s), l) == Num(e, l)
  {
  }

  lemma DropElsewhere(e: Entries, k: Key, l: Key)
    requires Slot(l) != Slot(k)
    ensures Str(Drop(e, k), l) == Str(e, l) && Num(Drop(e, k), l) == Num(e, l)
  {
  }

  lemma DropOtherKind(e: Entries, k: Key, l: Key)
    requires Prefix(k) != Prefix(l)
    ensures Str(Drop(e, k), l) == Str(e, l) && Num(Drop(e, k), l) == Num(e, l)
  {
    if Slot(k).Some? && Slot(l) == Slot(k) { KindsApart(k, l); }
  }

  lemma PutOtherKind(e: Entries, k: Key, s: string, l: Key)
    requires Prefix(k) != Prefix(l)
    ensures Str(Put(e, k, s), l) == Str(e, l) && Num(Put(e, k, s), l) == Num(e, l)
  {
    if Slot(k).Some? && Slot(l) == Slot(k) { KindsApart(k, l); }
  }

  lemma PutGrows(e: Entries, k: Key, s: string)
    ensures e.Keys <= Put(e, k, s).Keys
  {
  }

  /** Entries that cover all saved ones are kept as they are. */
  lemma GrownCovers(e: Entries, e': Entries)
    requires e.Keys <= e'.Keys
    ensures e + e' == e'
  {
  }

  /** `k` now reads as `s`, and every other key as before. */
  ghost predicate Sets(e: Entries, e': Entries, k: Key, s: string) {
    forall l {:trigger Str(e', l)} :: Sound(l) ==> Str(e', l) == if l == k then s else Str(e, l)
  }

  /** Under a short key, writing changes what that key reads, and nothing else. */
  lemma PutSets(e: Entries, k: Key, s: string)
    requires Sound(k) && Short(k)
    ensures Sets(e, Put(e, k, s), k, s)
  {
    forall l | Sound(l) ensures Str(Put(e, k, s), l) == if l == k then s else Str(e, l) {
      if Slot(l) == Slot(k) { ShortApart(k, l); }
    }
  }

  /** So does deleting. */
  lemma DropSets(e: Entries, k: Key)
    requires Sound(k) && Short(k)
    ensures Sets(e, Drop(e, k), k, "")
  {
    forall l | Sound(l) ensures Str(Drop(e, k), l) == if l == k then "" else Str(e, l) {
      if Slot(l) == Slot(k) { ShortApart(k, l); }
    }
  }

  // ---------------------------------------------------------------- one call's working copy

  /** The key as a string, built as the contracts build it. */
  method KeyString(k: Key) returns (s: string)
    requires k.ListKey? ==> k.index <= U128_MAX
    ensures s == Render(k)
  {
    match k
    case DexKey(f) => s := "dex:" + DexFieldName(f);
    case PoolKey(id, f) => s := "pool:" + (id + ":" + PoolFieldName(f));
    case LpKey(id, who) => s := "lp:" + (id + ":" + who);
    case ListKey(i) =>
      var digits := Print(i);
      s := "pool_list:" + digits;
    case TokenKey(f) => s := "usp01:" + TokenFieldName(f);
    case BalanceKey(who) => s := "bal:" + who;
    case AllowanceKey(pair) => s := "allow:" + pair;
  }

  function Entry(e: Entries, key: string): string {
    if key in e then e[key] else ""
  }

  /** Only under the keys that were touched can the entries differ from the saved ones. */
  ghost predicate Tracked(saved: Entries, entries: Entries, dirty: set<string>) {
    forall key :: key !in dirty ==> (key in entries <==> key in saved) && Entry(entries, key) == Entry(saved, key)
  }

  /** A contract's entries during one call: those saved before it, and which keys it touched. */
  class KeyValueStore {
    const saved: Entries
    var entries: Entries
    var dirty: set<string>

    ghost predicate Valid()
      reads this
    {
      Tracked(saved, entries, dirty)
    }

    constructor (saved: Entries)
      ensures Valid() && this.saved == saved && entries == saved && dirty == {}
    {
      this.saved := saved;
      entries := saved;
      dirty := {};
    }

    method GetStr(k: Key) returns (s: string)
      requires k.ListKey? ==> k.index <= U128_MAX
      ensures s == Str(entries, k)
    {
      var key := KeyString(k);
      var cut := Cut(key);
      s := if cut.Some? then Entry(entries, cut.value) else "";
    }

    /** `get_state_u128` and `get_state_u64` */
    method GetNum(k: Key) returns (n: nat)
      requires Limit(k).Some?
      ensures n == Num(entries, k) <= Limit(k).value
    {
      var s := GetStr(k);
      n := Parse(s, Limit(k).value);
      NumFits(entries, k);
    }

    method SetStr(k: Key, s: string)
      requires Valid() && (k.ListKey? ==> k.index <= U128_MAX)
      modifies this
      ensures Valid() && entries == Put(old(entries), k, s)
    {
      var key := KeyString(k);
      var cut := Cut(key);
      if cut.Some? {
        entries := entries[cut.value := s];
        dirty := dirty + {cut.value};
      }
    }

    /** `set_state_u128` and `set_state_u64` */
    method SetNum(k: Key, n: nat)
      requires Valid() && n <= U128_MAX && !k.ListKey?
      modifies this
      ensures Valid() && entries == PutNum(old(entries), k, n)
    {
      var s := Print(n);
      SetStr(k, s);
    }

    method Delete(k: Key)
      requires Valid() && !k.ListKey?
      modifies this
      ensures Valid() && entries == Drop(old(entries), k)
    {
      var key := KeyString(k);
      var cut := Cut(key);
      if cut.Some? {
        entries := entries - {cut.value};
        dirty := dirty + {cut.value};
      }
    }

    /** The entries kept after the call: those it touched and did not delete, put over the saved ones. */
    method Commit() returns (state: Entries)
      requires Valid()
      ensures state == saved + entries
    {
      var changes := map key | key in dirty && key in entries :: entries[key];
      state := saved;
      var rest := changes.Keys;
      while rest != {}
        invariant rest <= changes.Keys
        invariant state.Keys == saved.Keys + (changes.Keys - rest)
        invariant forall key :: key in state ==>
                    state[key] == if key in changes && key !in rest then changes[key] else saved[key]
      {
        var key :| key in rest;
        state := state[key := changes[key]];
        rest := rest - {key};
      }
      assert forall key :: key in entries && key !in dirty ==> entries[key] == Entry(saved, key);
    }
  }
}
