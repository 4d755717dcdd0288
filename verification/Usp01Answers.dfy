/**
 * When each call on the token succeeds and what it then changes, read off the entries under
 * the keys' own texts.
 */
module Usp01Answers {
  import opened Words
  import opened Text
  import opened Decimal
  import opened Storage
  import opened Usp01

  // ---------------------------------------------------------------- reading entries by their text

  /** Where the host keeps what is stored under a text: not at all, if byte 1,024 goes on with a character. */
  ghost function Place(key: string): seq<string> {
    if |key| <= 1024 then [key] else if 0x80 <= key[1024] as int < 0xC0 then [] else [key[..1024]]
  }

  ghost function At(e: Entries, key: string): string {
    if Place(key) != [] && Place(key)[0] in e then e[Place(key)[0]] else ""
  }

  /** The u128 stored under a text, 0 for anything else. */
  ghost function AmountAt(e: Entries, key: string): nat {
    Parsed(At(e, key), 0xFFFF_FFFF_FFFF_FFFF_FFFF_FFFF_FFFF_FFFF)
  }

  ghost function Has(e: Entries, who: string): nat {
    AmountAt(e, "bal:" + who)
  }

  ghost function Allowed(e: Entries, owner: string, spender: string): nat {
    AmountAt(e, "allow:" + (owner + ":" + spender))
  }

  lemma PlaceIs(k: Key, l: Key)
    ensures Place(Render(k)) == (if Slot(k).Some? then [Slot(k).value] else [])
    ensures Place(Render(k)) == Place(Render(l)) <==> Slot(k) == Slot(l)
  {
    hide Render;
  }

  lemma TextIs(e: Entries, k: Key)
    ensures At(e, Render(k)) == Str(e, k)
    ensures Limit(k) == Some(U128_MAX) ==> AmountAt(e, Render(k)) == Num(e, k)
  {
    PlaceIs(k, k);
    hide Slot, Place, Parsed;
  }

  lemma TokenTexts()
    ensures Render(TokenKey(TokenInit)) == "usp01:init"
    ensures Render(TokenKey(IsWrapped)) == "usp01:is_wrapped"
    ensures Render(TokenKey(BridgeOperator)) == "usp01:bridge_operator"
    ensures Render(TokenKey(TotalSupply)) == "usp01:total_supply"
    ensures Render(TokenKey(MaxSupply)) == "usp01:max_supply"
  {
  }

  /** The settings a call reads are the entries under these texts. */
  lemma SettingTexts(e: Entries)
    ensures At(e, "usp01:init") == Str(e, TokenKey(TokenInit))
    ensures At(e, "usp01:is_wrapped") == Str(e, TokenKey(IsWrapped))
    ensures At(e, "usp01:bridge_operator") == Str(e, TokenKey(BridgeOperator))
    ensures AmountAt(e, "usp01:total_supply") == Supply(e)
    ensures AmountAt(e, "usp01:max_supply") == Cap(e)
  {
    hide At, AmountAt, Str, Num, Render;
    TokenTexts();
    TextIs(e, TokenKey(TokenInit));
    TextIs(e, TokenKey(IsWrapped));
    TextIs(e, TokenKey(BridgeOperator));
    TextIs(e, TokenKey(TotalSupply));
    TextIs(e, TokenKey(MaxSupply));
  }

  lemma HasIs(e: Entries, who: string)
    ensures Has(e, who) == BalanceOf(e, who) <= U128_MAX
  {
    TextIs(e, BalanceKey(who));
    NumFits(e, BalanceKey(who));
    hide AmountAt, Num;
  }

  lemma AllowedIs(e: Entries, owner: string, spender: string)
    ensures Allowed(e, owner, spender) == AllowanceOf(e, PairOf(owner, spender)) <= U128_MAX
  {
    TextIs(e, AllowanceKey(PairOf(owner, spender)));
    NumFits(e, AllowanceKey(PairOf(owner, spender)));
    hide AmountAt, Num;
  }

  // ---------------------------------------------------------------- when a call succeeds

  /** The two texts have one entry, or none at all. */
  ghost predicate Together(a: string, b: string) {
    Place(a) == Place(b)
  }

  /** `from` can pay, and what `to` then has fits a u128. */
  ghost predicate CanMove(e: Entries, from: string, to: string, amount: nat) {
    && amount <= Has(e, from)
    && (Together("bal:" + from, "bal:" + to) || Has(e, to) + amount <= 0xFFFF_FFFF_FFFF_FFFF_FFFF_FFFF_FFFF_FFFF)
  }

  ghost predicate Succeeds(e: Entries, caller: string, a: Action) {
    && At(e, "usp01:init") == "1"
    && match a
       case Transfer(to, amount) =>
         to != "" && amount > 0 && caller != "" && caller != to && CanMove(e, caller, to, amount)
       case Approve(spender, _) => spender != "" && caller != "" && caller != spender
       case TransferFrom(owner, to, amount) =>
         && owner != "" && to != "" && amount > 0 && owner != to && caller != ""
         && amount <= Allowed(e, owner, caller) && CanMove(e, owner, to, amount)
       case Burn(amount) => amount > 0 && caller != "" && amount <= Has(e, caller)
       case WrapMint(to, amount, proof) =>
         && At(e, "usp01:is_wrapped") == "1" && caller == At(e, "usp01:bridge_operator")
         && to != "" && amount > 0 && proof != ""
         && Has(e, to) + amount <= 0xFFFF_FFFF_FFFF_FFFF_FFFF_FFFF_FFFF_FFFF
         && var cap, supply := AmountAt(e, "usp01:max_supply"), AmountAt(e, "usp01:total_supply") + amount;
         cap == 0 || supply <= cap
       case WrapBurn(amount, destination) =>
         && At(e, "usp01:is_wrapped") == "1" && destination != ""
         && amount > 0 && caller != "" && amount <= Has(e, caller)
  }

  lemma MoveFits(e: Entries, from: string, to: string, amount: nat)
    requires 0 < amount <= BalanceOf(e, from)
    ensures Move(e, from, to, amount).ok <==> CanMove(e, from, to, amount)
  {
    HasIs(e, from);
    HasIs(e, to);
    PlaceIs(BalanceKey(from), BalanceKey(to));
    hide BalanceOf, WithBalance, Slot, Has, Place;
    WithBalanceReads(e, from, BalanceOf(e, from) - amount, to);
    PositiveIsKept(e, from);
  }

  lemma PositiveIsKept(e: Entries, who: string)
    requires BalanceOf(e, who) > 0
    ensures Slot(BalanceKey(who)).Some?
  {
    hide Slot;
  }

  lemma CapFits(e: Entries)
    ensures Cap(e) <= U128_MAX
  {
    NumFits(e, TokenKey(MaxSupply));
  }

  lemma TransferSucceeds(e: Entries, c: Call)
    requires c.action.Transfer? || c.action.TransferFrom?
    ensures CallEffect(e, c).ok <==> Succeeds(e, c.caller, c.action)
  {
    SettingTexts(e);
    var from := if c.action.Transfer? then c.caller else c.action.owner;
    HasIs(e, from);
    if c.action.TransferFrom? { AllowedIs(e, from, c.caller); }
    if 0 < c.action.amount <= BalanceOf(e, from) { MoveFits(e, from, c.action.to, c.action.amount); }
    hide At, AmountAt, Has, Allowed, Str, Put, Digits, Move, BalanceOf, AllowanceOf, Together;
  }

  lemma BurnSucceeds(e: Entries, c: Call)
    requires c.action.Burn? || c.action.WrapBurn? || c.action.Approve?
    ensures CallEffect(e, c).ok <==> Succeeds(e, c.caller, c.action)
  {
    SettingTexts(e);
    HasIs(e, c.caller);
    hide At, AmountAt, Has, Str, Put, Digits, Destroy, BalanceOf;
  }

  lemma MintSucceeds(e: Entries, c: Call)
    requires c.action.WrapMint?
    ensures CallEffect(e, c).ok <==> Succeeds(e, c.caller, c.action)
  {
    SettingTexts(e);
    HasIs(e, c.action.to);
    CapFits(e);
    hide At, AmountAt, Has, Str, Put, Digits, BalanceOf, WithBalance, WithSupply, Supply, Cap;
  }

  /** A call succeeds if and only if these guards hold. */
  lemma SucceedsExactly(e: Entries, c: Call)
    ensures CallEffect(e, c).ok <==> Succeeds(e, c.caller, c.action)
  {
    hide CallEffect, Succeeds;
    match c.action
    case Transfer(_, _) => TransferSucceeds(e, c);
    case TransferFrom(_, _, _) => TransferSucceeds(e, c);
    case WrapMint(_, _, _) => MintSucceeds(e, c);
    case _ => BurnSucceeds(e, c);
  }

  // ---------------------------------------------------------------- what it then changes

  /** Whom a call debits, and whom it credits; none for a call that does not. */
  ghost function Debited(caller: string, a: Action): seq<string> {
    match a
    case TransferFrom(owner, _, _) => [owner]
    case Approve(_, _) => []
    case WrapMint(_, _, _) => []
    case _ => [caller]
  }

  ghost function Credited(a: Action): seq<string> {
    match a
    case Transfer(to, _) => [to]
    case TransferFrom(_, to, _) => [to]
    case WrapMint(to, _, _) => [to]
    case _ => []
  }

  /** `who` has the balance of the one named, and has one at all. */
  ghost predicate Named(who: string, names: seq<string>) {
    names != [] && Place("bal:" + who) != [] && Together("bal:" + who, "bal:" + names[0])
  }

  lemma NamedIs(who: string, name: string)
    ensures Named(who, [name]) <==> Shared(who, name)
  {
    PlaceIs(BalanceKey(who), BalanceKey(name));
    hide Slot, Place;
  }

  lemma DestroyReads(e: Entries, from: string, amount: nat, who: string)
    requires amount <= BalanceOf(e, from) <= U128_MAX
    ensures BalanceOf(Destroy(e, from, amount), who) - BalanceOf(e, who) ==
            if Shared(who, from) then 0 - amount else 0
  {
    hide BalanceOf, WithBalance, WithSupply, Shared;
    var n := BalanceOf(e, from) - amount;
    WithBalanceReads(e, from, n, who);
    SupplyAsideBalances(WithBalance(e, from, n), Monus(Supply(e), amount), who);
    if Shared(who, from) { SharedRead(e, who, from); }
  }

  lemma BurnReads(e: Entries, c: Call, who: string)
    requires CallEffect(e, c).ok && (c.action.Burn? || c.action.WrapBurn?)
    ensures BalanceOf(CallEffect(e, c).entries, who) - BalanceOf(e, who) ==
            if Shared(who, c.caller) then 0 - c.action.amount else 0
  {
    NumFits(e, BalanceKey(c.caller));
    SuccessIs(e, c);
    hide CallEffect, Destroy, Shared, Str, Num;
    DestroyReads(e, c.caller, c.action.amount, who);
  }

  lemma ApproveReads(e: Entries, c: Call, who: string)
    requires CallEffect(e, c).ok && c.action.Approve?
    ensures BalanceOf(CallEffect(e, c).entries, who) == BalanceOf(e, who)
  {
    SuccessIs(e, c);
    PutOtherKind(e, AllowanceKey(PairOf(c.caller, c.action.spender)), Digits(c.action.amount), BalanceKey(who));
    hide CallEffect, Put, Str, Num;
  }

  /** Every name's balance: up by the amount if it is credited, down by it if it is debited. */
  lemma BalancesExactly(e: Entries, c: Call, who: string)
    requires CallEffect(e, c).ok
    ensures Has(CallEffect(e, c).entries, who) - Has(e, who) ==
            (if Named(who, Credited(c.action)) then c.action.amount else 0)
            - (if Named(who, Debited(c.caller, c.action)) then c.action.amount else 0)
  {
    HasIs(e, who);
    HasIs(CallEffect(e, c).entries, who);
    hide CallEffect, BalanceOf, Has, Shared, Place;
    match c.action
    case Transfer(to, _) =>
      TransferMoves(e, c, who);
      NamedIs(who, to);
      NamedIs(who, c.caller);
    case TransferFrom(owner, to, _) =>
      TransferMoves(e, c, who);
      NamedIs(who, to);
      NamedIs(who, owner);
    case WrapMint(to, _, _) =>
      MintReads(e, c, who);
      NamedIs(who, to);
    case Approve(_, _) => ApproveReads(e, c, who);
    case _ =>
      BurnReads(e, c, who);
      NamedIs(who, c.caller);
    hide Named;
  }

  /** Reads of settings are not changed by a balance or an allowance. */
  lemma SettingAside(e: Entries, k: Key, s: string, f: TokenField)
    requires !k.TokenKey?
    ensures Str(Put(e, k, s), TokenKey(f)) == Str(e, TokenKey(f))
  {
    SettingsStay(e, k, s, f);
  }

  lemma MoveSettings(e: Entries, from: string, to: string, amount: nat, f: TokenField)
    requires amount <= BalanceOf(e, from)
    ensures Str(Move(e, from, to, amount).entries, TokenKey(f)) == Str(e, TokenKey(f))
  {
    hide Put, Digits, BalanceOf, Str;
    var n := BalanceOf(e, from) - amount;
    var debited := WithBalance(e, from, n);
    SettingAside(e, BalanceKey(from), Digits(n), f);
    SettingAside(debited, BalanceKey(to), Digits(BalanceOf(debited, to) + amount), f);
  }

  lemma SupplySettings(e: Entries, who: string, n: nat, supply: nat, f: TokenField)
    requires supply <= U128_MAX
    ensures var w := WithSupply(WithBalance(e, who, n), supply);
            if f == TotalSupply then Supply(w) == supply else Str(w, TokenKey(f)) == Str(e, TokenKey(f))
  {
    var w := WithBalance(e, who, n);
    SettingAside(e, BalanceKey(who), Digits(n), f);
    TokenKeysAreShort(TotalSupply);
    PutSets(w, TokenKey(TotalSupply), Digits(supply));
    SupplyIsSet(w, supply);
    hide Put, Digits, Str, Num, Supply;
    assert f != TotalSupply ==> Str(WithSupply(w, supply), TokenKey(f)) == Str(w, TokenKey(f));
  }

  ghost predicate SettingsStand(e: Entries, w: Entries, f: TokenField) {
    Str(w, TokenKey(f)) == Str(e, TokenKey(f))
  }

  lemma OtherSettings(e: Entries, c: Call, f: TokenField)
    requires CallEffect(e, c).ok && (c.action.Transfer? || c.action.TransferFrom? || c.action.Approve?)
    ensures SettingsStand(e, CallEffect(e, c).entries, f)
  {
    hide CallEffect, Str, Put, Digits, Move, BalanceOf, AllowanceOf;
    SuccessIs(e, c);
    match c.action
    case Transfer(to, amount) => MoveSettings(e, c.caller, to, amount, f);
    case Approve(spender, amount) => SettingAside(e, AllowanceKey(PairOf(c.caller, spender)), Digits(amount), f);
    case TransferFrom(owner, to, amount) =>
      var pair, moved := PairOf(owner, c.caller), Move(e, owner, to, amount);
      MoveSettings(e, owner, to, amount, f);
      SettingAside(moved.entries, AllowanceKey(pair), Digits(AllowanceOf(e, pair) - amount), f);
  }

  lemma SupplyBurnt(e: Entries, c: Call, f: TokenField)
    requires CallEffect(e, c).ok && (c.action.Burn? || c.action.WrapBurn?)
    ensures var w := CallEffect(e, c).entries;
            if f == TotalSupply then Supply(w) == Monus(Supply(e), c.action.amount) else SettingsStand(e, w, f)
  {
    SupplyFits(e);
    hide CallEffect, Str, Num, BalanceOf, WithBalance, WithSupply, Supply, Mints;
    SuccessIs(e, c);
    SupplySettings(e, c.caller, BalanceOf(e, c.caller) - c.action.amount, Monus(Supply(e), c.action.amount), f);
  }

  lemma SupplyMinted(e: Entries, c: Call, f: TokenField)
    requires CallEffect(e, c).ok && c.action.WrapMint?
    ensures var w := CallEffect(e, c).entries;
            if f == TotalSupply then Supply(w) == Min(Supply(e) + c.action.amount, U128_MAX)
            else SettingsStand(e, w, f)
  {
    hide CallEffect, Str, Num, BalanceOf, WithBalance, WithSupply, Supply, Mints;
    SuccessIs(e, c);
    var to, amount := c.action.to, c.action.amount;
    SupplySettings(e, to, BalanceOf(e, to) + amount, Min(Supply(e) + amount, U128_MAX), f);
  }

  lemma SupplyFits(e: Entries)
    ensures Supply(e) <= U128_MAX
  {
    NumFits(e, TokenKey(TotalSupply));
  }

  /** No setting changes but the total supply, which a burn lowers and a mint raises, each stopping at its end. */
  lemma SettingsExactly(e: Entries, c: Call, f: TokenField)
    requires CallEffect(e, c).ok
    ensures var w, n := CallEffect(e, c).entries, AmountAt(e, "usp01:total_supply");
            if f == TotalSupply && (c.action.Burn? || c.action.WrapBurn?) then
              AmountAt(w, "usp01:total_supply") == if n < c.action.amount then 0 else n - c.action.amount
            else if f == TotalSupply && c.action.WrapMint? then
              AmountAt(w, "usp01:total_supply") ==
              if n + c.action.amount < 0x1_0000_0000_0000_0000_0000_0000_0000_0000 then n + c.action.amount
              else 0xFFFF_FFFF_FFFF_FFFF_FFFF_FFFF_FFFF_FFFF
            else At(w, Render(TokenKey(f))) == At(e, Render(TokenKey(f)))
  {
    hide CallEffect, At, AmountAt, Str, Num, Render, Supply, Cap;
    var w := CallEffect(e, c).entries;
    SettingTexts(e);
    SettingTexts(w);
    TextIs(e, TokenKey(f));
    TextIs(w, TokenKey(f));
    match c.action
    case WrapMint(_, _, _) => SupplyMinted(e, c, f);
    case Burn(_) => SupplyBurnt(e, c, f);
    case WrapBurn(_, _) => SupplyBurnt(e, c, f);
    case _ => OtherSettings(e, c, f);
  }

  lemma AllowanceSet(e: Entries, other: string, n: nat, pair: string)
    requires n <= U128_MAX && Slot(AllowanceKey(pair)).Some?
    ensures AllowanceOf(PutNum(e, AllowanceKey(other), n), pair) ==
            if SameAllowance(other, pair) then n else AllowanceOf(e, pair)
  {
    if SameAllowance(other, pair) { ParsePrinted(n, U128_MAX); }
    hide Slot, Digits, Parsed;
  }

  lemma NoAllowance(e: Entries, pair: string)
    requires Slot(AllowanceKey(pair)).None?
    ensures AllowanceOf(e, pair) == 0
  {
    hide Slot;
  }

  lemma SameAllowanceRead(e: Entries, p: string, q: string)
    requires SameAllowance(p, q)
    ensures AllowanceOf(e, p) == AllowanceOf(e, q)
  {
    hide Slot, Parsed;
  }

  lemma OtherAllowance(e: Entries, c: Call, pair: string)
    requires CallEffect(e, c).ok && !c.action.Approve? && !c.action.TransferFrom?
    ensures AllowanceOf(CallEffect(e, c).entries, pair) == AllowanceOf(e, pair)
  {
    hide CallEffect, AllowanceOf, BalanceOf, Move, WithBalance, WithSupply, Supply, Mints;
    SuccessIs(e, c);
    match c.action
    case Transfer(to, amount) => MoveAside(e, c.caller, to, amount, pair);
    case WrapMint(to, amount, _) =>
      SupplyAside(e, to, BalanceOf(e, to) + amount, Min(Supply(e) + amount, U128_MAX), pair);
    case Burn(amount) =>
      SupplyAside(e, c.caller, BalanceOf(e, c.caller) - amount, Monus(Supply(e), amount), pair);
    case WrapBurn(amount, _) =>
      SupplyAside(e, c.caller, BalanceOf(e, c.caller) - amount, Monus(Supply(e), amount), pair);
  }

  lemma SpentAllowance(e: Entries, c: Call, pair: string)
    requires CallEffect(e, c).ok && c.action.TransferFrom? && Slot(AllowanceKey(pair)).Some?
    ensures AllowanceOf(CallEffect(e, c).entries, pair) ==
            AllowanceOf(e, pair) - if SameAllowance(PairOf(c.action.owner, c.caller), pair) then c.action.amount else 0
  {
    hide CallEffect, AllowanceOf, BalanceOf, Move, PutNum, SameAllowance, Slot;
    SuccessIs(e, c);
    var other, moved := PairOf(c.action.owner, c.caller), Move(e, c.action.owner, c.action.to, c.action.amount).entries;
    MoveAside(e, c.action.owner, c.action.to, c.action.amount, pair);
    AllowanceFits(e, other);
    AllowanceSet(moved, other, AllowanceOf(e, other) - c.action.amount, pair);
    if SameAllowance(other, pair) { SameAllowanceRead(e, other, pair); }
  }

  lemma AllowanceAfter(e: Entries, c: Call, pair: string)
    requires CallEffect(e, c).ok && (c.action.Approve? ==> c.action.amount <= U128_MAX)
    requires Slot(AllowanceKey(pair)).Some?
    ensures AllowanceOf(CallEffect(e, c).entries, pair) ==
            match c.action
            case Approve(spender, amount) =>
              if SameAllowance(PairOf(c.caller, spender), pair) then amount else AllowanceOf(e, pair)
            case TransferFrom(owner, _, amount) =>
              AllowanceOf(e, pair) - (if SameAllowance(PairOf(owner, c.caller), pair) then amount else 0)
            case _ => AllowanceOf(e, pair)
  {
    hide CallEffect, AllowanceOf, PutNum, SameAllowance, Slot, Mints, Move, BalanceOf;
    match c.action
    case Approve(spender, amount) =>
      SuccessIs(e, c);
      AllowanceSet(e, PairOf(c.caller, spender), amount, pair);
    case TransferFrom(_, _, _) => SpentAllowance(e, c, pair);
    case _ => OtherAllowance(e, c, pair);
  }

  lemma TogetherIs(owner: string, spender: string, o: string, s: string)
    ensures Together("allow:" + (owner + ":" + spender), "allow:" + (o + ":" + s)) <==>
            SameAllowance(PairOf(owner, spender), PairOf(o, s))
    ensures Place("allow:" + (o + ":" + s)) != [] <==> Slot(AllowanceKey(PairOf(o, s))).Some?
  {
    PlaceIs(AllowanceKey(PairOf(owner, spender)), AllowanceKey(PairOf(o, s)));
    PlaceIs(AllowanceKey(PairOf(o, s)), AllowanceKey(PairOf(o, s)));
    hide Slot, Place;
  }

  /** Every pair's allowance: set by an approval of the pair, down by what the pair's spender moves, else as it was. */
  lemma AllowancesExactly(e: Entries, c: Call, owner: string, spender: string)
    requires CallEffect(e, c).ok && (c.action.Approve? ==> c.action.amount <= U128_MAX)
    ensures var w, pair := CallEffect(e, c).entries, "allow:" + (owner + ":" + spender);
            Allowed(w, owner, spender) ==
            if Place(pair) == [] then 0
            else
              match c.action
              case Approve(s, amount) =>
                if Together("allow:" + (c.caller + ":" + s), pair) then amount else Allowed(e, owner, spender)
              case TransferFrom(o, _, amount) =>
                Allowed(e, owner, spender)
                - (if Together("allow:" + (o + ":" + c.caller), pair) then amount else 0)
              case _ => Allowed(e, owner, spender)
  {
    var w, pair := CallEffect(e, c).entries, PairOf(owner, spender);
    AllowedIs(e, owner, spender);
    AllowedIs(w, owner, spender);
    TogetherIs(owner, spender, owner, spender);
    match c.action {
      case Approve(s, _) => TogetherIs(c.caller, s, owner, spender);
      case TransferFrom(o, _, _) => TogetherIs(o, c.caller, owner, spender);
      case _ =>
    }
    hide CallEffect, Allowed, AllowanceOf, Slot, Place, Together, SameAllowance;
    if Slot(AllowanceKey(pair)).Some? { AllowanceAfter(e, c, pair); } else { NoAllowance(w, pair); }
  }

  // ---------------------------------------------------------------- deployment

  lemma MoreTexts()
    ensures Render(TokenKey(Name)) == "usp01:name"
    ensures Render(TokenKey(Symbol)) == "usp01:symbol"
    ensures Render(TokenKey(Decimals)) == "usp01:decimals"
    ensures Render(TokenKey(WrappedOrigin)) == "usp01:wrapped_origin"
    ensures Render(TokenKey(Owner)) == "usp01:owner"
  {
  }

  lemma NumberText(e: Entries, key: string, n: nat)
    requires At(e, key) == Digits(n) && n <= U128_MAX
    ensures AmountAt(e, key) == n
  {
    ParsePrinted(n, U128_MAX);
  }

  /** What a new token's settings are, each under its own text. */
  lemma DeployedSettings(e: Entries, s: Setup, creator: string)
    requires s.decimals.Some? && s.decimals.value <= 18 && s.supply <= U128_MAX && s.cap <= U128_MAX
    ensures var w := Settings(e, s, creator);
            && At(w, "usp01:init") == "1" && At(w, "usp01:name") == s.name && At(w, "usp01:symbol") == s.symbol
            && AmountAt(w, "usp01:decimals") == s.decimals.value && AmountAt(w, "usp01:total_supply") == s.supply
            && At(w, "usp01:is_wrapped") == (if s.wrapped then "1" else "0")
            && At(w, "usp01:wrapped_origin") == s.origin && AmountAt(w, "usp01:max_supply") == s.cap
            && At(w, "usp01:bridge_operator") == s.operator && At(w, "usp01:owner") == creator
  {
    hide Settings, At, AmountAt, Str, Num, Render, Digits, Balances;
    var w := Settings(e, s, creator);
    SettingsRead(e, s, creator);
    SettingsChain(e, s, creator);
    SettingTexts(w);
    MoreTexts();
    TextIs(w, TokenKey(Name));
    TextIs(w, TokenKey(Symbol));
    TextIs(w, TokenKey(Decimals));
    TextIs(w, TokenKey(WrappedOrigin));
    TextIs(w, TokenKey(Owner));
    NumberText(w, "usp01:decimals", s.decimals.value);
  }

  /** And its creator has the whole supply; nobody else's balance is touched. */
  lemma DeployedBalances(e: Entries, s: Setup, creator: string, who: string)
    requires s.decimals.Some? && s.supply <= U128_MAX && s.cap <= U128_MAX
    ensures Has(Deployed(e, s, creator), who) == if Named(who, [creator]) then s.supply else Has(e, who)
  {
    hide Settings, Has, Balances, BalanceOf, WithBalance, Shared, Written;
    var w := Settings(e, s, creator);
    SettingsRead(e, s, creator);
    BalanceIs(e, who);
    BalanceIs(w, who);
    WithBalanceReads(w, creator, s.supply, who);
    NamedIs(who, creator);
    HasIs(e, who);
    HasIs(Deployed(e, s, creator), who);
  }

  /** A deployment is refused exactly for one of these reasons. */
  lemma RefusedExactly(s: Setup, creator: string)
    ensures !Acceptable(s, creator) <==>
            || s.name == "" || |s.name| > 64 || s.symbol == "" || |s.symbol| > 8
            || s.decimals == None || s.decimals.value > 18 || s.supply == 0 || (0 < s.cap < s.supply)
            || (s.wrapped && (s.origin == "" || s.operator == "")) || creator == ""
  {
  }
}
