/** The fungible token: what each exported call does to the stored entries, and what holds over every run. */
module Usp01 {
  import opened Words
  import opened Text
  import opened Decimal
  import opened MapSums
  import opened Storage

  // ---------------------------------------------------------------- reading the store

  ghost function BalanceOf(v: Entries, who: string): nat {
    Num(v, BalanceKey(who))
  }

  /** `owner:spender`, the text an allowance is stored under. */
  function PairOf(owner: string, spender: string): string {
    owner + ":" + spender
  }

  ghost function AllowanceOf(v: Entries, pair: string): nat {
    Num(v, AllowanceKey(pair))
  }

  ghost function Supply(v: Entries): nat {
    Num(v, TokenKey(TotalSupply))
  }

  ghost function Cap(v: Entries): nat {
    Num(v, TokenKey(MaxSupply))
  }

  ghost predicate Ready(v: Entries) {
    Str(v, TokenKey(TokenInit)) == "1"
  }

  ghost predicate Wrapped(v: Entries) {
    Str(v, TokenKey(IsWrapped)) == "1"
  }

  // ---------------------------------------------------------------- the exported calls

  datatype Action =
    | Transfer(to: string, amount: nat)
    | Approve(spender: string, amount: nat)
    | TransferFrom(owner: string, to: string, amount: nat)
    | Burn(amount: nat)
    | WrapMint(to: string, amount: nat, proof: string)
    | WrapBurn(amount: nat, destination: string)

  datatype Call = Call(caller: string, action: Action)

  /** Whether a call succeeded, and the entries it left: an early exit leaves what was written before it. */
  datatype Effect = Effect(ok: bool, entries: Entries)

  ghost function WithBalance(v: Entries, who: string, n: nat): Entries {
    PutNum(v, BalanceKey(who), n)
  }

  ghost function WithSupply(v: Entries, n: nat): Entries {
    PutNum(v, TokenKey(TotalSupply), n)
  }

  /** Debit, then credit unless the credit overflows. */
  ghost function Move(v: Entries, from: string, to: string, amount: nat): Effect
    requires amount <= BalanceOf(v, from)
  {
    var debited := WithBalance(v, from, BalanceOf(v, from) - amount);
    if BalanceOf(debited, to) + amount > U128_MAX then Effect(false, debited)
    else Effect(true, WithBalance(debited, to, BalanceOf(debited, to) + amount))
  }

  ghost function Destroy(v: Entries, from: string, amount: nat): Entries
    requires amount <= BalanceOf(v, from)
  {
    WithSupply(WithBalance(v, from, BalanceOf(v, from) - amount), Monus(Supply(v), amount))
  }

  ghost function CallEffect(v: Entries, c: Call): Effect {
    var no := Effect(false, v);
    if !Ready(v) then no
    else
      match c.action
      case Transfer(to, amount) =>
        if to == "" || amount == 0 || c.caller == "" || c.caller == to || BalanceOf(v, c.caller) < amount then no
        else Move(v, c.caller, to, amount)
      case Approve(spender, amount) =>
        if spender == "" || c.caller == "" || c.caller == spender then no
        else Effect(true, PutNum(v, AllowanceKey(PairOf(c.caller, spender)), amount))
      case TransferFrom(owner, to, amount) =>
        var pair := PairOf(owner, c.caller);
        if owner == "" || to == "" || amount == 0 || owner == to || c.caller == "" then no
        else if AllowanceOf(v, pair) < amount || BalanceOf(v, owner) < amount then no
        else
          var moved := Move(v, owner, to, amount);
          if !moved.ok then moved
          else Effect(true, PutNum(moved.entries, AllowanceKey(pair), AllowanceOf(v, pair) - amount))
      case Burn(amount) =>
        if amount == 0 || c.caller == "" || BalanceOf(v, c.caller) < amount then no
        else Effect(true, Destroy(v, c.caller, amount))
      case WrapMint(to, amount, proof) =>
        if !Wrapped(v) || c.caller != Str(v, TokenKey(BridgeOperator)) || to == "" || amount == 0 || proof == "" then no
        else if Cap(v) > 0 && Supply(v) + amount > Min(Cap(v), U128_MAX) then no
        else if BalanceOf(v, to) + amount > U128_MAX then no
        else
          Effect(true, WithSupply(WithBalance(v, to, BalanceOf(v, to) + amount), Min(Supply(v) + amount, U128_MAX)))
      case WrapBurn(amount, destination) =>
        if !Wrapped(v) || amount == 0 || destination == "" || c.caller == "" || BalanceOf(v, c.caller) < amount then no
        else Effect(true, Destroy(v, c.caller, amount))
  }

  // ---------------------------------------------------------------- supply

  /** The host keeps a balance under this name: its key is not cut inside a character. */
  ghost predicate Kept(who: string) {
    Slot(BalanceKey(who)).Some?
  }

  lemma KeptIs(who: string)
    ensures Kept(who) <==> |who| <= 1020 || !Continues(who[1020])
  {
    assert Render(BalanceKey(who)) == "bal:" + who;
  }

  predicate IsBalance(key: string) {
    "bal:" <= key
  }

  /** All balances on record, by the keys they are kept under. */
  ghost function Balances(v: Entries): map<string, nat> {
    map key | key in v && IsBalance(key) :: Parsed(v[key], U128_MAX)
  }

  lemma KindOfEntry(k: Key)
    requires Slot(k).Some?
    ensures IsBalance(Slot(k).value) <==> k.BalanceKey?
  {
    CutKeepsPrefix(Render(k), Prefix(k));
    assert Slot(k).value[0] == Prefix(k)[0];
  }

  lemma BalanceIs(v: Entries, who: string)
    ensures BalanceOf(v, who) ==
            if Kept(who) && Slot(BalanceKey(who)).value in Balances(v) then Balances(v)[Slot(BalanceKey(who)).value]
            else 0
  {
    if Kept(who) { KindOfEntry(BalanceKey(who)); }
    hide Slot;
  }

  lemma BalancesUpdate(v: Entries, who: string, n: nat)
    requires Kept(who) && n <= U128_MAX
    ensures Sum(Balances(WithBalance(v, who, n))) == Sum(Balances(v)) + n - BalanceOf(v, who)
  {
    var slot := Slot(BalanceKey(who)).value;
    KindOfEntry(BalanceKey(who));
    BalanceIs(v, who);
    ParsePrinted(n, U128_MAX);
    hide Slot, Parsed, Digits, BalanceOf;
    assert WithBalance(v, who, n) == v[slot := Digits(n)];
    assert Balances(v[slot := Digits(n)]) == Balances(v)[slot := n];
    SumUpdate(Balances(v), slot, n);
  }

  lemma BalancesStay(v: Entries, k: Key, s: string)
    requires !k.BalanceKey?
    ensures Balances(Put(v, k, s)) == Balances(v)
  {
    if Slot(k).Some? { KindOfEntry(k); }
    hide Slot, Parsed;
  }

  lemma BalanceAtMostSum(v: Entries, who: string)
    ensures BalanceOf(v, who) <= Sum(Balances(v))
  {
    BalanceIs(v, who);
    hide Balances, BalanceOf, Slot;
    if Kept(who) && Slot(BalanceKey(who)).value in Balances(v) {
      SumAtLeastEntry(Balances(v), Slot(BalanceKey(who)).value);
    }
  }

  lemma SettingsStay(v: Entries, k: Key, s: string, f: TokenField)
    requires !k.TokenKey?
    ensures Str(Put(v, k, s), TokenKey(f)) == Str(v, TokenKey(f))
    ensures Num(Put(v, k, s), TokenKey(f)) == Num(v, TokenKey(f))
  {
    PutOtherKind(v, k, s, TokenKey(f));
  }

  lemma TokenKeysAreShort(f: TokenField)
    ensures Short(TokenKey(f))
  {
  }

  /** The balances add up to the supply, which is a u128 and within the cap if there is one. */
  ghost predicate Inv(v: Entries) {
    && Sum(Balances(v)) == Supply(v) <= U128_MAX
    && (Cap(v) > 0 ==> Supply(v) <= Cap(v))
  }

  /** A mint that goes through. */
  ghost predicate Mints(v: Entries, c: Call) {
    && Ready(v) && Wrapped(v)
    && c.action.WrapMint? && c.caller == Str(v, TokenKey(BridgeOperator))
    && c.action.to != "" && c.action.amount > 0 && c.action.proof != ""
    && (Cap(v) > 0 ==> Supply(v) + c.action.amount <= Min(Cap(v), U128_MAX))
    && BalanceOf(v, c.action.to) + c.action.amount <= U128_MAX
  }

  /** A mint that takes an uncapped supply beyond u128: the stored supply stops at the maximum. */
  ghost predicate Overmints(v: Entries, c: Call) {
    Mints(v, c) && Kept(c.action.to) && U128_MAX < Supply(v) + c.action.amount
  }

  /** A transfer or mint to a name under which no balance is kept: the amount is credited to nobody. */
  ghost predicate LosesCredit(v: Entries, c: Call) {
    match c.action
    case Transfer(to, amount) =>
      && Ready(v) && to != "" && amount > 0 && c.caller != "" && c.caller != to
      && amount <= BalanceOf(v, c.caller) && !Kept(to)
    case TransferFrom(owner, to, amount) =>
      && Ready(v) && owner != "" && to != "" && amount > 0 && owner != to && c.caller != ""
      && amount <= AllowanceOf(v, PairOf(owner, c.caller)) && amount <= BalanceOf(v, owner) && !Kept(to)
    case WrapMint(to, _, _) => Mints(v, c) && !Kept(to) && Supply(v) < U128_MAX
    case _ => false
  }

  lemma MintsIs(v: Entries, c: Call)
    ensures Mints(v, c) <==> c.action.WrapMint? && CallEffect(v, c).ok
  {
    hide Str, Num;
  }

  // ---------------------------------------------------------------- the parts of a call

  ghost predicate Balanced(v: Entries, w: Entries, change: int) {
    Sum(Balances(w)) == Sum(Balances(v)) + change && Cap(w) == Cap(v)
  }

  lemma Credit(v: Entries, who: string, n: nat)
    requires n <= U128_MAX
    ensures var w := WithBalance(v, who, n);
            Balanced(v, w, if Kept(who) then n - BalanceOf(v, who) else 0) && Supply(w) == Supply(v)
  {
    SettingsStay(v, BalanceKey(who), Digits(n), TotalSupply);
    SettingsStay(v, BalanceKey(who), Digits(n), MaxSupply);
    hide Put, Num, Str, Digits, Balances;
    if Kept(who) { BalancesUpdate(v, who, n); } else { NothingKept(v, who, n); }
  }

  lemma NothingKept(v: Entries, who: string, n: nat)
    requires !Kept(who)
    ensures WithBalance(v, who, n) == v && BalanceOf(v, who) == 0
  {
    hide Slot;
  }

  lemma MoveIsExact(v: Entries, from: string, to: string, amount: nat)
    requires Inv(v) && 0 < amount <= BalanceOf(v, from)
    ensures var e := Move(v, from, to, amount);
            && e.ok && Supply(e.entries) == Supply(v)
            && Balanced(v, e.entries, if Kept(to) then 0 else 0 - amount)
  {
    hide BalanceOf, WithBalance, Supply, Cap, Balances, Kept;
    var n := BalanceOf(v, from) - amount;
    var debited := WithBalance(v, from, n);
    BalanceAtMostSum(v, from);
    HasBalance(v, from);
    Credit(v, from, n);
    BalanceAtMostSum(debited, to);
    Credit(debited, to, BalanceOf(debited, to) + amount);
  }

  lemma HasBalance(v: Entries, who: string)
    requires BalanceOf(v, who) > 0
    ensures Kept(who)
  {
    hide Slot;
  }

  lemma SupplyIsSet(v: Entries, n: nat)
    requires n <= U128_MAX
    ensures var w := WithSupply(v, n); Balanced(v, w, 0) && Supply(w) == n
  {
    var k := TokenKey(TotalSupply);
    TokenKeysAreShort(TotalSupply);
    PutSets(v, k, Digits(n));
    BalancesStay(v, k, Digits(n));
    ParsePrinted(n, U128_MAX);
    hide Put, Str, Digits, Parsed, Balances;
    assert Str(WithSupply(v, n), TokenKey(MaxSupply)) == Str(v, TokenKey(MaxSupply));
    assert Str(WithSupply(v, n), k) == Digits(n);
  }

  lemma DestroyIsExact(v: Entries, from: string, amount: nat)
    requires Inv(v) && 0 < amount <= BalanceOf(v, from)
    ensures var w := Destroy(v, from, amount); Balanced(v, w, 0 - amount) && Supply(w) == Supply(v) - amount
  {
    hide BalanceOf, WithBalance, WithSupply, Supply, Cap, Balances, Kept;
    var debited := WithBalance(v, from, BalanceOf(v, from) - amount);
    BalanceAtMostSum(v, from);
    HasBalance(v, from);
    Credit(v, from, BalanceOf(v, from) - amount);
    SupplyIsSet(debited, Monus(Supply(v), amount));
  }

  lemma MintIsExact(v: Entries, to: string, amount: nat, supply: nat)
    requires BalanceOf(v, to) + amount <= U128_MAX && supply <= U128_MAX
    ensures var w := WithSupply(WithBalance(v, to, BalanceOf(v, to) + amount), supply);
            Balanced(v, w, if Kept(to) then amount else 0) && Supply(w) == supply
  {
    hide BalanceOf, WithBalance, WithSupply, Supply, Cap, Balances, Kept;
    Credit(v, to, BalanceOf(v, to) + amount);
    SupplyIsSet(WithBalance(v, to, BalanceOf(v, to) + amount), supply);
  }

  lemma AllowanceIsSet(v: Entries, pair: string, n: nat)
    ensures var w := PutNum(v, AllowanceKey(pair), n); Balanced(v, w, 0) && Supply(w) == Supply(v)
  {
    BalancesStay(v, AllowanceKey(pair), Digits(n));
    SettingsStay(v, AllowanceKey(pair), Digits(n), TotalSupply);
    SettingsStay(v, AllowanceKey(pair), Digits(n), MaxSupply);
    hide Put, Str, Num, Digits, Balances;
  }

  // ---------------------------------------------------------------- what a call does to balances and supply

  /** The entries of a successful call, in the terms that matter for the supply. */
  lemma SuccessIs(v: Entries, c: Call)
    requires CallEffect(v, c).ok
    ensures var w := CallEffect(v, c).entries;
            match c.action
            case Transfer(to, amount) =>
              0 < amount <= BalanceOf(v, c.caller) && w == Move(v, c.caller, to, amount).entries
            case Approve(spender, amount) =>
              w == PutNum(v, AllowanceKey(PairOf(c.caller, spender)), amount)
            case TransferFrom(owner, to, amount) =>
              var pair := PairOf(owner, c.caller);
              && 0 < amount <= BalanceOf(v, owner) && amount <= AllowanceOf(v, pair)
              && w == PutNum(Move(v, owner, to, amount).entries, AllowanceKey(pair), AllowanceOf(v, pair) - amount)
            case Burn(amount) => 0 < amount <= BalanceOf(v, c.caller) && w == Destroy(v, c.caller, amount)
            case WrapMint(to, amount, _) =>
              && Mints(v, c)
              && w == WithSupply(WithBalance(v, to, BalanceOf(v, to) + amount), Min(Supply(v) + amount, U128_MAX))
            case WrapBurn(amount, _) => 0 < amount <= BalanceOf(v, c.caller) && w == Destroy(v, c.caller, amount)
  {
    hide Str, Num, Put;
  }

  lemma FailureIs(v: Entries, c: Call)
    requires !CallEffect(v, c).ok
    ensures var w := CallEffect(v, c).entries;
            w == v
            || (c.action.Transfer? && 0 < c.action.amount <= BalanceOf(v, c.caller)
                && !Move(v, c.caller, c.action.to, c.action.amount).ok)
            || (c.action.TransferFrom? && 0 < c.action.amount <= BalanceOf(v, c.action.owner)
                && !Move(v, c.action.owner, c.action.to, c.action.amount).ok)
  {
    hide Str, Num, Put;
  }

  /** What a successful call adds to the balances. */
  ghost function BalanceChange(a: Action): int {
    match a
    case Transfer(to, amount) => if Kept(to) then 0 else 0 - amount
    case Approve(_, _) => 0
    case TransferFrom(_, to, amount) => if Kept(to) then 0 else 0 - amount
    case Burn(amount) => 0 - amount
    case WrapMint(to, amount, _) => if Kept(to) then amount else 0
    case WrapBurn(amount, _) => 0 - amount
  }

  /** And to the supply. */
  ghost function SupplyChange(v: Entries, a: Action): int {
    match a
    case Burn(amount) => 0 - amount
    case WrapBurn(amount, _) => 0 - amount
    case WrapMint(_, amount, _) => Min(Supply(v) + amount, U128_MAX) - Supply(v)
    case _ => 0
  }

  ghost predicate Accounted(v: Entries, c: Call, w: Entries) {
    Balanced(v, w, BalanceChange(c.action)) && Supply(w) == Supply(v) + SupplyChange(v, c.action)
  }

  lemma TransferFromAccounted(v: Entries, c: Call)
    requires Inv(v) && CallEffect(v, c).ok && c.action.TransferFrom?
    ensures Accounted(v, c, CallEffect(v, c).entries)
  {
    hide CallEffect, Move, Inv, Supply, Cap, Balances, PutNum, BalanceOf, AllowanceOf, Kept;
    SuccessIs(v, c);
    var pair, moved := PairOf(c.action.owner, c.caller), Move(v, c.action.owner, c.action.to, c.action.amount);
    MoveIsExact(v, c.action.owner, c.action.to, c.action.amount);
    AllowanceIsSet(moved.entries, pair, AllowanceOf(v, pair) - c.action.amount);
  }

  /** A successful call changes balances and supply by these amounts exactly; burns never stop at zero. */
  lemma SuccessBalanced(v: Entries, c: Call)
    requires Inv(v) && CallEffect(v, c).ok
    ensures Accounted(v, c, CallEffect(v, c).entries)
  {
    hide CallEffect, Move, Destroy, Supply, Cap, Balances, PutNum, BalanceOf, AllowanceOf, WithSupply, WithBalance;
    hide Kept;
    SuccessIs(v, c);
    match c.action
    case Transfer(to, amount) => MoveIsExact(v, c.caller, to, amount);
    case Approve(spender, amount) => AllowanceIsSet(v, PairOf(c.caller, spender), amount);
    case TransferFrom(_, _, _) => TransferFromAccounted(v, c);
    case Burn(amount) => DestroyIsExact(v, c.caller, amount);
    case WrapMint(to, amount, _) => MintIsExact(v, to, amount, Min(Supply(v) + amount, U128_MAX));
    case WrapBurn(amount, _) => DestroyIsExact(v, c.caller, amount);
  }

  /** The calls that go through and credit nobody, in the terms of the call's own guards. */
  lemma LosesCreditIs(v: Entries, c: Call)
    requires Inv(v)
    ensures LosesCredit(v, c) <==>
            && CallEffect(v, c).ok
            && match c.action
               case Transfer(to, _) => !Kept(to)
               case TransferFrom(_, to, _) => !Kept(to)
               case WrapMint(to, _, _) => !Kept(to) && Supply(v) < U128_MAX
               case _ => false
  {
    hide Str, Num, Put, Kept, Inv, Move, Destroy;
    if LosesCredit(v, c) {
      match c.action
      case Transfer(to, amount) => MoveIsExact(v, c.caller, to, amount);
      case TransferFrom(owner, to, amount) => MoveIsExact(v, owner, to, amount);
      case WrapMint(_, _, _) =>
    }
  }

  /** A call that unbalances the token: its balances and its supply no longer agree. */
  ghost predicate Unbalances(v: Entries, c: Call) {
    Overmints(v, c) || LosesCredit(v, c)
  }

  lemma MintKeepsInv(v: Entries, c: Call)
    requires Inv(v) && CallEffect(v, c).ok && c.action.WrapMint?
    ensures Inv(CallEffect(v, c).entries) <==> !Unbalances(v, c)
  {
    hide CallEffect, Supply, Cap, Balances, Kept, Mints;
    MintsIs(v, c);
    MintWithinCap(v, c);
    SuccessBalanced(v, c);
  }

  lemma OtherKeepsInv(v: Entries, c: Call)
    requires Inv(v) && CallEffect(v, c).ok && !c.action.WrapMint?
    ensures Inv(CallEffect(v, c).entries) <==> !Unbalances(v, c)
  {
    hide CallEffect, Supply, Cap, Balances, Kept, Mints, LosesCredit, BalanceOf, AllowanceOf, Move, Destroy;
    MintsIs(v, c);
    LosesCreditIs(v, c);
    SuccessIs(v, c);
    SuccessBalanced(v, c);
  }

  /** Every other call keeps the balances equal to the supply; such a call never does. */
  lemma CallKeepsInv(v: Entries, c: Call)
    requires Inv(v)
    ensures Inv(CallEffect(v, c).entries) <==> !Unbalances(v, c)
    ensures Cap(CallEffect(v, c).entries) == Cap(v)
  {
    if CallEffect(v, c).ok {
      SuccessBalanced(v, c);
      if c.action.WrapMint? { MintKeepsInv(v, c); } else { OtherKeepsInv(v, c); }
    } else {
      FailureChangesNothing(v, c);
      LosesCreditIs(v, c);
      MintsIs(v, c);
    }
    hide CallEffect, Supply, Cap, Balances, Kept, Mints, LosesCredit, Inv;
  }

  lemma MintWithinCap(v: Entries, c: Call)
    requires Mints(v, c)
    ensures c.action.amount > 0
    ensures Cap(v) > 0 ==> Supply(v) + c.action.amount <= Cap(v) && Supply(v) + c.action.amount <= U128_MAX
  {
  }

  lemma MoveCovers(v: Entries, from: string, to: string, amount: nat)
    requires amount <= BalanceOf(v, from)
    ensures v.Keys <= Move(v, from, to, amount).entries.Keys
  {
    hide Put, BalanceOf, Digits;
    var n := BalanceOf(v, from) - amount;
    var debited := WithBalance(v, from, n);
    PutGrows(v, BalanceKey(from), Digits(n));
    PutGrows(debited, BalanceKey(to), Digits(BalanceOf(debited, to) + amount));
  }

  lemma SupplyCovers(v: Entries, who: string, n: nat, supply: nat)
    ensures v.Keys <= WithSupply(WithBalance(v, who, n), supply).Keys
  {
    hide Put, Digits;
    PutGrows(v, BalanceKey(who), Digits(n));
    PutGrows(WithBalance(v, who, n), TokenKey(TotalSupply), Digits(supply));
  }

  /** No call deletes an entry, so what the virtual machine keeps of a call is all that the call left. */
  lemma NothingIsDeleted(v: Entries, c: Call)
    requires Inv(v)
    ensures v + CallEffect(v, c).entries == CallEffect(v, c).entries
  {
    hide CallEffect, Put, Digits, BalanceOf, AllowanceOf, Supply, Move, WithSupply, WithBalance, Inv, Mints;
    var w := CallEffect(v, c).entries;
    if CallEffect(v, c).ok {
      SuccessIs(v, c);
      match c.action
      case Transfer(to, amount) => MoveCovers(v, c.caller, to, amount);
      case Approve(spender, amount) => PutGrows(v, AllowanceKey(PairOf(c.caller, spender)), Digits(amount));
      case TransferFrom(owner, to, amount) =>
        var pair, moved := PairOf(owner, c.caller), Move(v, owner, to, amount);
        MoveCovers(v, owner, to, amount);
        PutGrows(moved.entries, AllowanceKey(pair), Digits(AllowanceOf(v, pair) - amount));
      case Burn(amount) => SupplyCovers(v, c.caller, BalanceOf(v, c.caller) - amount, Monus(Supply(v), amount));
      case WrapMint(to, amount, _) =>
        SupplyCovers(v, to, BalanceOf(v, to) + amount, Min(Supply(v) + amount, U128_MAX));
      case WrapBurn(amount, _) => SupplyCovers(v, c.caller, BalanceOf(v, c.caller) - amount, Monus(Supply(v), amount));
    } else {
      FailureChangesNothing(v, c);
    }
    GrownCovers(v, w);
  }

  /** A call that fails leaves the store as it was: the exits after a debit are never taken. */
  lemma FailureChangesNothing(v: Entries, c: Call)
    requires Inv(v) && !CallEffect(v, c).ok
    ensures CallEffect(v, c).entries == v
  {
    hide CallEffect, Move, Inv, BalanceOf;
    FailureIs(v, c);
    if CallEffect(v, c).entries != v {
      match c.action
      case Transfer(to, amount) => MoveIsExact(v, c.caller, to, amount);
      case TransferFrom(owner, to, amount) => MoveIsExact(v, owner, to, amount);
    }
  }

  // ---------------------------------------------------------------- whose balance a transfer changes

  /** Two names that share a balance. */
  ghost predicate Shared(a: string, b: string) {
    Kept(a) && Slot(BalanceKey(a)) == Slot(BalanceKey(b))
  }

  lemma WithBalanceReads(v: Entries, who: string, n: nat, a: string)
    requires n <= U128_MAX
    ensures BalanceOf(WithBalance(v, who, n), a) == if Shared(a, who) then n else BalanceOf(v, a)
  {
    hide Slot, Digits, Parsed;
    if Shared(a, who) { ParsePrinted(n, U128_MAX); }
  }

  lemma SharedRead(v: Entries, a: string, b: string)
    requires Shared(a, b)
    ensures BalanceOf(v, a) == BalanceOf(v, b)
  {
    hide Slot, Parsed;
  }

  lemma MoveReads(v: Entries, from: string, to: string, amount: nat, who: string)
    requires amount <= BalanceOf(v, from) <= U128_MAX && Move(v, from, to, amount).ok
    ensures BalanceOf(Move(v, from, to, amount).entries, who) - BalanceOf(v, who) ==
            (if Shared(who, to) then amount else 0) - (if Shared(who, from) then amount else 0)
  {
    hide BalanceOf, WithBalance, Shared;
    var n := BalanceOf(v, from) - amount;
    var debited := WithBalance(v, from, n);
    WithBalanceReads(v, from, n, who);
    WithBalanceReads(debited, to, BalanceOf(debited, to) + amount, who);
    if Shared(who, from) { SharedRead(v, who, from); }
    if Shared(who, to) { SharedRead(debited, who, to); }
  }

  /** A transfer takes the amount from one balance and gives it to the other, for all names that share these. */
  lemma TransferMoves(v: Entries, c: Call, who: string)
    requires CallEffect(v, c).ok && (c.action.Transfer? || c.action.TransferFrom?)
    ensures var w, from := CallEffect(v, c).entries, if c.action.Transfer? then c.caller else c.action.owner;
            BalanceOf(w, who) - BalanceOf(v, who) ==
            (if Shared(who, c.action.to) then c.action.amount else 0)
            - (if Shared(who, from) then c.action.amount else 0)
  {
    var from := if c.action.Transfer? then c.caller else c.action.owner;
    BalanceFits(v, from);
    hide CallEffect, Move, BalanceOf, AllowanceOf, PutNum, Shared;
    MovedEntries(v, c);
    MoveReads(v, from, c.action.to, c.action.amount, who);
    if c.action.TransferFrom? {
      var pair, moved := PairOf(from, c.caller), Move(v, from, c.action.to, c.action.amount);
      AllowanceAside(moved.entries, pair, AllowanceOf(v, pair) - c.action.amount, who);
    }
  }

  lemma BalanceFits(v: Entries, who: string)
    ensures BalanceOf(v, who) <= U128_MAX
  {
    NumFits(v, BalanceKey(who));
  }

  lemma AllowanceAside(v: Entries, pair: string, n: nat, who: string)
    ensures BalanceOf(PutNum(v, AllowanceKey(pair), n), who) == BalanceOf(v, who)
  {
    PutOtherKind(v, AllowanceKey(pair), Digits(n), BalanceKey(who));
  }

  lemma MovedEntries(v: Entries, c: Call)
    requires CallEffect(v, c).ok && (c.action.Transfer? || c.action.TransferFrom?)
    ensures var from := if c.action.Transfer? then c.caller else c.action.owner;
            && c.action.amount <= BalanceOf(v, from)
            && var moved := Move(v, from, c.action.to, c.action.amount);
            && moved.ok
            && CallEffect(v, c).entries ==
               if c.action.Transfer? then moved.entries
               else PutNum(moved.entries, AllowanceKey(PairOf(from, c.caller)),
                           AllowanceOf(v, PairOf(from, c.caller)) - c.action.amount)
  {
    hide Str, Num, Put;
  }

  /** A name of at most 1,019 bytes shares its balance with no other, and only such a name does not. */
  lemma OwnBalanceExactly(who: string)
    ensures (forall a :: Slot(BalanceKey(a)) == Slot(BalanceKey(who)) ==> a == who) <==> |who| <= 1019
  {
    assert Render(BalanceKey(who)) == "bal:" + who;
    if |who| <= 1019 {
      forall a | Slot(BalanceKey(a)) == Slot(BalanceKey(who)) ensures a == who {
        ShortApart(BalanceKey(who), BalanceKey(a));
      }
    } else {
      LongerSameSlot(BalanceKey(who));
      assert Slot(BalanceKey(who + "x")) == Slot(BalanceKey(who)) && who + "x" != who;
    }
  }

  /** Between names of that length a transfer touches no third balance. */
  lemma TransferMovesOnly(v: Entries, c: Call, who: string)
    requires CallEffect(v, c).ok && (c.action.Transfer? || c.action.TransferFrom?)
    requires |c.action.to| <= 1019 && |if c.action.Transfer? then c.caller else c.action.owner| <= 1019
    ensures var w, from := CallEffect(v, c).entries, if c.action.Transfer? then c.caller else c.action.owner;
            BalanceOf(w, who) - BalanceOf(v, who) ==
            if who == from then 0 - c.action.amount else if who == c.action.to then c.action.amount else 0
  {
    var from := if c.action.Transfer? then c.caller else c.action.owner;
    TransferMoves(v, c, who);
    OwnBalanceExactly(from);
    OwnBalanceExactly(c.action.to);
    KeptIs(from);
    KeptIs(c.action.to);
    hide BalanceOf, Kept, Slot;
    SomeoneElse(v, c);
  }

  lemma SomeoneElse(v: Entries, c: Call)
    requires CallEffect(v, c).ok && (c.action.Transfer? || c.action.TransferFrom?)
    ensures c.action.to != if c.action.Transfer? then c.caller else c.action.owner
  {
    hide Str, Num, Put;
  }

  // ---------------------------------------------------------------- runs

  ghost function Run(v: Entries, calls: seq<Call>): Entries
    decreases |calls|
  {
    if calls == [] then v else Run(CallEffect(v, calls[0]).entries, calls[1..])
  }

  /** The balances add up to the supply before and after every call. */
  ghost predicate InvThroughout(v: Entries, calls: seq<Call>)
    decreases |calls|
  {
    Inv(v) && (calls == [] || InvThroughout(CallEffect(v, calls[0]).entries, calls[1..]))
  }

  ghost predicate NeverUnbalances(v: Entries, calls: seq<Call>)
    decreases |calls|
  {
    calls == [] || (!Unbalances(v, calls[0]) && NeverUnbalances(CallEffect(v, calls[0]).entries, calls[1..]))
  }

  /** Over a run the balances keep adding up to the supply exactly when no call of it unbalances the token. */
  lemma {:induction false} InvThroughoutExactly(v: Entries, calls: seq<Call>)
    requires Inv(v)
    ensures InvThroughout(v, calls) <==> NeverUnbalances(v, calls)
    decreases |calls|
  {
    hide CallEffect, Inv, Unbalances;
    if calls != [] {
      CallKeepsInv(v, calls[0]);
      if !Unbalances(v, calls[0]) {
        InvThroughoutExactly(CallEffect(v, calls[0]).entries, calls[1..]);
      } else {
        NotFromTheStart(CallEffect(v, calls[0]).entries, calls[1..]);
      }
    }
  }

  lemma NotFromTheStart(v: Entries, calls: seq<Call>)
    requires !Inv(v)
    ensures !InvThroughout(v, calls)
  {
    hide CallEffect;
  }

  /** The amounts of all mints that are tried. */
  function Minted(calls: seq<Call>): nat
    decreases |calls|
  {
    if calls == [] then 0
    else (if calls[0].action.WrapMint? then calls[0].action.amount else 0) + Minted(calls[1..])
  }

  /** Whoever the call credits has a name under which a balance is kept. */
  ghost predicate Reaches(c: Call) {
    match c.action
    case Transfer(to, _) => Kept(to)
    case TransferFrom(_, to, _) => Kept(to)
    case WrapMint(to, _, _) => Kept(to)
    case _ => true
  }

  lemma StepKeepsInv(v: Entries, c: Call, rest: nat)
    requires Inv(v) && Reaches(c)
    requires Cap(v) > 0 || Supply(v) + (if c.action.WrapMint? then c.action.amount else 0) + rest <= U128_MAX
    ensures var w := CallEffect(v, c).entries;
            Inv(w) && Cap(w) == Cap(v) && (Cap(w) > 0 || Supply(w) + rest <= U128_MAX)
  {
    hide CallEffect, Mints, Supply, Cap, Balances, Kept;
    CallKeepsInv(v, c);
    LosesCreditIs(v, c);
    MintsIs(v, c);
    if c.action.WrapMint? && Mints(v, c) { MintWithinCap(v, c); }
    if CallEffect(v, c).ok { SuccessBalanced(v, c); } else { FailureChangesNothing(v, c); }
  }

  /** Over every run: balances add up to the supply, if the supply is capped or the mints fit a u128. */
  lemma {:induction false} RunKeepsInv(v: Entries, calls: seq<Call>)
    requires Inv(v) && (Cap(v) > 0 || Supply(v) + Minted(calls) <= U128_MAX)
    requires forall c :: c in calls ==> Reaches(c)
    ensures Inv(Run(v, calls)) && Cap(Run(v, calls)) == Cap(v)
    decreases |calls|
  {
    hide CallEffect, Inv, Supply, Cap, Reaches;
    if calls != [] {
      StepKeepsInv(v, calls[0], Minted(calls[1..]));
      RunKeepsInv(CallEffect(v, calls[0]).entries, calls[1..]);
    }
  }

  // ---------------------------------------------------------------- allowances

  /** The two texts name one allowance. */
  ghost predicate SameAllowance(p: string, q: string) {
    Slot(AllowanceKey(p)) == Slot(AllowanceKey(q))
  }

  ghost predicate Spends(v: Entries, c: Call, pair: string) {
    c.action.TransferFrom? && SameAllowance(PairOf(c.action.owner, c.caller), pair) && CallEffect(v, c).ok
  }

  ghost predicate Approves(c: Call, pair: string) {
    c.action.Approve? && SameAllowance(PairOf(c.caller, c.action.spender), pair)
  }

  /** What `transfer_from` has moved under one allowance in a run. */
  ghost function Spent(v: Entries, calls: seq<Call>, pair: string): nat
    decreases |calls|
  {
    if calls == [] then 0
    else
      (if Spends(v, calls[0], pair) then calls[0].action.amount else 0)
      + Spent(CallEffect(v, calls[0]).entries, calls[1..], pair)
  }

  lemma BalancesAside(v: Entries, who: string, n: nat, supply: nat, pair: string)
    ensures AllowanceOf(WithBalance(v, who, n), pair) == AllowanceOf(v, pair)
    ensures AllowanceOf(WithSupply(v, supply), pair) == AllowanceOf(v, pair)
  {
    PutOtherKind(v, BalanceKey(who), Digits(n), AllowanceKey(pair));
    PutOtherKind(v, TokenKey(TotalSupply), Digits(supply), AllowanceKey(pair));
    hide Put, Num, Digits;
  }

  lemma MoveAside(v: Entries, from: string, to: string, amount: nat, pair: string)
    requires amount <= BalanceOf(v, from)
    ensures AllowanceOf(Move(v, from, to, amount).entries, pair) == AllowanceOf(v, pair)
  {
    hide BalanceOf, AllowanceOf, WithBalance;
    var n := BalanceOf(v, from) - amount;
    var debited := WithBalance(v, from, n);
    BalancesAside(v, from, n, 0, pair);
    BalancesAside(debited, to, BalanceOf(debited, to) + amount, 0, pair);
  }

  lemma SupplyAside(v: Entries, who: string, n: nat, supply: nat, pair: string)
    ensures AllowanceOf(WithSupply(WithBalance(v, who, n), supply), pair) == AllowanceOf(v, pair)
  {
    hide AllowanceOf, WithBalance, WithSupply;
    BalancesAside(v, who, n, 0, pair);
    BalancesAside(WithBalance(v, who, n), who, 0, supply, pair);
  }

  lemma AllowancePut(v: Entries, other: string, n: nat, pair: string)
    requires n <= U128_MAX && (SameAllowance(other, pair) ==> AllowanceOf(v, other) > 0)
    ensures AllowanceOf(PutNum(v, AllowanceKey(other), n), pair) ==
            if SameAllowance(other, pair) then n else AllowanceOf(v, pair)
    ensures SameAllowance(other, pair) ==> AllowanceOf(v, other) == AllowanceOf(v, pair)
  {
    if SameAllowance(other, pair) {
      SlotOfAllowance(v, other);
      ParsePrinted(n, U128_MAX);
    } else {
      PutElsewhere(v, AllowanceKey(other), Digits(n), AllowanceKey(pair));
    }
    hide Slot, Digits, Parsed;
  }

  lemma SlotOfAllowance(v: Entries, pair: string)
    requires AllowanceOf(v, pair) > 0
    ensures Slot(AllowanceKey(pair)).Some?
  {
    hide Slot;
  }

  lemma AllowanceStep(v: Entries, c: Call, pair: string)
    requires Inv(v) && !Approves(c, pair)
    ensures AllowanceOf(CallEffect(v, c).entries, pair) ==
            AllowanceOf(v, pair) - if Spends(v, c, pair) then c.action.amount else 0
  {
    hide CallEffect, AllowanceOf, BalanceOf, Move, WithBalance, WithSupply, Inv, PutNum, SameAllowance, Supply, Mints;
    if CallEffect(v, c).ok {
      SuccessIs(v, c);
      match c.action
      case Transfer(to, amount) => MoveAside(v, c.caller, to, amount, pair);
      case Approve(spender, amount) =>
        var other := PairOf(c.caller, spender);
        NotThisAllowance(v, other, amount, pair);
      case TransferFrom(owner, to, amount) =>
        var other, moved := PairOf(owner, c.caller), Move(v, owner, to, amount).entries;
        MoveAside(v, owner, to, amount, pair);
        MoveAside(v, owner, to, amount, other);
        AllowanceFits(v, other);
        AllowancePut(moved, other, AllowanceOf(v, other) - amount, pair);
      case Burn(amount) =>
        SupplyAside(v, c.caller, BalanceOf(v, c.caller) - amount, Monus(Supply(v), amount), pair);
      case WrapMint(to, amount, _) =>
        SupplyAside(v, to, BalanceOf(v, to) + amount, Min(Supply(v) + amount, U128_MAX), pair);
      case WrapBurn(amount, _) =>
        SupplyAside(v, c.caller, BalanceOf(v, c.caller) - amount, Monus(Supply(v), amount), pair);
    } else {
      FailureChangesNothing(v, c);
    }
  }

  lemma AllowanceFits(v: Entries, pair: string)
    ensures AllowanceOf(v, pair) <= U128_MAX
  {
    NumFits(v, AllowanceKey(pair));
  }

  lemma NotThisAllowance(v: Entries, other: string, n: nat, pair: string)
    requires !SameAllowance(other, pair)
    ensures AllowanceOf(PutNum(v, AllowanceKey(other), n), pair) == AllowanceOf(v, pair)
  {
    PutElsewhere(v, AllowanceKey(other), Digits(n), AllowanceKey(pair));
  }

  /** Between approvals, what is spent under an allowance is exactly what the allowance shrinks by. */
  lemma {:induction false} SpendingIsWithinAllowance(v: Entries, calls: seq<Call>, pair: string)
    requires Inv(v) && (Cap(v) > 0 || Supply(v) + Minted(calls) <= U128_MAX)
    requires forall c :: c in calls ==> Reaches(c) && !Approves(c, pair)
    ensures AllowanceOf(Run(v, calls), pair) + Spent(v, calls, pair) == AllowanceOf(v, pair)
    decreases |calls|
  {
    hide CallEffect, Inv, Supply, Cap, Reaches, AllowanceOf, Approves, Spends;
    if calls != [] {
      AllowanceStep(v, calls[0], pair);
      StepKeepsInv(v, calls[0], Minted(calls[1..]));
      SpendingIsWithinAllowance(CallEffect(v, calls[0]).entries, calls[1..], pair);
    }
  }

  /** Without colons in addresses, no two owner-spender pairs share an allowance. */
  lemma PairsDiffer(owner: string, spender: string, owner': string, spender': string)
    requires Plain(owner) && Plain(owner')
    ensures PairOf(owner, spender) == PairOf(owner', spender') <==> owner == owner' && spender == spender'
  {
    if PairOf(owner, spender) == PairOf(owner', spender') {
      ColonSplit(owner, spender, owner', spender');
    }
  }

  /** No other owner and spender share the allowance of these two. */
  ghost predicate OwnsPair(owner: string, spender: string) {
    forall o: string, s: string :: SameAllowance(PairOf(o, s), PairOf(owner, spender)) ==> o == owner && s == spender
  }

  lemma OtherCut(owner: string, spender: string)
    requires !Plain(owner) || !Plain(spender)
    ensures exists o: string, s: string :: PairOf(o, s) == PairOf(owner, spender) && !(o == owner && s == spender)
  {
    if !Plain(owner) {
      var i :| 0 <= i < |owner| && owner[i] == ':';
      assert PairOf(owner[..i], owner[i + 1..] + ":" + spender) == PairOf(owner, spender);
      assert owner[..i] != owner;
    } else {
      var i :| 0 <= i < |spender| && spender[i] == ':';
      assert PairOf(owner + ":" + spender[..i], spender[i + 1..]) == PairOf(owner, spender);
      assert spender[i + 1..] != spender;
    }
  }

  lemma OneCut(owner: string, spender: string, o: string, s: string)
    requires Plain(owner) && Plain(spender) && PairOf(o, s) == PairOf(owner, spender)
    ensures o == owner && s == spender
  {
    var pair := PairOf(owner, spender);
    assert pair[|owner|] == ':' && pair[|o|] == PairOf(o, s)[|o|] == ':';
    assert forall i :: 0 <= i < |pair| && pair[i] == ':' ==> i == |owner|;
    assert owner == pair[..|owner|] && o == PairOf(o, s)[..|o|];
    assert spender == pair[|owner| + 1..] && s == PairOf(o, s)[|o| + 1..];
  }

  /** An allowance belongs to one pair exactly when neither address holds a colon and its key is short. */
  lemma AllowanceOwnedExactly(owner: string, spender: string)
    ensures OwnsPair(owner, spender) <==> Plain(owner) && Plain(spender) && |owner| + |spender| <= 1016
  {
    var k := AllowanceKey(PairOf(owner, spender));
    assert Render(k) == "allow:" + PairOf(owner, spender);
    if !Plain(owner) || !Plain(spender) {
      OtherCut(owner, spender);
    } else if |owner| + |spender| > 1016 {
      LongerSameSlot(k);
      assert PairOf(owner, spender + "x") == PairOf(owner, spender) + "x";
      assert SameAllowance(PairOf(owner, spender + "x"), PairOf(owner, spender)) && spender + "x" != spender;
    } else {
      forall o: string, s: string | SameAllowance(PairOf(o, s), PairOf(owner, spender))
        ensures o == owner && s == spender
      {
        ShortApart(k, AllowanceKey(PairOf(o, s)));
        OneCut(owner, spender, o, s);
      }
    }
  }

  // ---------------------------------------------------------------- deployment

  datatype Setup = Setup(
    name: string, symbol: string, decimals: Option<nat>, supply: nat, wrapped: bool, origin: string, cap: nat,
    operator: string)

  predicate Acceptable(s: Setup, creator: string) {
    && 1 <= |s.name| <= 64 && 1 <= |s.symbol| <= 8
    && s.decimals.Some? && s.decimals.value <= 18
    && s.supply > 0
    && (s.cap > 0 ==> s.supply <= s.cap)
    && (s.wrapped ==> s.origin != "" && s.operator != "")
    && creator != ""
  }

  ghost function Settings(v: Entries, s: Setup, creator: string): Entries
    requires s.decimals.Some?
  {
    var named := Put(Put(Put(v, TokenKey(TokenInit), "1"), TokenKey(Name), s.name), TokenKey(Symbol), s.symbol);
    var counted := WithSupply(PutNum(named, TokenKey(Decimals), s.decimals.value), s.supply);
    var wrapped := Put(counted, TokenKey(IsWrapped), if s.wrapped then "1" else "0");
    var capped := PutNum(Put(wrapped, TokenKey(WrappedOrigin), s.origin), TokenKey(MaxSupply), s.cap);
    Put(Put(capped, TokenKey(BridgeOperator), s.operator), TokenKey(Owner), creator)
  }

  ghost function Deployed(v: Entries, s: Setup, creator: string): Entries
    requires s.decimals.Some?
  {
    WithBalance(Settings(v, s, creator), creator, s.supply)
  }

  /** One more setting is written: it reads as `s`, the others as before, and the balances stay. */
  lemma SettingStep(v: Entries, f: TokenField, s: string)
    ensures Sets(v, Put(v, TokenKey(f), s), TokenKey(f), s) && Balances(Put(v, TokenKey(f), s)) == Balances(v)
  {
    TokenKeysAreShort(f);
    PutSets(v, TokenKey(f), s);
    BalancesStay(v, TokenKey(f), s);
  }

  lemma SettingsRead(v: Entries, s: Setup, creator: string)
    requires s.decimals.Some? && s.supply <= U128_MAX && s.cap <= U128_MAX
    ensures var w := Settings(v, s, creator);
            && Str(w, TokenKey(TokenInit)) == "1" && Str(w, TokenKey(IsWrapped)) == (if s.wrapped then "1" else "0")
            && Str(w, TokenKey(BridgeOperator)) == s.operator
            && Supply(w) == s.supply && Cap(w) == s.cap && Balances(w) == Balances(v)
  {
    hide Put, Str, Num, Digits, Balances, Settings;
    var w := Settings(v, s, creator);
    SettingsChain(v, s, creator);
    NumberIsSet(w, TotalSupply, s.supply);
    NumberIsSet(w, MaxSupply, s.cap);
  }

  /** What each setting of a new token reads as. */
  ghost function SettingText(s: Setup, creator: string, f: TokenField): string
    requires s.decimals.Some?
  {
    match f
    case TokenInit => "1"
    case Name => s.name
    case Symbol => s.symbol
    case Decimals => Digits(s.decimals.value)
    case TotalSupply => Digits(s.supply)
    case Owner => creator
    case IsWrapped => if s.wrapped then "1" else "0"
    case WrappedOrigin => s.origin
    case MaxSupply => Digits(s.cap)
    case BridgeOperator => s.operator
  }

  /** The order in which the settings are written. */
  function Rank(f: TokenField): nat {
    match f
    case TokenInit => 0
    case Name => 1
    case Symbol => 2
    case Decimals => 3
    case TotalSupply => 4
    case IsWrapped => 5
    case WrappedOrigin => 6
    case MaxSupply => 7
    case BridgeOperator => 8
    case Owner => 9
  }

  /** The first `n` settings are written, and the balances stay. */
  ghost predicate Written(v: Entries, w: Entries, s: Setup, creator: string, n: nat)
    requires s.decimals.Some?
  {
    Balances(w) == Balances(v) && forall f | Rank(f) < n :: Str(w, TokenKey(f)) == SettingText(s, creator, f)
  }

  lemma WriteNext(v: Entries, w: Entries, s: Setup, creator: string, f: TokenField) returns (w': Entries)
    requires s.decimals.Some? && Written(v, w, s, creator, Rank(f))
    ensures w' == Put(w, TokenKey(f), SettingText(s, creator, f)) && Written(v, w', s, creator, Rank(f) + 1)
  {
    w' := Put(w, TokenKey(f), SettingText(s, creator, f));
    SettingStep(w, f, SettingText(s, creator, f));
    hide Put, Str, Digits, Balances, SettingText;
  }

  lemma NothingWritten(v: Entries, s: Setup, creator: string)
    requires s.decimals.Some?
    ensures Written(v, v, s, creator, 0)
  {
    hide Balances, Str, SettingText;
  }

  lemma SettingsChain(v: Entries, s: Setup, creator: string)
    requires s.decimals.Some?
    ensures Written(v, Settings(v, s, creator), s, creator, 10)
  {
    hide Written, Put, Str, Balances, Digits;
    NothingWritten(v, s, creator);
    var w := WriteNext(v, v, s, creator, TokenInit);
    w := WriteNext(v, w, s, creator, Name);
    w := WriteNext(v, w, s, creator, Symbol);
    w := WriteNext(v, w, s, creator, Decimals);
    w := WriteNext(v, w, s, creator, TotalSupply);
    w := WriteNext(v, w, s, creator, IsWrapped);
    w := WriteNext(v, w, s, creator, WrappedOrigin);
    w := WriteNext(v, w, s, creator, MaxSupply);
    w := WriteNext(v, w, s, creator, BridgeOperator);
    w := WriteNext(v, w, s, creator, Owner);
  }

  lemma NumberIsSet(v: Entries, f: TokenField, n: nat)
    requires f in {TotalSupply, MaxSupply} && Str(v, TokenKey(f)) == Digits(n) && n <= U128_MAX
    ensures Num(v, TokenKey(f)) == n
  {
    ParsePrinted(n, U128_MAX);
  }

  lemma DeployedReads(s: Setup, creator: string)
    requires s.decimals.Some? && s.supply <= U128_MAX && s.cap <= U128_MAX
    ensures var v := Deployed(map[], s, creator);
            && Ready(v) && (Wrapped(v) <==> s.wrapped) && Str(v, TokenKey(BridgeOperator)) == s.operator
            && Supply(v) == s.supply && Cap(v) == s.cap
            && Sum(Balances(v)) == (if Kept(creator) then s.supply else 0)
            && BalanceOf(v, creator) == (if Kept(creator) then s.supply else 0)
  {
    var none: Entries := map[];
    var w := Settings(none, s, creator);
    SettingsRead(none, s, creator);
    assert Balances(none) == map[];
    SettingsStay(w, BalanceKey(creator), Digits(s.supply), TokenInit);
    SettingsStay(w, BalanceKey(creator), Digits(s.supply), IsWrapped);
    SettingsStay(w, BalanceKey(creator), Digits(s.supply), BridgeOperator);
    hide Settings, Put, Str, Num, Digits, Balances, Slot;
    BalanceAtMostSum(w, creator);
    Credit(w, creator, s.supply);
    if Kept(creator) { WithBalanceReads(w, creator, s.supply, creator); } else { NothingKept(w, creator, s.supply); }
  }

  /** A new token is in order exactly when its creator has a name under which a balance is kept. */
  lemma DeploymentEstablishesInv(s: Setup, creator: string)
    requires Acceptable(s, creator) && s.supply <= U128_MAX && s.cap <= U128_MAX
    ensures var v := Deployed(map[], s, creator);
            && (Inv(v) <==> Kept(creator)) && Ready(v) && Supply(v) == s.supply && Cap(v) == s.cap
            && (Kept(creator) ==> BalanceOf(v, creator) == s.supply)
  {
    DeployedReads(s, creator);
    hide Deployed, Balances, Supply, Cap, BalanceOf, Kept;
  }

  /** From deployment on, over every run, the balances add up to the total supply, within the cap. */
  lemma SupplyIsSumOfBalances(s: Setup, creator: string, calls: seq<Call>)
    requires Acceptable(s, creator) && s.supply <= U128_MAX && s.cap <= U128_MAX && Kept(creator)
    requires (s.cap > 0 || s.supply + Minted(calls) <= U128_MAX) && forall c :: c in calls ==> Reaches(c)
    ensures var v := Run(Deployed(map[], s, creator), calls);
            Sum(Balances(v)) == Supply(v) <= U128_MAX && (s.cap > 0 ==> Supply(v) <= s.cap)
  {
    DeploymentEstablishesInv(s, creator);
    hide Deployed, Balances, Supply, Cap, BalanceOf, Kept, Reaches, Run;
    RunKeepsInv(Deployed(map[], s, creator), calls);
  }

  lemma NobodyElseHolds(v: Entries, a: string, b: string)
    requires a != b && |a| <= 1019 && Inv(v) && BalanceOf(v, a) == Supply(v)
    ensures BalanceOf(v, b) == 0
  {
    BalanceIs(v, a);
    BalanceIs(v, b);
    OwnBalanceExactly(a);
    hide BalanceOf, Slot, Cap, Supply;
    if Kept(b) && Slot(BalanceKey(b)).value in Balances(v) && BalanceOf(v, b) > 0 && BalanceOf(v, a) > 0 {
      SumAtLeastTwo(Balances(v), Slot(BalanceKey(a)).value, Slot(BalanceKey(b)).value);
    } else if BalanceOf(v, a) == 0 {
      BalanceAtMostSum(v, b);
    }
  }

  lemma MintReads(v: Entries, c: Call, who: string)
    requires CallEffect(v, c).ok && c.action.WrapMint?
    ensures BalanceOf(CallEffect(v, c).entries, who) - BalanceOf(v, who) ==
            if Shared(who, c.action.to) then c.action.amount else 0
  {
    hide CallEffect, BalanceOf, WithBalance, WithSupply, Shared, Str;
    SuccessIs(v, c);
    var to := c.action.to;
    var n := BalanceOf(v, to) + c.action.amount;
    var credited := WithBalance(v, to, n);
    WithBalanceReads(v, to, n, who);
    SupplyAsideBalances(credited, Min(Supply(v) + c.action.amount, U128_MAX), who);
    if Shared(who, to) { SharedRead(v, who, to); }
  }

  lemma FullSupply(s: Setup)
    requires Acceptable(s, "a") && s.supply == U128_MAX && s.cap == 0
    ensures var v := Deployed(map[], s, "a");
            Inv(v) && Supply(v) == U128_MAX && BalanceOf(v, "a") == U128_MAX && BalanceOf(v, "b") == 0
  {
    KeptIs("a");
    DeploymentEstablishesInv(s, "a");
    hide Deployed, BalanceOf, Kept, Inv;
    NobodyElseHolds(Deployed(map[], s, "a"), "a", "b");
  }

  /** An uncapped wrapped token whose supply is already the maximum: one mint, and the balances exceed the supply. */
  lemma OvermintingBreaksSupply(s: Setup, creator: string, c: Call)
    requires Acceptable(s, creator) && s.supply == U128_MAX && s.wrapped && s.cap == 0
    requires c == Call(s.operator, WrapMint("b", 1, "p")) && creator == "a"
    ensures var v := Deployed(map[], s, creator);
            && Inv(v) && Overmints(v, c)
            && var w := CallEffect(v, c).entries;
            && BalanceOf(w, "a") == U128_MAX && BalanceOf(w, "b") == 1 && !Inv(w)
  {
    var v := Deployed(map[], s, creator);
    KeptIs("b");
    OwnBalanceExactly("b");
    DeployedReads(s, creator);
    FullSupply(s);
    hide Deployed, Balances, BalanceOf, Slot, CallEffect, Kept, Inv, Supply;
    MintsIs(v, c);
    CallKeepsInv(v, c);
    MintReads(v, c, "a");
    MintReads(v, c, "b");
  }

  lemma SupplyAsideBalances(v: Entries, n: nat, who: string)
    ensures BalanceOf(WithSupply(v, n), who) == BalanceOf(v, who)
  {
    PutOtherKind(v, TokenKey(TotalSupply), Digits(n), BalanceKey(who));
  }

  /** A name as long as the host reads keys, that ends inside a character: what is sent to it is gone. */
  lemma CutNameLosesCredit(v: Entries, c: Call, to: string)
    requires Inv(v) && Ready(v) && c == Call("a", Transfer(to, 1)) && BalanceOf(v, "a") > 0
    requires |to| == 1021 && to[1020] == 0xA9 as char
    ensures LosesCredit(v, c) && CallEffect(v, c).ok && !Inv(CallEffect(v, c).entries)
  {
    KeptIs(to);
    hide Kept, BalanceOf, Inv, CallEffect;
    LosesCreditIs(v, c);
    CallKeepsInv(v, c);
  }
}
