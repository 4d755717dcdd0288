/** The deployed token: its exported calls, reading and writing the string-keyed store. */
module Usp01Contract {
  import opened Words
  import opened Text
  import opened Decimal
  import opened Storage
  import opened Usp01

  /** A missing argument reads as the empty string. */
  function Arg(args: seq<string>, i: nat): string {
    if i < |args| then args[i] else ""
  }

  ghost function Amount(args: seq<string>, i: nat): nat {
    Parsed(Arg(args, i), U128_MAX)
  }

  /** The answer and the entries of a call. */
  ghost predicate Performs(v: Entries, v': Entries, c: Call, ok: bool) {
    CallEffect(v, c) == Effect(ok, v')
  }

  class Usp01Contract {
    const store: KeyValueStore

    constructor (store: KeyValueStore)
      ensures this.store == store
    {
      this.store := store;
    }

    method IsReady() returns (ready: bool)
      requires store.Valid()
      ensures ready == Ready(store.entries)
    {
      var init := store.GetStr(TokenKey(TokenInit));
      ready := init == "1";
    }

    method IsWrappedToken() returns (wrapped: bool)
      requires store.Valid()
      ensures wrapped == Wrapped(store.entries)
    {
      var w := store.GetStr(TokenKey(IsWrapped));
      wrapped := w == "1";
    }

    /** `decimals` is the third argument as the library parsed it. */
    method Init(creator: string, args: seq<string>, decimals: Option<u64>) returns (ok: bool)
      requires store.Valid()
      modifies store
      ensures store.Valid()
      ensures var s := Setup(Arg(args, 0), Arg(args, 1), decimals, Amount(args, 3), Arg(args, 4) == "1", Arg(args, 5),
                             Amount(args, 6), Arg(args, 7));
              && (ok <==> !Ready(old(store.entries)) && Acceptable(s, creator))
              && store.entries == if ok then Deployed(old(store.entries), s, creator) else old(store.entries)
    {
      var ready := IsReady();
      var name, symbol := Arg(args, 0), Arg(args, 1);
      if ready || name == "" || |name| > 64 || symbol == "" || |symbol| > 8 {
        return false;
      }
      if decimals.None? || decimals.value > 18 {
        return false;
      }
      var supply := Parse(Arg(args, 3), U128_MAX);
      if supply == 0 {
        return false;
      }
      var wrapped := Arg(args, 4) == "1";
      var origin := Arg(args, 5);
      var cap := Parse(Arg(args, 6), U128_MAX);
      var operator := Arg(args, 7);
      if (cap > 0 && supply > cap) || (wrapped && origin == "") || (wrapped && operator == "") || creator == "" {
        return false;
      }
      WriteSetup(Setup(name, symbol, Some(decimals.value), supply, wrapped, origin, cap, operator), creator);
      ok := true;
    }

    /** The entries of a new token, in the order they are written. */
    method WriteSetup(s: Setup, creator: string)
      requires store.Valid() && s.decimals.Some? && s.decimals.value <= 18 && s.supply <= U128_MAX && s.cap <= U128_MAX
      modifies store
      ensures store.Valid() && store.entries == Deployed(old(store.entries), s, creator)
    {
      store.SetStr(TokenKey(TokenInit), "1");
      store.SetStr(TokenKey(Name), s.name);
      store.SetStr(TokenKey(Symbol), s.symbol);
      store.SetNum(TokenKey(Decimals), s.decimals.value);
      store.SetNum(TokenKey(TotalSupply), s.supply);
      store.SetStr(TokenKey(IsWrapped), if s.wrapped then "1" else "0");
      store.SetStr(TokenKey(WrappedOrigin), s.origin);
      store.SetNum(TokenKey(MaxSupply), s.cap);
      store.SetStr(TokenKey(BridgeOperator), s.operator);
      store.SetStr(TokenKey(Owner), creator);
      store.SetNum(BalanceKey(creator), s.supply);
    }

    method Transfer(caller: string, args: seq<string>) returns (ok: bool)
      requires store.Valid()
      modifies store
      ensures store.Valid()
      ensures Performs(old(store.entries), store.entries,
                       Call(caller, Action.Transfer(Arg(args, 0), Amount(args, 1))), ok)
    {
      var ready := IsReady();
      var to := Arg(args, 0);
      if !ready || to == "" {
        return false;
      }
      var amount := Parse(Arg(args, 1), U128_MAX);
      if amount == 0 || caller == "" || caller == to {
        return false;
      }
      var balance := store.GetNum(BalanceKey(caller));
      if balance < amount {
        return false;
      }
      ok := MoveBalance(caller, to, amount, balance);
    }

    /** Debit the one, then credit the other; an overflow exits in between. */
    method MoveBalance(from: string, to: string, amount: u128, balance: u128) returns (ok: bool)
      requires store.Valid() && balance == BalanceOf(store.entries, from) >= amount
      modifies store
      ensures store.Valid()
      ensures Move(old(store.entries), from, to, amount) == Effect(ok, store.entries)
    {
      store.SetNum(BalanceKey(from), balance - amount);
      var credit := store.GetNum(BalanceKey(to));
      if credit + amount > U128_MAX {
        return false;
      }
      store.SetNum(BalanceKey(to), credit + amount);
      ok := true;
    }

    method Approve(caller: string, args: seq<string>) returns (ok: bool)
      requires store.Valid()
      modifies store
      ensures store.Valid()
      ensures Performs(old(store.entries), store.entries,
                       Call(caller, Action.Approve(Arg(args, 0), Amount(args, 1))), ok)
    {
      var ready := IsReady();
      var spender := Arg(args, 0);
      if !ready || spender == "" {
        return false;
      }
      var amount := Parse(Arg(args, 1), U128_MAX);
      if caller == "" || caller == spender {
        return false;
      }
      store.SetNum(AllowanceKey(PairOf(caller, spender)), amount);
      ok := true;
    }

    method TransferFrom(caller: string, args: seq<string>) returns (ok: bool)
      requires store.Valid()
      modifies store
      ensures store.Valid()
      ensures Performs(old(store.entries), store.entries,
                       Call(caller, Action.TransferFrom(Arg(args, 0), Arg(args, 1), Amount(args, 2))), ok)
    {
      hide Str, Num, Put;
      var ready := IsReady();
      var from, to := Arg(args, 0), Arg(args, 1);
      if !ready || from == "" || to == "" {
        return false;
      }
      var amount := Parse(Arg(args, 2), U128_MAX);
      if amount == 0 || from == to || caller == "" {
        return false;
      }
      var pair := PairOf(from, caller);
      var allowance := store.GetNum(AllowanceKey(pair));
      if allowance < amount {
        return false;
      }
      var balance := store.GetNum(BalanceKey(from));
      if balance < amount {
        return false;
      }
      ok := MoveBalance(from, to, amount, balance);
      if ok {
        store.SetNum(AllowanceKey(pair), allowance - amount);
      }
    }

    /** Debit an account and lower the supply. */
    method DestroyBalance(from: string, amount: u128, balance: u128)
      requires store.Valid() && balance == BalanceOf(store.entries, from) >= amount
      modifies store
      ensures store.Valid() && store.entries == Destroy(old(store.entries), from, amount)
    {
      SettingsStay(store.entries, BalanceKey(from), Digits(balance - amount), TotalSupply);
      store.SetNum(BalanceKey(from), balance - amount);
      var supply := store.GetNum(TokenKey(TotalSupply));
      store.SetNum(TokenKey(TotalSupply), SatSub(supply, amount));
    }

    method Burn(caller: string, args: seq<string>) returns (ok: bool)
      requires store.Valid()
      modifies store
      ensures store.Valid()
      ensures Performs(old(store.entries), store.entries, Call(caller, Action.Burn(Amount(args, 0))), ok)
    {
      var ready := IsReady();
      var amount := Parse(Arg(args, 0), U128_MAX);
      if !ready || amount == 0 || caller == "" {
        return false;
      }
      var balance := store.GetNum(BalanceKey(caller));
      if balance < amount {
        return false;
      }
      DestroyBalance(caller, amount, balance);
      ok := true;
    }

    method WrapMint(caller: string, args: seq<string>) returns (ok: bool)
      requires store.Valid()
      modifies store
      ensures store.Valid()
      ensures Performs(old(store.entries), store.entries,
                       Call(caller, Action.WrapMint(Arg(args, 0), Amount(args, 1), Arg(args, 2))), ok)
    {
      hide Str, Num, Put, Digits;
      var ready := IsReady();
      var wrapped := IsWrappedToken();
      var operator := store.GetStr(TokenKey(BridgeOperator));
      if !ready || !wrapped || caller != operator {
        return false;
      }
      var to := Arg(args, 0);
      var amount := Parse(Arg(args, 1), U128_MAX);
      if to == "" || amount == 0 || Arg(args, 2) == "" {
        return false;
      }
      var cap := store.GetNum(TokenKey(MaxSupply));
      var supply := store.GetNum(TokenKey(TotalSupply));
      if cap > 0 {
        if supply + amount > U128_MAX || supply + amount > cap {
          return false;
        }
      }
      var credit := store.GetNum(BalanceKey(to));
      if credit + amount > U128_MAX {
        return false;
      }
      store.SetNum(BalanceKey(to), credit + amount);
      store.SetNum(TokenKey(TotalSupply), SatAdd(supply, amount));
      ok := true;
    }

    method WrapBurn(caller: string, args: seq<string>) returns (ok: bool)
      requires store.Valid()
      modifies store
      ensures store.Valid()
      ensures Performs(old(store.entries), store.entries,
                       Call(caller, Action.WrapBurn(Amount(args, 0), Arg(args, 1))), ok)
    {
      var ready := IsReady();
      var wrapped := IsWrappedToken();
      var amount := Parse(Arg(args, 0), U128_MAX);
      if !ready || !wrapped || amount == 0 || Arg(args, 1) == "" || caller == "" {
        return false;
      }
      var balance := store.GetNum(BalanceKey(caller));
      if balance < amount {
        return false;
      }
      DestroyBalance(caller, amount, balance);
      ok := true;
    }
  }
}
