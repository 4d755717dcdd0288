/** The exchange's calls as lists of strings, and the texts its entries are kept under. */
module DexTexts {
  import opened Words
  import opened Decimal
  import opened Storage
  import opened Dex
  import opened DexContract
  import opened DexHosted

  /** How a caller writes down a call: names as they are, numbers in decimal, an absent fee not at all. */
  ghost function Written(a: Action): seq<string> {
    match a
    case CreatePool(tokenA, tokenB, m, n, fee) =>
      [tokenA, tokenB, Digits(m), Digits(n)] + (match fee { case Some(bps) => [Digits(bps)] case None => [] })
    case AddLiquidity(id, m, n, minLp) => [id, Digits(m), Digits(n), Digits(minLp)]
    case RemoveLiquidity(id, lp, minA, minB) => [id, Digits(lp), Digits(minA), Digits(minB)]
    case Swap(id, tokenIn, amount, minOut, deadline) => [id, tokenIn, Digits(amount), Digits(minOut), Digits(deadline)]
  }

  function ExportOf(a: Action): Export {
    match a
    case CreatePool(_, _, _, _, _) => CreatePoolExport
    case AddLiquidity(_, _, _, _) => AddLiquidityExport
    case RemoveLiquidity(_, _, _, _) => RemoveLiquidityExport
    case Swap(_, _, _, _, _) => SwapExport
  }

  /** Names are given, and every number fits its type. */
  predicate Writable(a: Action) {
    match a
    case CreatePool(tokenA, tokenB, m, n, fee) =>
      && tokenA != "" && tokenB != "" && m <= U128_MAX && n <= U128_MAX && (fee.Some? ==> fee.value <= U128_MAX)
    case AddLiquidity(id, m, n, minLp) => id != "" && m <= U128_MAX && n <= U128_MAX && minLp <= U128_MAX
    case RemoveLiquidity(id, lp, minA, minB) => id != "" && lp <= U128_MAX && minA <= U128_MAX && minB <= U128_MAX
    case Swap(id, tokenIn, amount, minOut, deadline) =>
      && id != "" && tokenIn != "" && amount <= U128_MAX && minOut <= U128_MAX && deadline <= U64_MAX
  }

  lemma NumberArg(args: seq<string>, i: nat, n: nat, limit: nat)
    requires i < |args| && args[i] == Digits(n) && n <= limit
    ensures NumArg(args, i, limit) == Some(n) && args[i] != ""
  {
    ParsePrinted(n, limit);
  }

  lemma CreateRoundTrip(a: Action)
    requires Writable(a) && a.CreatePool?
    ensures CreateArgs(Written(a)) == Some(a)
  {
    var w := Written(a);
    NumberArg(w, 2, a.amountA, U128_MAX);
    NumberArg(w, 3, a.amountB, U128_MAX);
    if a.fee.Some? { NumberArg(w, 4, a.fee.value, U128_MAX); }
    hide Digits, Parsed;
  }

  lemma OtherRoundTrip(a: Action)
    requires Writable(a) && !a.CreatePool?
    ensures Decoded(ExportOf(a), Written(a)) == Some(a)
  {
    var w := Written(a);
    match a {
      case AddLiquidity(_, m, n, minLp) =>
        NumberArg(w, 1, m, U128_MAX);
        NumberArg(w, 2, n, U128_MAX);
        NumberArg(w, 3, minLp, U128_MAX);
      case RemoveLiquidity(_, lp, minA, minB) =>
        NumberArg(w, 1, lp, U128_MAX);
        NumberArg(w, 2, minA, U128_MAX);
        NumberArg(w, 3, minB, U128_MAX);
      case Swap(_, _, amount, minOut, deadline) =>
        NumberArg(w, 2, amount, U128_MAX);
        NumberArg(w, 3, minOut, U128_MAX);
        NumberArg(w, 4, deadline, U64_MAX);
    }
    hide Digits, Parsed;
  }

  /** What is decoded is what was written down. */
  lemma WrittenIsDecoded(a: Action)
    requires Writable(a)
    ensures Decoded(ExportOf(a), Written(a)) == Some(a)
  {
    if a.CreatePool? { CreateRoundTrip(a); } else { OtherRoundTrip(a); }
    hide Written, CreateArgs, AddArgs, RemoveArgs, SwapArgs;
  }

  /** Nothing is decoded exactly when an argument is missing, or a name is empty. */
  lemma UndecodedExactly(x: Export, args: seq<string>)
    ensures Decoded(x, args) == None <==>
            || |args| < (if x == SwapExport then 5 else 4) || args[0] == ""
            || (x != AddLiquidityExport && x != RemoveLiquidityExport && args[1] == "")
  {
    hide Parsed;
  }

  /** The text a field of a pool is kept under. */
  lemma PoolText(id: string, f: PoolField)
    ensures Render(PoolKey(id, f)) == "pool:" + id + ":" +
              match f
              case TokenA => "token_a" case TokenB => "token_b"
              case ReserveA => "reserve_a" case ReserveB => "reserve_b"
              case TotalLp => "total_lp" case FeeBps => "fee_bps"
              case Creator => "creator" case LastTrade => "last_trade"
  {
    Regrouped("pool:", id, PoolFieldName(f));
  }

  lemma Regrouped(p: string, id: string, rest: string)
    ensures p + (id + ":" + rest) == p + id + ":" + rest
  {
  }

  /** The texts of a share, of a place in the list, and of what `init` writes. */
  lemma OtherTexts(id: string, who: string, i: nat)
    ensures Render(LpKey(id, who)) == "lp:" + id + ":" + who
    ensures Render(ListKey(i)) == "pool_list:" + Digits(i)
    ensures Render(DexKey(DexInit)) == "dex:init" && Render(DexKey(DexOwner)) == "dex:owner"
    ensures Render(DexKey(PoolCount)) == "dex:pool_count"
  {
    hide Digits;
    Regrouped("lp:", id, who);
  }
}
