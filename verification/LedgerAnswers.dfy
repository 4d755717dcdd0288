/**
 * Which blocks a ledger applies and what they do, in the protocol's own numbers; and over
 * runs, whose key it takes to lower a balance.
 */
module LedgerAnswers {
  import opened Words
  import opened LedgerModel
  import opened LedgerConvergence

  // ---------------------------------------------------------------- authorization

  /** Sixteen zero bits, and a valid signature. */
  ghost predicate Sealed(env: Env, b: Block) {
    var d := env.digest(b);
    |d| >= 2 && d[0] == 0 && d[1] == 0 && env.signatureOk(b)
  }

  /** The public key of the block is one from which its account's address derives. */
  ghost predicate ByOwner(env: Env, b: Block) {
    var key := env.decodeHex(b.publicKey);
    key.Some? && key.value != [] && env.address(key.value) == b.account
  }

  /** It is that of a registered validator who holds 1,000 LOS. */
  ghost predicate ByValidator(env: Env, st: State, b: Block) {
    var key := env.decodeHex(b.publicKey);
    && key.Some? && env.address(key.value) in st.accounts
    && var signer := st.accounts[env.address(key.value)];
    signer.isValidator && signer.balance >= 1_000 * 100_000_000_000
  }

  /** These types spend, or speak for the account; the others need no key of its owner. */
  ghost predicate Authorized(env: Env, st: State, b: Block) {
    match b.blockType
    case Send => ByOwner(env, b)
    case Change => ByOwner(env, b)
    case ContractDeploy => ByOwner(env, b)
    case ContractCall => ByOwner(env, b)
    case Slash => ByValidator(env, st, b)
    case Receive => true
    case Mint => true
  }

  // ---------------------------------------------------------------- place, time and contents

  ghost function BalanceOf(st: State, a: string): nat {
    if a in st.accounts then st.accounts[a].balance else 0
  }

  /** The block extends its account's chain; only a Mint or a Receive opens an account. */
  ghost predicate InPlace(st: State, b: Block) {
    if b.account in st.accounts then b.previous == st.accounts[b.account].head
    else b.previous == "0" && (b.blockType.Mint? || b.blockType.Receive?)
  }

  /** Not more than five minutes ahead, nor before the block it extends. */
  ghost predicate InTime(st: State, b: Block, now: nat) {
    && b.timestamp <= now + 300
    && (b.previous != "0" && b.previous in st.blocks ==> st.blocks[b.previous].timestamp <= b.timestamp)
  }

  /** A contract call names a contract and a function. */
  ghost predicate NamesFunction(link: string) {
    exists contract: string, rest: string :: link == "CALL:" + contract + ":" + rest
  }

  /** The account pays amount and fee. */
  ghost predicate Covers(st: State, b: Block, least: nat) {
    least <= b.fee && b.amount + b.fee <= BalanceOf(st, b.account)
  }

  ghost predicate MayMintMore(env: Env, link: string) {
    || (|link| >= 7 && link[..7] == "REWARD:")
    || (|link| >= 11 && link[..11] == "FEE_REWARD:")
    || (env.testnet && |link| >= 7 && link[..7] == "FAUCET:")
    || (env.testnet && |link| >= 8 && link[..8] == "TESTNET:")
    || (env.testnet && |link| >= 4 && link[..4] == "Src:")
  }

  /** What each type of block has to satisfy. */
  ghost predicate InOrder(env: Env, st: State, b: Block) {
    match b.blockType
    case Send => Covers(st, b, 100_000)
    case ContractDeploy =>
      |b.link| >= 15 && b.link[..7] == "DEPLOY:" && Covers(st, b, 1_000_000_000)
    case ContractCall => NamesFunction(b.link) && Covers(st, b, 100_000)
    case Receive =>
      && b.link in st.blocks && b.link !in st.claimedSends
      && var send := st.blocks[b.link];
      send.blockType.Send? && send.link == b.account && send.amount == b.amount
    case Change => b.link != ""
    case Slash => b.link != "" && b.amount > 0
    case Mint => b.amount <= st.remainingSupply && (b.amount <= 1_000 * 100_000_000_000 || MayMintMore(env, b.link))
  }

  lemma CallLinkIs(link: string)
    ensures NamesFunction(link) <==> "CALL:" <= link && ':' in link[5..]
  {
    if "CALL:" <= link && ':' in link[5..] {
      var k :| 0 <= k < |link[5..]| && link[5..][k] == ':';
      assert link[..5] == "CALL:" && link[5 + k] == ':';
      assert link == "CALL:" + link[5..5 + k] + ":" + link[6 + k..];
    }
    if NamesFunction(link) {
      var contract: string, rest: string :| link == "CALL:" + contract + ":" + rest;
      assert link[..5] == "CALL:" && link[5 + |contract|] == ':';
      assert link[5..][|contract|] == ':';
    }
  }

  lemma OwnerIs(env: Env, b: Block)
    ensures OwnerError(env, b).None? <==> ByOwner(env, b)
  {
  }

  lemma BlockIsSealed(env: Env, st: State, b: Block)
    ensures BlockError(env, b).None? <==> Sealed(env, b) && (b.blockType.Slash? || Authorized(env, st, b))
  {
  }

  lemma ChainIsInPlace(st: State, b: Block, now: nat)
    ensures ChainError(st, b, now).None? <==> InPlace(st, b) && InTime(st, b, now)
  {
  }

  lemma TypeIsInOrder(env: Env, st: State, b: Block)
    ensures TypeError(env, st, b).None? <==> InOrder(env, st, b) && (b.blockType.Slash? ==> Authorized(env, st, b))
  {
    CallLinkIs(b.link);
    hide NamesFunction;
  }

  /** A block is applied if and only if it is sealed, authorized, new, in place, in time and in order. */
  lemma AppliedExactly(env: Env, st: State, b: Block, now: nat)
    ensures Process(env, st, b, now).1 == Applied(env.hash(b)) <==>
            && Sealed(env, b) && Authorized(env, st, b)
            && env.hash(b) !in st.blocks
            && InPlace(st, b) && InTime(st, b, now) && InOrder(env, st, b)
    ensures Process(env, st, b, now).1.Applied? ==> Process(env, st, b, now).1 == Applied(env.hash(b))
  {
    BlockIsSealed(env, st, b);
    ChainIsInPlace(st, b, now);
    TypeIsInOrder(env, st, b);
    hide BlockError, ChainError, TypeError, Sealed, Authorized, InPlace, InTime, InOrder;
  }

  /** It is answered as a duplicate if it is stored already, sealed, and by its owner if it needs to be. */
  lemma DuplicateExactly(env: Env, st: State, b: Block, now: nat)
    ensures Process(env, st, b, now).1 == Duplicate(env.hash(b)) <==>
            && Sealed(env, b) && (b.blockType.Slash? || Authorized(env, st, b))
            && env.hash(b) in st.blocks
    ensures !Process(env, st, b, now).1.Applied? ==> Process(env, st, b, now).0 == st
  {
    BlockIsSealed(env, st, b);
    hide BlockError, ChainError, TypeError, Sealed, Authorized;
  }

  // ---------------------------------------------------------------- effects

  /** The new balance of the account, for each type of block. */
  ghost function BalanceAfter(balance: nat, b: Block): int {
    match b.blockType
    case Send => balance - b.amount - b.fee
    case ContractDeploy => balance - b.amount - b.fee
    case ContractCall => balance - b.amount - b.fee
    case Receive => if balance + b.amount <= U128_MAX then balance + b.amount else U128_MAX
    case Mint => if balance + b.amount <= U128_MAX then balance + b.amount else U128_MAX
    case Change => balance
    case Slash => if b.amount <= balance then balance - b.amount else 0
  }

  /** What an applied block leaves behind, field by field. */
  lemma AppliedLeaves(env: Env, st: State, b: Block, now: nat)
    requires Process(env, st, b, now).1.Applied?
    ensures var t := Process(env, st, b, now).0;
            && t.accounts.Keys == st.accounts.Keys + {b.account}
            && (forall a :: a in st.accounts && a != b.account ==> t.accounts[a] == st.accounts[a])
            && t.accounts[b.account].head == env.hash(b)
            && t.accounts[b.account].balance == BalanceAfter(BalanceOf(st, b.account), b)
            && t.accounts[b.account].blockCount ==
               (if b.account in st.accounts then st.accounts[b.account].blockCount else 0) + 1
            && t.accounts[b.account].isValidator == (b.account in st.accounts && st.accounts[b.account].isValidator)
    ensures var t := Process(env, st, b, now).0;
            && t.blocks == st.blocks[env.hash(b) := b]
            && t.claimedSends == st.claimedSends + (if b.blockType.Receive? then {b.link} else {})
            && t.remainingSupply == st.remainingSupply - (if b.blockType.Mint? then b.amount else 0)
            && t.accumulatedFees ==
               Min(U128_MAX, st.accumulatedFees +
                   match b.blockType
                   case Send => b.fee
                   case ContractDeploy => b.fee
                   case ContractCall => b.fee
                   case _ => 0)
            && t.totalBurnedUsd == (st.totalBurnedUsd + if b.blockType.Mint? then FiatPrice(env, b.link) else 0)
                                   % 0x1_0000_0000_0000_0000_0000_0000_0000_0000
  {
    AppliedExactly(env, st, b, now);
    hide NamesFunction, MayMintMore, BlockError, ChainError, TypeError, FiatPrice;
  }

  /** In a Mint's link `a:b:c:price`, and whatever follows after a colon, the fourth part is the price. */
  lemma PriceIsFourthPart(env: Env, a: string, b: string, c: string, price: string, rest: string)
    requires ':' !in a && ':' !in b && ':' !in c && ':' !in price && (rest == "" || rest[0] == ':')
    ensures FiatPrice(env, a + ":" + b + ":" + c + ":" + price + rest) ==
            match env.parseU128(price) case Some(p) => p case None => 0
  {
    var u := price + rest;
    var t := c + ":" + u;
    var s := b + ":" + t;
    assert a + ":" + b + ":" + c + ":" + price + rest == a + ":" + s;
    SplitHead(price, rest);
    FourParts(a, b, c, s, t, u);
  }

  lemma FourParts(a: string, b: string, c: string, s: string, t: string, u: string)
    requires ':' !in a && ':' !in b && ':' !in c && s == b + ":" + t && t == c + ":" + u
    ensures var parts := Split(a + ":" + s, ':'); |parts| >= 4 && parts[3] == Split(u, ':')[0]
  {
    SplitFirst(a, s);
    SplitFirst(b, t);
    SplitFirst(c, u);
    hide Split;
  }

  /** A link of fewer parts names no price. */
  lemma NoFourthPart(env: Env, link: string)
    requires forall i, j, k :: 0 <= i < j < k < |link| ==> !(link[i] == ':' && link[j] == ':' && link[k] == ':')
    ensures FiatPrice(env, link) == 0
  {
    if |Split(link, ':')| >= 4 { ThreeColons(link); }
  }

  lemma {:induction false} SplitFirst(a: string, s: string)
    requires ':' !in a
    ensures Split(a + ":" + s, ':') == [a] + Split(s, ':')
    decreases |a|
  {
    var t := a + ":" + s;
    if a == "" {
      assert t[1..] == s;
    } else {
      SplitFirst(a[1..], s);
      assert t[1..] == a[1..] + ":" + s;
      assert [a[0]] + a[1..] == a;
    }
  }

  lemma {:induction false} SplitHead(a: string, rest: string)
    requires ':' !in a && (rest == "" || rest[0] == ':')
    ensures Split(a + rest, ':')[0] == a
    decreases |a|
  {
    if a == "" {
      assert a + rest == rest;
    } else {
      SplitHead(a[1..], rest);
      assert (a + rest)[1..] == a[1..] + rest;
      assert [a[0]] + a[1..] == a;
    }
  }

  /** No part but the last is followed by nothing: there is one part more than colons. */
  lemma {:induction false} PartsFromColons(s: string, n: nat)
    requires |Split(s, ':')| > n + 1
    ensures exists i :: 0 <= i < |s| && s[i] == ':' && |Split(s[i + 1..], ':')| > n
    decreases |s|
  {
    if s != "" {
      var rest := s[1..];
      if s[0] == ':' {
        assert s[0 + 1..] == rest;
      } else {
        PartsFromColons(rest, n);
        var i :| 0 <= i < |rest| && rest[i] == ':' && |Split(rest[i + 1..], ':')| > n;
        assert s[i + 1] == ':' && s[i + 1 + 1..] == rest[i + 1..];
      }
    }
  }

  lemma ThreeColons(s: string)
    requires |Split(s, ':')| >= 4
    ensures exists i, j, k :: 0 <= i < j < k < |s| && s[i] == ':' && s[j] == ':' && s[k] == ':'
  {
    PartsFromColons(s, 2);
    var i :| 0 <= i < |s| && s[i] == ':' && |Split(s[i + 1..], ':')| > 2;
    var t := s[i + 1..];
    PartsFromColons(t, 1);
    var j :| 0 <= j < |t| && t[j] == ':' && |Split(t[j + 1..], ':')| > 1;
    var u := t[j + 1..];
    PartsFromColons(u, 0);
    var k :| 0 <= k < |u| && u[k] == ':';
    assert s[i + 1 + j] == ':' && s[i + 1 + j + 1 + k] == ':';
  }

  // ---------------------------------------------------------------- who lowers a balance

  /** The block takes value from `a`, with its owner's key or by a validator's penalty. */
  ghost predicate Debits(env: Env, st: State, b: Block, a: string) {
    && b.account == a && Sealed(env, b)
    && (|| (ByOwner(env, b) && (b.blockType.Send? || b.blockType.ContractDeploy? || b.blockType.ContractCall?))
        || (ByValidator(env, st, b) && b.blockType.Slash?))
  }

  lemma StepDebits(env: Env, st: State, step: Step, a: string)
    requires BalanceOf(Take(env, st, step), a) < BalanceOf(st, a)
    ensures step.Submit? && Applies(env, st, step) && Debits(env, st, step.block, a)
  {
    if step.Submit? {
      AppliedExactly(env, st, step.block, step.now);
      DuplicateExactly(env, st, step.block, step.now);
      hide Process, Sealed, ByOwner, ByValidator, InPlace, InTime, InOrder;
      AppliedLeaves(env, st, step.block, step.now);
    }
  }

  /** Whether some step of the run debits `a`, at the ledger it finds. */
  ghost predicate SomeDebits(env: Env, st: State, steps: seq<Step>, a: string)
    decreases |steps|
  {
    && steps != []
    && (|| (Applies(env, st, steps[0]) && Debits(env, st, steps[0].block, a))
        || SomeDebits(env, Take(env, st, steps[0]), steps[1..], a))
  }

  /** Over every run a balance goes down only by a block with its owner's key, or a penalty signed by a validator. */
  lemma {:induction false} OnlyOwnerSpends(env: Env, st: State, steps: seq<Step>, a: string)
    requires BalanceOf(Run(env, st, steps), a) < BalanceOf(st, a)
    ensures SomeDebits(env, st, steps, a)
    decreases |steps|
  {
    hide Take, Applies, Debits;
    if steps != [] {
      var t := Take(env, st, steps[0]);
      if BalanceOf(t, a) < BalanceOf(st, a) {
        StepDebits(env, st, steps[0], a);
      } else {
        OnlyOwnerSpends(env, t, steps[1..], a);
      }
    }
  }
}
