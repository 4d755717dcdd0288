/** Account chains: every account's blocks form one unforked chain, and the chains cover the block store. */
module LedgerChains {
  import opened Words
  import opened LedgerModel
  import opened LedgerConvergence

  /** The hashes met when following `previous` from `h`, at most `fuel` of them. */
  ghost function Follow(blocks: map<string, Block>, h: string, fuel: nat): seq<string>
    decreases fuel
  {
    if fuel == 0 || h !in blocks then []
    else [h] + Follow(blocks, blocks[h].previous, fuel - 1)
  }

  /** What the block at position `i` of a chain has as its predecessor. */
  ghost function Older(c: seq<string>, i: nat): string {
    if i + 1 < |c| then c[i + 1] else "0"
  }

  ghost predicate Linked(blocks: map<string, Block>, a: string, c: seq<string>) {
    forall i :: 0 <= i < |c| ==>
      && c[i] in blocks
      && blocks[c[i]].account == a
      && blocks[c[i]].previous == Older(c, i)
  }

  /** Newest first, no block is older than one that follows it. */
  ghost predicate NewestFirst(blocks: map<string, Block>, c: seq<string>)
    requires forall i :: 0 <= i < |c| ==> c[i] in blocks
  {
    forall i, j :: 0 <= i <= j < |c| ==> blocks[c[j]].timestamp <= blocks[c[i]].timestamp
  }

  /** `c` is the whole chain of account `a`, newest block first. */
  ghost predicate IsChain(st: State, a: string, c: seq<string>)
    requires a in st.accounts
  {
    && Linked(st.blocks, a, c)
    && st.accounts[a].head == (if c == [] then "0" else c[0])
    && st.accounts[a].blockCount == |c|
    && (forall i, j :: 0 <= i < j < |c| ==> c[i] != c[j])
    && NewestFirst(st.blocks, c)
    && (forall h :: h in st.blocks && st.blocks[h].account == a ==> h in c)
  }

  ghost predicate ChainsOk(env: Env, st: State) {
    && (forall h :: h in st.blocks ==> env.hash(st.blocks[h]) == h && st.blocks[h].account in st.accounts)
    && (forall a :: a in st.accounts ==> exists c :: IsChain(st, a, c))
  }

  /** A block of another account leaves a chain alone. */
  lemma OtherChainKept(env: Env, st: State, b: Block, a: string, c: seq<string>)
    requires a in st.accounts && IsChain(st, a, c)
    requires env.hash(b) !in st.blocks && b.account != a
    ensures IsChain(Effect(env, st, b), a, c)
  {
  }

  /** A new block on top of a chain. */
  lemma ChainExtends(blocks: map<string, Block>, a: string, c: seq<string>, h: string, b: Block)
    requires Linked(blocks, a, c) && NewestFirst(blocks, c)
    requires forall i, j :: 0 <= i < j < |c| ==> c[i] != c[j]
    requires h !in blocks && b.account == a && b.previous == (if c == [] then "0" else c[0])
    requires c != [] ==> blocks[c[0]].timestamp <= b.timestamp
    ensures Linked(blocks[h := b], a, [h] + c) && NewestFirst(blocks[h := b], [h] + c)
    ensures forall i, j :: 0 <= i < j < |[h] + c| ==> ([h] + c)[i] != ([h] + c)[j]
  {
    var c' := [h] + c;
    assert forall i :: 0 < i < |c'| ==> c'[i] == c[i - 1] && Older(c', i) == Older(c, i - 1);
    assert Older(c', 0) == b.previous;
  }

  /** An accepted block becomes the newest block of its account's chain. */
  lemma ChainGrows(env: Env, st: State, b: Block, now: nat, c: seq<string>)
    requires env.Valid() && Accepts(env, st, b, now)
    requires "0" !in st.blocks
    requires b.account in st.accounts ==> IsChain(st, b.account, c)
    requires b.account !in st.accounts ==> c == [] && forall h :: h in st.blocks ==> st.blocks[h].account != b.account
    ensures IsChain(Effect(env, st, b), b.account, [env.hash(b)] + c)
  {
    assert Linked(st.blocks, b.account, c);
    assert c != [] ==> c[0] == b.previous && c[0] in st.blocks;
    ChainExtends(st.blocks, b.account, c, env.hash(b), b);
    var st' := Effect(env, st, b);
    assert st'.blocks == st.blocks[env.hash(b) := b];
    forall h | h in st'.blocks && st'.blocks[h].account == b.account ensures h in [env.hash(b)] + c {
      if h != env.hash(b) {
        assert h in c;
      }
    }
  }

  lemma AcceptedKeepsChains(env: Env, st: State, b: Block, now: nat)
    requires env.Valid() && ChainsOk(env, st) && Accepts(env, st, b, now)
    ensures ChainsOk(env, Effect(env, st, b))
  {
    var st' := Effect(env, st, b);
    forall a | a in st'.accounts ensures exists c :: IsChain(st', a, c) {
      if a == b.account {
        var c := [];
        if a in st.accounts {
          c :| IsChain(st, a, c);
        }
        ChainGrows(env, st, b, now, c);
      } else {
        var c :| IsChain(st, a, c);
        OtherChainKept(env, st, b, a, c);
      }
    }
  }

  lemma GenesisChains(env: Env, st: State)
    requires Genesis(st)
    ensures ChainsOk(env, st)
  {
    forall a | a in st.accounts ensures exists c :: IsChain(st, a, c) {
      assert IsChain(st, a, []);
    }
  }

  lemma AppliesIsAccepts(env: Env, st: State, step: Step)
    ensures Applies(env, st, step) <==> step.Submit? && Accepts(env, st, step.block, step.now)
  {
  }

  lemma StepKeepsChains(env: Env, st: State, step: Step)
    requires env.Valid() && ChainsOk(env, st)
    ensures ChainsOk(env, Take(env, st, step))
  {
    AppliesIsAccepts(env, st, step);
    TakeCases(env, st, step);
    if Applies(env, st, step) {
      AcceptedKeepsChains(env, st, step.block, step.now);
    } else if step.ClaimFees? {
      forall a | a in st.accounts ensures exists c :: IsChain(Take(env, st, step), a, c) {
        var c :| IsChain(st, a, c);
        assert IsChain(Take(env, st, step), a, c);
      }
    }
  }

  lemma {:induction false} RunKeepsChains(env: Env, st: State, steps: seq<Step>)
    requires env.Valid() && ChainsOk(env, st)
    ensures ChainsOk(env, Run(env, st, steps))
    decreases |steps|
  {
    if steps != [] {
      StepKeepsChains(env, st, steps[0]);
      RunKeepsChains(env, Take(env, st, steps[0]), steps[1..]);
    }
  }

  lemma {:induction false} FollowIsChain(blocks: map<string, Block>, a: string, c: seq<string>, fuel: nat)
    requires Linked(blocks, a, c) && |c| <= fuel && "0" !in blocks
    ensures Follow(blocks, if c == [] then "0" else c[0], fuel) == c
    decreases fuel
  {
    if c != [] {
      var rest := c[1..];
      forall i | 0 <= i < |rest|
        ensures rest[i] in blocks && blocks[rest[i]].account == a && blocks[rest[i]].previous == Older(rest, i)
      {
        assert rest[i] == c[i + 1] && Older(rest, i) == Older(c, i + 1);
      }
      FollowIsChain(blocks, a, rest, fuel - 1);
      assert blocks[c[0]].previous == Older(c, 0);
    }
  }

  lemma {:induction false} DistinctFit(c: seq<string>, s: set<string>)
    requires forall i, j :: 0 <= i < j < |c| ==> c[i] != c[j]
    requires forall h :: h in c ==> h in s
    ensures |c| <= |s|
  {
    if c != [] {
      DistinctFit(c[1..], s - {c[0]});
    }
  }

  /**
   * In every reachable ledger, following `previous` from the head of an account visits exactly
   * `blockCount` distinct blocks, all of that account and none missing, newest first, down to "0".
   */
  lemma AccountChain(env: Env, genesis: State, steps: seq<Step>, a: string)
    requires env.Valid() && Genesis(genesis)
    requires a in Run(env, genesis, steps).accounts
    ensures
      var st := Run(env, genesis, steps);
      IsChain(st, a, Follow(st.blocks, st.accounts[a].head, |st.blocks|))
  {
    var st := Run(env, genesis, steps);
    GenesisChains(env, genesis);
    RunKeepsChains(env, genesis, steps);
    var c :| IsChain(st, a, c);
    DistinctFit(c, st.blocks.Keys);
    assert "0" !in st.blocks;
    FollowIsChain(st.blocks, a, c, |st.blocks|);
  }

  /** The chains are disjoint and together are the block store. */
  lemma ChainsPartitionTheStore(env: Env, genesis: State, steps: seq<Step>, h: string)
    requires env.Valid() && Genesis(genesis)
    requires h in Run(env, genesis, steps).blocks
    ensures
      var st := Run(env, genesis, steps);
      var owner := st.blocks[h].account;
      && owner in st.accounts
      && forall a :: a in st.accounts ==>
           (h in Follow(st.blocks, st.accounts[a].head, |st.blocks|) <==> a == owner)
  {
    var st := Run(env, genesis, steps);
    GenesisChains(env, genesis);
    RunKeepsChains(env, genesis, steps);
    forall a | a in st.accounts
      ensures h in Follow(st.blocks, st.accounts[a].head, |st.blocks|) <==> a == st.blocks[h].account
    {
      AccountChain(env, genesis, steps, a);
    }
  }

  lemma SamePredecessorSameBlock(blocks: map<string, Block>, a: string, c: seq<string>, i: nat, j: nat)
    requires Linked(blocks, a, c) && "0" !in blocks
    requires forall i, j :: 0 <= i < j < |c| ==> c[i] != c[j]
    requires i < |c| && j < |c| && blocks[c[i]].previous == blocks[c[j]].previous
    ensures i == j
  {
    assert Older(c, i) == Older(c, j);
    if i + 1 < |c| && j + 1 < |c| {
      assert c[i + 1] == c[j + 1];
    }
  }

  /** No fork: two blocks of one account never share a predecessor. */
  lemma NoFork(env: Env, genesis: State, steps: seq<Step>, g: string, h: string)
    requires env.Valid() && Genesis(genesis)
    requires
      var st := Run(env, genesis, steps);
      && g in st.blocks && h in st.blocks
      && st.blocks[g].account == st.blocks[h].account
      && st.blocks[g].previous == st.blocks[h].previous
    ensures g == h
  {
    var st := Run(env, genesis, steps);
    GenesisChains(env, genesis);
    RunKeepsChains(env, genesis, steps);
    var a := st.blocks[g].account;
    var c :| IsChain(st, a, c);
    var i :| 0 <= i < |c| && c[i] == g;
    var j :| 0 <= j < |c| && c[j] == h;
    SamePredecessorSameBlock(st.blocks, a, c, i, j);
  }
}
