/**
 * Order-independence of the ledger: two nodes that have applied the same blocks agree,
 * whatever the order, the clocks, and the rejected or duplicate blocks in between.
 */
module LedgerConvergence {
  import opened Words
  import opened LedgerModel

  /** One call on the ledger: a block with the clock reading of the node, or a fee claim. */
  datatype Step = Submit(block: Block, now: nat) | ClaimFees

  ghost function Take(env: Env, st: State, step: Step): State {
    match step
    case Submit(b, now) => Process(env, st, b, now).0
    case ClaimFees => st.(accumulatedFees := 0)
  }

  ghost predicate Applies(env: Env, st: State, step: Step) {
    step.Submit? && Process(env, st, step.block, step.now).1.Applied?
  }

  ghost function Run(env: Env, st: State, steps: seq<Step>): State
    decreases |steps|
  {
    if steps == [] then st else Run(env, Take(env, st, steps[0]), steps[1..])
  }

  /** The blocks a run applied, in order. */
  ghost function AppliedBlocks(env: Env, st: State, steps: seq<Step>): seq<Block>
    decreases |steps|
  {
    if steps == [] then []
    else
      (if Applies(env, st, steps[0]) then [steps[0].block] else [])
      + AppliedBlocks(env, Take(env, st, steps[0]), steps[1..])
  }

  ghost function Fold(env: Env, st: State, bs: seq<Block>): State
    decreases |bs|
  {
    if bs == [] then st else Fold(env, Effect(env, st, bs[0]), bs[1..])
  }

  /** Every block is new when it is applied and extends the head of its account. */
  ghost predicate Extends(env: Env, st: State, bs: seq<Block>)
    decreases |bs|
  {
    bs == [] ||
    (&& env.hash(bs[0]) !in st.blocks
     && bs[0].previous == AccountOf(st, bs[0].account).head
     && Extends(env, Effect(env, st, bs[0]), bs[1..]))
  }

  /** A head is the genesis marker or the hash of a stored block. */
  ghost predicate HeadsStored(st: State) {
    forall a :: a in st.accounts ==> st.accounts[a].head == "0" || st.accounts[a].head in st.blocks
  }

  /** The fee pot has no influence on anything else. */
  lemma {:induction false} FeesAreOnlyCounted(env: Env, st: State, fees: u128, bs: seq<Block>)
    ensures Fold(env, st.(accumulatedFees := fees), bs).(accumulatedFees := 0)
         == Fold(env, st, bs).(accumulatedFees := 0)
    ensures Extends(env, st.(accumulatedFees := fees), bs) == Extends(env, st, bs)
    decreases |bs|
  {
    if bs != [] {
      var st1 := Effect(env, st, bs[0]);
      var fees1 := SatAdd(fees, FeeOf(bs[0]));
      assert Effect(env, st.(accumulatedFees := fees), bs[0]) == st1.(accumulatedFees := fees1);
      FeesAreOnlyCounted(env, st1, fees1, bs[1..]);
    }
  }

  lemma TakeCases(env: Env, st: State, step: Step)
    ensures Applies(env, st, step) ==>
              && Take(env, st, step) == Effect(env, st, step.block)
              && env.hash(step.block) !in st.blocks
              && step.block.previous == AccountOf(st, step.block.account).head
    ensures !Applies(env, st, step) && step.Submit? ==> Take(env, st, step) == st
  {
  }

  /** Putting one more block in front of a fold. */
  lemma FoldFront(env: Env, st: State, b: Block, rest: seq<Block>)
    requires env.hash(b) !in st.blocks && b.previous == AccountOf(st, b.account).head
    ensures Fold(env, st, [b] + rest) == Fold(env, Effect(env, st, b), rest)
    ensures Extends(env, st, [b] + rest) == Extends(env, Effect(env, st, b), rest)
  {
    assert ([b] + rest)[1..] == rest;
  }

  lemma {:induction false} RunIsFold(env: Env, st: State, steps: seq<Step>)
    ensures Extends(env, st, AppliedBlocks(env, st, steps))
    ensures Run(env, st, steps).(accumulatedFees := 0)
         == Fold(env, st, AppliedBlocks(env, st, steps)).(accumulatedFees := 0)
    ensures ClaimFees !in steps ==> Run(env, st, steps) == Fold(env, st, AppliedBlocks(env, st, steps))
    decreases |steps|
  {
    if steps != [] {
      var st' := Take(env, st, steps[0]);
      var rest := AppliedBlocks(env, st', steps[1..]);
      RunIsFold(env, st', steps[1..]);
      TakeCases(env, st, steps[0]);
      if Applies(env, st, steps[0]) {
        FoldFront(env, st, steps[0].block, rest);
      } else {
        assert AppliedBlocks(env, st, steps) == rest;
        if steps[0].ClaimFees? {
          FeesAreOnlyCounted(env, st, 0, rest);
        }
      }
    }
  }

  /** Effects on different accounts commute. */
  lemma EffectsCommute(env: Env, st: State, b: Block, c: Block)
    requires b.account != c.account
    requires env.hash(b) != env.hash(c)
    ensures Effect(env, Effect(env, st, b), c) == Effect(env, Effect(env, st, c), b)
  {
    var bc := Effect(env, Effect(env, st, b), c);
    var cb := Effect(env, Effect(env, st, c), b);
    assert bc.accounts == cb.accounts;
    assert bc.blocks == cb.blocks;
    assert bc.claimedSends == cb.claimedSends;
  }

  /** What later blocks of a run can rely on: stored blocks stay, and their hashes are not reused. */
  lemma {:induction false} LaterBlockIsNew(env: Env, st: State, bs: seq<Block>, i: nat)
    requires Extends(env, st, bs) && i < |bs|
    ensures env.hash(bs[i]) !in st.blocks
    ensures i > 0 ==> env.hash(bs[i]) != env.hash(bs[0])
    decreases i
  {
    if i > 0 {
      LaterBlockIsNew(env, Effect(env, st, bs[0]), bs[1..], i - 1);
    }
  }

  /** Once the head of an account lies outside `old`, it never returns there. */
  lemma {:induction false} HeadLeavesForGood(env: Env, st: State, bs: seq<Block>, i: nat, past: set<string>)
    requires env.Valid() && Extends(env, st, bs) && i < |bs|
    requires past <= st.blocks.Keys
    requires AccountOf(st, bs[i].account).head != "0" && AccountOf(st, bs[i].account).head !in past
    ensures bs[i].previous != "0" && bs[i].previous !in past
    decreases i
  {
    if i > 0 {
      HeadLeavesForGood(env, Effect(env, st, bs[0]), bs[1..], i - 1, past);
    }
  }

  /** A block extending the current head comes before every other block of its account. */
  lemma {:induction false} NextBlockComesFirst(env: Env, st: State, bs: seq<Block>, i: nat, j: nat)
    requires env.Valid() && HeadsStored(st) && Extends(env, st, bs)
    requires j < i < |bs|
    requires bs[i].previous == AccountOf(st, bs[i].account).head
    ensures bs[j].account != bs[i].account
    decreases j
  {
    var st1 := Effect(env, st, bs[0]);
    if bs[0].account == bs[i].account {
      HeadLeavesForGood(env, st1, bs[1..], i - 1, st.blocks.Keys);
    } else if j > 0 {
      NextBlockComesFirst(env, st1, bs[1..], i - 1, j - 1);
    }
  }

  /** The block at `i` can be moved to the front when no earlier block is of its account. */
  lemma {:induction false} MoveToFront(env: Env, st: State, bs: seq<Block>, i: nat)
    requires i < |bs| && Extends(env, st, bs)
    requires forall j :: 0 <= j < i ==> bs[j].account != bs[i].account
    ensures Fold(env, st, bs) == Fold(env, Effect(env, st, bs[i]), bs[..i] + bs[i+1..])
    ensures Extends(env, Effect(env, st, bs[i]), bs[..i] + bs[i+1..])
    decreases i
  {
    var b := bs[i];
    if i == 0 {
      assert bs[..0] + bs[1..] == bs[1..];
    } else {
      var st1 := Effect(env, st, bs[0]);
      assert bs[1..][i - 1] == b;
      forall j | 0 <= j < i - 1 ensures bs[1..][j].account != b.account {
        assert bs[1..][j] == bs[j + 1];
      }
      MoveToFront(env, st1, bs[1..], i - 1);
      var moved := bs[..i] + bs[i+1..];
      assert moved[1..] == bs[1..][..i-1] + bs[1..][i..];
      assert moved[0] == bs[0];
      LaterBlockIsNew(env, st, bs, i);
      EffectsCommute(env, st, bs[0], b);
    }
  }

  lemma EffectKeepsHeadsStored(env: Env, st: State, b: Block)
    requires HeadsStored(st)
    ensures HeadsStored(Effect(env, st, b))
  {
  }

  lemma WithoutOne<T>(xs: seq<T>, ys: seq<T>, i: nat)
    requires xs != [] && i < |ys| && ys[i] == xs[0]
    requires multiset(xs) == multiset(ys)
    ensures multiset(xs[1..]) == multiset(ys[..i] + ys[i+1..])
  {
    assert xs == [xs[0]] + xs[1..];
    assert ys == ys[..i] + [ys[i]] + ys[i+1..];
    assert multiset(xs[1..]) == multiset(xs) - multiset{xs[0]};
    assert multiset(ys[..i] + ys[i+1..]) == multiset(ys) - multiset{ys[i]};
  }

  /** Two chain-respecting orders of the same blocks have the same effect. */
  lemma {:induction false} OrdersAgree(env: Env, st: State, bs: seq<Block>, cs: seq<Block>)
    requires env.Valid() && HeadsStored(st)
    requires Extends(env, st, bs) && Extends(env, st, cs)
    requires multiset(bs) == multiset(cs)
    ensures Fold(env, st, bs) == Fold(env, st, cs)
    decreases |bs|
  {
    if bs == [] {
      assert |multiset(cs)| == 0;
    } else {
      var b := bs[0];
      assert b in multiset(cs);
      var i :| 0 <= i < |cs| && cs[i] == b;
      forall j | 0 <= j < i ensures cs[j].account != b.account {
        NextBlockComesFirst(env, st, cs, i, j);
      }
      MoveToFront(env, st, cs, i);
      WithoutOne(bs, cs, i);
      EffectKeepsHeadsStored(env, st, b);
      OrdersAgree(env, Effect(env, st, b), bs[1..], cs[..i] + cs[i+1..]);
    }
  }

  /** No block is applied twice in one run. */
  lemma AppliedOnce(env: Env, st: State, bs: seq<Block>, i: nat, j: nat)
    requires Extends(env, st, bs) && i < j < |bs|
    ensures env.hash(bs[i]) != env.hash(bs[j])
    decreases i
  {
    if i == 0 {
      LaterBlockIsNew(env, st, bs, j);
    } else {
      AppliedOnce(env, Effect(env, st, bs[0]), bs[1..], i - 1, j - 1);
    }
  }

  lemma {:induction false} SameElementsSameMultiset<T>(xs: seq<T>, ys: seq<T>)
    requires forall i, j :: 0 <= i < j < |xs| ==> xs[i] != xs[j]
    requires forall i, j :: 0 <= i < j < |ys| ==> ys[i] != ys[j]
    requires forall x :: x in xs <==> x in ys
    ensures multiset(xs) == multiset(ys)
  {
    MultiplicityOne(xs);
    MultiplicityOne(ys);
    forall x ensures multiset(xs)[x] == multiset(ys)[x] {
      assert x in multiset(xs) <==> x in xs;
      assert x in multiset(ys) <==> x in ys;
    }
  }

  lemma {:induction false} MultiplicityOne<T>(xs: seq<T>)
    requires forall i, j :: 0 <= i < j < |xs| ==> xs[i] != xs[j]
    ensures forall x :: x in xs ==> multiset(xs)[x] == 1
  {
    if xs != [] {
      var rest := xs[1..];
      assert xs == [xs[0]] + rest;
      MultiplicityOne(rest);
      assert xs[0] !in rest;
      assert multiset(xs) == multiset{xs[0]} + multiset(rest);
    }
  }

  lemma SameBlocksSameFold(env: Env, st: State, bs: seq<Block>, cs: seq<Block>)
    requires env.Valid() && HeadsStored(st)
    requires Extends(env, st, bs) && Extends(env, st, cs)
    requires forall b :: b in bs <==> b in cs
    ensures Fold(env, st, bs) == Fold(env, st, cs)
  {
    forall i, j | 0 <= i < j < |bs| ensures bs[i] != bs[j] { AppliedOnce(env, st, bs, i, j); }
    forall i, j | 0 <= i < j < |cs| ensures cs[i] != cs[j] { AppliedOnce(env, st, cs, i, j); }
    SameElementsSameMultiset(bs, cs);
    OrdersAgree(env, st, bs, cs);
  }

  /**
   * Convergence: two nodes that start from the same ledger and have applied the same set of
   * blocks agree on everything but the fee pot, and without fee claims on that too. The runs
   * may differ in order, in clock readings, and in rejected and duplicate blocks.
   */
  lemma Convergence(env: Env, st: State, steps: seq<Step>, steps': seq<Step>)
    requires env.Valid() && HeadsStored(st)
    requires forall b :: b in AppliedBlocks(env, st, steps) <==> b in AppliedBlocks(env, st, steps')
    ensures Run(env, st, steps).(accumulatedFees := 0) == Run(env, st, steps').(accumulatedFees := 0)
    ensures ClaimFees !in steps && ClaimFees !in steps' ==> Run(env, st, steps) == Run(env, st, steps')
  {
    RunIsFold(env, st, steps);
    RunIsFold(env, st, steps');
    SameBlocksSameFold(env, st, AppliedBlocks(env, st, steps), AppliedBlocks(env, st, steps'));
  }

  /** The starting point of a network satisfies what `Convergence` asks for. */
  lemma GenesisConverges(env: Env, st: State, steps: seq<Step>, steps': seq<Step>)
    requires env.Valid() && Genesis(st)
    requires ClaimFees !in steps && ClaimFees !in steps'
    requires forall b :: b in AppliedBlocks(env, st, steps) <==> b in AppliedBlocks(env, st, steps')
    ensures Run(env, st, steps) == Run(env, st, steps')
  {
    Convergence(env, st, steps, steps');
  }
}
