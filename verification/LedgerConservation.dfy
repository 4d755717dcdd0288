/** Conservation of value, and each Send credited at most once. */
module LedgerConservation {
  import opened Words
  import opened MapSums
  import opened LedgerModel
  import opened LedgerConvergence
  import opened LedgerChains

  // ---------------------------------------------------------------- where the value is

  ghost function Balances(st: State): map<string, nat> {
    map a | a in st.accounts :: st.accounts[a].balance as nat
  }

  /** Amounts of Sends nobody has received yet. */
  ghost function InFlight(st: State): map<string, nat> {
    map h | h in st.blocks ::
      if st.blocks[h].blockType.Send? && h !in st.claimedSends then st.blocks[h].amount as nat else 0
  }

  /** Amounts handed to contracts. */
  ghost function ToContracts(st: State): map<string, nat> {
    map h | h in st.blocks ::
      if st.blocks[h].blockType.ContractDeploy? || st.blocks[h].blockType.ContractCall?
      then st.blocks[h].amount as nat else 0
  }

  /** A ledger together with what has left it: fees claimed so far, and stake slashed so far. */
  datatype Books = Books(st: State, feesClaimed: nat, slashed: nat)

  ghost function Total(bk: Books): nat {
    Sum(Balances(bk.st)) + bk.st.remainingSupply + Sum(InFlight(bk.st)) + bk.st.accumulatedFees
    + bk.feesClaimed + Sum(ToContracts(bk.st)) + bk.slashed
  }

  ghost function Keep(env: Env, bk: Books, step: Step): Books {
    Books(
      Take(env, bk.st, step),
      bk.feesClaimed + (if step.ClaimFees? then bk.st.accumulatedFees else 0),
      bk.slashed + (if Applies(env, bk.st, step) && step.block.blockType.Slash?
                    then Min(step.block.amount, AccountOf(bk.st, step.block.account).balance) else 0))
  }

  ghost function KeepRun(env: Env, bk: Books, steps: seq<Step>): Books
    decreases |steps|
  {
    if steps == [] then bk else KeepRun(env, Keep(env, bk, steps[0]), steps[1..])
  }

  // ---------------------------------------------------------------- receives

  /** Every Receive claims its own Send, and exactly the Sends so claimed are marked claimed. */
  ghost predicate ReceivesOk(st: State) {
    && (forall h :: h in st.blocks && st.blocks[h].blockType.Receive? ==>
          var r := st.blocks[h];
          && r.link in st.blocks
          && st.blocks[r.link].blockType.Send?
          && st.blocks[r.link].link == r.account
          && st.blocks[r.link].amount == r.amount
          && r.link in st.claimedSends)
    && (forall g, h :: (g in st.blocks && h in st.blocks && g != h
                        && st.blocks[g].blockType.Receive? && st.blocks[h].blockType.Receive?) ==>
          st.blocks[g].link != st.blocks[h].link)
    && (forall l :: l in st.claimedSends ==>
          exists h :: h in st.blocks && st.blocks[h].blockType.Receive? && st.blocks[h].link == l)
  }

  lemma AcceptedKeepsReceives(env: Env, st: State, b: Block, now: nat)
    requires ReceivesOk(st) && Accepts(env, st, b, now)
    ensures ReceivesOk(Effect(env, st, b))
  {
    var st' := Effect(env, st, b);
    var h0 := env.hash(b);
    assert st'.blocks[h0] == b;
    forall l | l in st'.claimedSends
      ensures exists h :: h in st'.blocks && st'.blocks[h].blockType.Receive? && st'.blocks[h].link == l
    {
      if l in st.claimedSends {
        var h :| h in st.blocks && st.blocks[h].blockType.Receive? && st.blocks[h].link == l;
        assert h in st'.blocks && st'.blocks[h] == st.blocks[h];
      } else {
        assert h0 in st'.blocks && st'.blocks[h0].link == l;
      }
    }
  }

  // ---------------------------------------------------------------- one accepted block

  lemma BalancesAfter(env: Env, st: State, b: Block)
    ensures Balances(Effect(env, st, b)) == Balances(st)[b.account := NewBalance(AccountOf(st, b.account).balance, b)]
  {
  }

  lemma ToContractsAfter(env: Env, st: State, b: Block)
    requires env.hash(b) !in st.blocks
    ensures Sum(ToContracts(Effect(env, st, b))) ==
            Sum(ToContracts(st)) + (if b.blockType.ContractDeploy? || b.blockType.ContractCall? then b.amount else 0)
  {
    var v: nat := if b.blockType.ContractDeploy? || b.blockType.ContractCall? then b.amount else 0;
    assert ToContracts(Effect(env, st, b)) == ToContracts(st)[env.hash(b) := v];
    SumUpdate(ToContracts(st), env.hash(b), v);
  }

  lemma InFlightAfterReceive(env: Env, st: State, b: Block)
    requires ReceivesOk(st) && env.hash(b) !in st.blocks
    requires b.blockType.Receive? && ReceiveError(st, b).None?
    ensures Sum(InFlight(Effect(env, st, b))) == Sum(InFlight(st)) - b.amount
  {
    var st' := Effect(env, st, b);
    var h := env.hash(b);
    assert h !in st'.claimedSends;
    assert InFlight(st') == InFlight(st)[b.link := 0][h := 0];
    SumUpdate(InFlight(st), b.link, 0);
    SumUpdate(InFlight(st)[b.link := 0], h, 0);
  }

  lemma InFlightAfterOther(env: Env, st: State, b: Block)
    requires ReceivesOk(st) && env.hash(b) !in st.blocks && !b.blockType.Receive?
    ensures Sum(InFlight(Effect(env, st, b))) == Sum(InFlight(st)) + (if b.blockType.Send? then b.amount else 0)
  {
    var st' := Effect(env, st, b);
    var h := env.hash(b);
    var v: nat := if b.blockType.Send? then b.amount else 0;
    assert h !in st'.claimedSends;
    assert InFlight(st') == InFlight(st)[h := v];
    SumUpdate(InFlight(st), h, v);
  }

  lemma InFlightAfter(env: Env, st: State, b: Block)
    requires ReceivesOk(st)
    requires env.hash(b) !in st.blocks
    requires b.blockType.Receive? ==> ReceiveError(st, b).None?
    ensures Sum(InFlight(Effect(env, st, b))) ==
            Sum(InFlight(st)) + (if b.blockType.Send? then b.amount else 0)
            - (if b.blockType.Receive? then b.amount else 0)
  {
    if b.blockType.Receive? { InFlightAfterReceive(env, st, b); } else { InFlightAfterOther(env, st, b); }
  }

  /** No addition saturates and no subtraction truncates while the total fits a u128. */
  ghost predicate Exact(st: State, b: Block) {
    var balance := AccountOf(st, b.account).balance;
    && balance + Credit(b) <= U128_MAX
    && st.accumulatedFees + FeeOf(b) <= U128_MAX
    && (PaysFee(b) ==> b.amount + b.fee <= balance)
    && (b.blockType.Mint? ==> b.amount <= st.remainingSupply)
  }

  lemma AcceptedIsExact(env: Env, bk: Books, b: Block, now: nat)
    requires ReceivesOk(bk.st) && Accepts(env, bk.st, b, now)
    requires Total(bk) <= U128_MAX
    ensures Exact(bk.st, b)
  {
    var st := bk.st;
    if b.account in st.accounts {
      SumAtLeastEntry(Balances(st), b.account);
    }
    if b.blockType.Receive? {
      SumAtLeastEntry(InFlight(st), b.link);
    }
  }

  /** The amounts an exact block moves between the places value can be. */
  lemma MovedAmountsCancel(env: Env, st: State, b: Block)
    requires Exact(st, b)
    ensures
      var balance := AccountOf(st, b.account).balance;
      var st' := PotEffect(env, st, b);
      var moved: int := NewBalance(balance, b) - balance;
      && moved + st'.remainingSupply + st'.accumulatedFees
         + (if b.blockType.Send? || b.blockType.ContractDeploy? || b.blockType.ContractCall? then b.amount else 0)
         - (if b.blockType.Receive? then b.amount else 0)
         + (if b.blockType.Slash? then Min(b.amount, balance) else 0)
         == st.remainingSupply + st.accumulatedFees
  {
  }

  lemma AcceptedConserves(env: Env, bk: Books, b: Block, now: nat)
    requires ReceivesOk(bk.st) && Accepts(env, bk.st, b, now)
    requires Total(bk) <= U128_MAX
    ensures Total(Keep(env, bk, Submit(b, now))) == Total(bk)
  {
    var st := bk.st;
    var balance := AccountOf(st, b.account).balance;
    var st' := Effect(env, st, b);
    assert Keep(env, bk, Submit(b, now)) ==
      Books(st', bk.feesClaimed, bk.slashed + if b.blockType.Slash? then Min(b.amount, balance) else 0) by {
      AppliesIsAccepts(env, st, Submit(b, now));
      TakeCases(env, st, Submit(b, now));
    }
    AcceptedIsExact(env, bk, b, now);
    MovedAmountsCancel(env, st, b);
    assert Sum(Balances(st')) == Sum(Balances(st)) + NewBalance(balance, b) - balance by {
      BalancesAfter(env, st, b);
      SumUpdate(Balances(st), b.account, NewBalance(balance, b));
    }
    ToContractsAfter(env, st, b);
    assert b.blockType.Receive? ==> ReceiveError(st, b).None?;
    InFlightAfter(env, st, b);
  }

  // ---------------------------------------------------------------- runs

  ghost predicate BooksOk(bk: Books) {
    ReceivesOk(bk.st) && Total(bk) <= U128_MAX
  }

  lemma StepConserves(env: Env, bk: Books, step: Step)
    requires BooksOk(bk)
    ensures BooksOk(Keep(env, bk, step)) && Total(Keep(env, bk, step)) == Total(bk)
  {
    AppliesIsAccepts(env, bk.st, step);
    TakeCases(env, bk.st, step);
    if Applies(env, bk.st, step) {
      AcceptedKeepsReceives(env, bk.st, step.block, step.now);
      AcceptedConserves(env, bk, step.block, step.now);
    } else if step.ClaimFees? {
      var st' := Take(env, bk.st, step);
      assert Balances(st') == Balances(bk.st) && InFlight(st') == InFlight(bk.st);
      assert ToContracts(st') == ToContracts(bk.st);
    }
  }

  lemma {:induction false} RunConserves(env: Env, bk: Books, steps: seq<Step>)
    requires BooksOk(bk)
    ensures BooksOk(KeepRun(env, bk, steps)) && Total(KeepRun(env, bk, steps)) == Total(bk)
    ensures KeepRun(env, bk, steps).st == Run(env, bk.st, steps)
    decreases |steps|
  {
    if steps != [] {
      StepConserves(env, bk, steps[0]);
      RunConserves(env, Keep(env, bk, steps[0]), steps[1..]);
    }
  }

  ghost predicate Funded(genesis: State) {
    Genesis(genesis) && Sum(Balances(genesis)) + genesis.remainingSupply <= U128_MAX
  }

  /**
   * Conservation: over every run, balances, unminted supply, Sends in flight, fees (kept or
   * claimed), contract funds and slashed stake add up to what the genesis ledger held.
   */
  lemma Conservation(env: Env, genesis: State, steps: seq<Step>)
    requires Funded(genesis)
    ensures
      var bk := KeepRun(env, Books(genesis, 0, 0), steps);
      && bk.st == Run(env, genesis, steps)
      && Sum(Balances(bk.st)) + bk.st.remainingSupply + Sum(InFlight(bk.st))
         + bk.st.accumulatedFees + bk.feesClaimed + Sum(ToContracts(bk.st)) + bk.slashed
         == Sum(Balances(genesis)) + genesis.remainingSupply
  {
    SumZero(InFlight(genesis));
    SumZero(ToContracts(genesis));
    RunConserves(env, Books(genesis, 0, 0), steps);
  }

  /** In a reachable ledger an accepted block changes every amount by exactly what it says. */
  lemma NothingSaturates(env: Env, genesis: State, steps: seq<Step>, b: Block, now: nat)
    requires Funded(genesis)
    requires Accepts(env, Run(env, genesis, steps), b, now)
    ensures Exact(Run(env, genesis, steps), b)
  {
    SumZero(InFlight(genesis));
    SumZero(ToContracts(genesis));
    RunConserves(env, Books(genesis, 0, 0), steps);
    AcceptedIsExact(env, KeepRun(env, Books(genesis, 0, 0), steps), b, now);
  }

  /** In a reachable ledger every Receive credits the amount of a Send to its recipient, each Send once. */
  lemma EachSendCreditedOnce(env: Env, genesis: State, steps: seq<Step>, g: string, h: string)
    requires Funded(genesis)
    requires
      var st := Run(env, genesis, steps);
      && g in st.blocks && st.blocks[g].blockType.Receive?
      && h in st.blocks && st.blocks[h].blockType.Receive?
      && st.blocks[g].link == st.blocks[h].link
    ensures
      var st := Run(env, genesis, steps);
      var send := st.blocks[h].link;
      && g == h
      && send in st.blocks && st.blocks[send].blockType.Send?
      && st.blocks[send].link == st.blocks[h].account && st.blocks[send].amount == st.blocks[h].amount
  {
    SumZero(InFlight(genesis));
    SumZero(ToContracts(genesis));
    RunConserves(env, Books(genesis, 0, 0), steps);
  }
}
