/** Epoch payouts: the pool as a state machine, its methods, and what holds over every run. */
module RewardPool {
  import opened Words
  import opened MapSums
  import opened Isqrt
  import opened Rewards

  // ---------------------------------------------------------------- splitting a budget

  /** `checked_mul`, then the quotient, or 0 on overflow. */
  function Share(budget: nat, weight: nat, total: nat): nat
    requires total > 0
  {
    if budget * weight <= U128_MAX then budget * weight / total else 0
  }

  ghost function Weights(vs: Validators, epoch: nat): map<string, nat> {
    map a | a in vs && vs[a].Eligible(epoch) && vs[a].Weight() > 0 :: vs[a].Weight()
  }

  ghost function Shares(ws: map<string, nat>, budget: nat, total: nat): map<string, nat>
    requires total > 0
  {
    map a | a in ws :: Share(budget, ws[a], total)
  }

  lemma WeightBound(v: Validator)
    ensures v.Weight() < 0x4000_0000_0000
  {
    RootAtMost(v.stake / CIL_PER_LOS, 0x3FFF_FFFF_FFFF);
  }

  lemma WeightPositive(v: Validator)
    requires v.stake >= MIN_VALIDATOR_STAKE_CIL
    ensures v.Weight() > 0
  {
    RootPositive(v.stake / CIL_PER_LOS);
  }

  /** `checked_mul` never fails: a budget is at most the initial rate, a weight below 2^46. */
  lemma ShareNeverOverflows(budget: nat, v: Validator, total: nat)
    requires budget <= RATE_INITIAL_CIL && total > 0
    ensures budget * v.Weight() <= U128_MAX
    ensures Share(budget, v.Weight(), total) == budget * v.Weight() / total
  {
    WeightBound(v);
    MulMonotone(budget, v.Weight(), 0x4000_0000_0000);
    MulMonotone(0x4000_0000_0000, budget, RATE_INITIAL_CIL);
  }

  /** A larger stake never earns less. */
  lemma ShareMonotone(budget: nat, v: Validator, w: Validator, total: nat)
    requires budget <= RATE_INITIAL_CIL && total > 0 && v.stake <= w.stake
    ensures Share(budget, v.Weight(), total) <= Share(budget, w.Weight(), total)
  {
    ShareNeverOverflows(budget, v, total);
    ShareNeverOverflows(budget, w, total);
    RootMonotone(v.stake / CIL_PER_LOS, w.stake / CIL_PER_LOS);
    MulMonotone(budget, v.Weight(), w.Weight());
    DivMonotone(budget * v.Weight(), budget * w.Weight(), total);
  }

  lemma DivMonotone(a: nat, b: nat, d: nat)
    requires a <= b && d > 0
    ensures a / d <= b / d
  {
    QuotientBounds(a, d);
    QuotientBounds(b, d);
    if b / d < a / d { MulMonotone(d, b / d + 1, a / d); }
  }

  /** `sum` is `budget * weights / total` but for a loss of less than one unit for each of `n` floors. */
  ghost predicate Near(sum: nat, total: nat, budget: nat, weights: nat, n: nat)
    requires total > 0
  {
    sum * total <= budget * weights <= sum * total + n * (total - 1)
  }

  ghost predicate ProductsFit(ws: map<string, nat>, budget: nat) {
    forall a :: a in ws ==> budget * ws[a] <= U128_MAX
  }

  lemma SharesWithout(ws: map<string, nat>, budget: nat, total: nat, a: string)
    requires total > 0 && a in ws
    ensures Sum(Shares(ws, budget, total)) == Share(budget, ws[a], total) + Sum(Shares(ws - {a}, budget, total))
  {
    SumRemove(Shares(ws, budget, total), a);
    assert Shares(ws, budget, total) - {a} == Shares(ws - {a}, budget, total);
  }

  lemma NearNothing(total: nat, budget: nat)
    requires total > 0
    ensures Near(0, total, budget, 0, 0)
  {
  }

  lemma {:induction false} SharesNear(ws: map<string, nat>, budget: nat, total: nat)
    requires total > 0 && ProductsFit(ws, budget)
    ensures Near(Sum(Shares(ws, budget, total)), total, budget, Sum(ws), |ws|)
    decreases |ws|
  {
    if ws == map[] {
      assert Shares(ws, budget, total) == map[];
      NearNothing(total, budget);
    } else {
      var a :| a in ws;
      var ws' := ws - {a};
      SumRemove(ws, a);
      SharesWithout(ws, budget, total, a);
      assert |ws'| == |ws| - 1 by { assert ws'.Keys == ws.Keys - {a}; }
      SharesNear(ws', budget, total);
      OneShareMore(Sum(Shares(ws', budget, total)), total, budget, Sum(ws'), ws[a], |ws'|);
    }
  }

  lemma OneShareMore(sum: nat, total: nat, budget: nat, weights: nat, weight: nat, n: nat)
    requires total > 0 && Near(sum, total, budget, weights, n) && budget * weight <= U128_MAX
    ensures Near(Share(budget, weight, total) + sum, total, budget, weight + weights, n + 1)
  {
    var x := budget * weight;
    var share := x / total;
    QuotientBounds(x, total);
    assert (share + 1) * total == share * total + total;
    assert (share + sum) * total == share * total + sum * total;
    assert budget * (weight + weights) == x + budget * weights;
    assert (n + 1) * (total - 1) == n * (total - 1) + (total - 1);
  }

  /** The dust bound: shares add up to at most the budget, and to more than the budget less one CIL a validator. */
  lemma SharesNearBudget(ws: map<string, nat>, budget: nat)
    requires Sum(ws) > 0 && ProductsFit(ws, budget)
    ensures Sum(Shares(ws, budget, Sum(ws))) <= budget
    ensures budget < Sum(Shares(ws, budget, Sum(ws))) + |ws|
  {
    var total, s, n := Sum(ws), Sum(Shares(ws, budget, Sum(ws))), |ws|;
    SharesNear(ws, budget, total);
    DustArithmetic(budget, total, s, n);
  }

  lemma DustArithmetic(budget: nat, total: nat, s: nat, n: nat)
    requires total > 0 && n > 0 && Near(s, total, budget, total, n)
    ensures s <= budget < s + n
  {
    assert (budget + 1) * total == budget * total + total;
    assert (s + n) * total == s * total + n * total;
    assert n * (total - 1) == n * total - n;
    if budget < s { MulMonotone(total, budget + 1, s); }
    if s + n <= budget { MulMonotone(total, s + n, budget); }
  }

  // ---------------------------------------------------------------- the state machine

  ghost function NewPool(genesis: nat, duration: nat): Pool {
    Pool(POOL_CIL, 0, genesis, 0, 0, map[], duration)
  }

  ghost function Advance(p: Pool): Pool {
    p.(epoch := p.epoch + 1,
       epochStart := p.epochStart + p.epochDuration,
       halvings := (p.epoch + 1) / HALVING_INTERVAL,
       validators := map a | a in p.validators ::
         p.validators[a].(lastUptime := p.validators[a].UptimePct(), heartbeats := 0, expected := 0))
  }

  ghost function Budget(p: Pool): nat {
    Min(EpochRate(p.epoch), p.remaining)
  }

  /** What each eligible validator earns this epoch. */
  ghost function Payouts(p: Pool): map<string, nat> {
    var ws := Weights(p.validators, p.epoch);
    if Budget(p) == 0 || Sum(ws) == 0 then map[] else Shares(ws, Budget(p), Sum(ws))
  }

  ghost function Credited(vs: Validators, pay: map<string, nat>): Validators {
    map a | a in vs :: if a in pay then vs[a].(cumulative := vs[a].cumulative + pay[a]) else vs[a]
  }

  /** The pool with the payouts made. */
  ghost function Paid(p: Pool): Pool {
    var d := Sum(Payouts(p));
    p.(remaining := Monus(p.remaining, d),
       distributed := p.distributed + d,
       validators := Credited(p.validators, Payouts(p)))
  }

  ghost function Distribute(p: Pool): Pool {
    Advance(Paid(p))
  }

  ghost function CatchUp(p: Pool, now: nat): Pool {
    var elapsed := if now >= p.epochStart then now - p.epochStart else 0;
    if p.epochDuration == 0 || elapsed / p.epochDuration <= 1 then p
    else
      var skip := elapsed / p.epochDuration - 1;
      p.(epoch := p.epoch + skip,
         epochStart := p.epochStart + skip * p.epochDuration,
         halvings := (p.epoch + skip) / HALVING_INTERVAL,
         validators := map a | a in p.validators :: p.validators[a].(heartbeats := 0, expected := 0))
  }

  function Registered(vs: Validators, epoch: nat, a: string, isGenesis: bool, stake: u128): Validators {
    vs[a := if a in vs then vs[a].(stake := stake, isGenesis := isGenesis)
            else Validator(epoch, 0, 0, 0, isGenesis, stake, 0)]
  }

  function ExpectedAfter(v: Validator, full: nat): nat {
    if v.heartbeats == 0 then full
    else if v.expected == 0 && full > 0 then Min(v.heartbeats, full)
    else full
  }

  datatype Op =
    | Register(address: string, isGenesis: bool, stake: u128)
    | Unregister(address: string)
    | UpdateStake(address: string, stake: u128)
    | Heartbeat(address: string)
    | SetExpected(interval: nat)
    | DistributeRewards
    | AdvanceOnly
    | CatchUpTo(now: nat)

  ghost function Apply(p: Pool, op: Op): Pool {
    var vs := p.validators;
    match op
    case Register(a, g, stake) => p.(validators := Registered(vs, p.epoch, a, g, stake))
    case Unregister(a) => p.(validators := vs - {a})
    case UpdateStake(a, stake) => if a in vs then p.(validators := vs[a := vs[a].(stake := stake)]) else p
    case Heartbeat(a) => if a in vs then p.(validators := vs[a := vs[a].(heartbeats := vs[a].heartbeats + 1)]) else p
    case SetExpected(interval) =>
      var full := if interval > 0 then p.epochDuration / interval else 0;
      p.(validators := map a | a in vs :: vs[a].(expected := ExpectedAfter(vs[a], full)))
    case DistributeRewards => Distribute(p)
    case AdvanceOnly => Advance(p)
    case CatchUpTo(now) => CatchUp(p, now)
  }

  ghost function Run(p: Pool, ops: seq<Op>): Pool
    decreases |ops|
  {
    if ops == [] then p else Run(Apply(p, ops[0]), ops[1..])
  }

  ghost function Earned(vs: Validators): map<string, nat> {
    map a | a in vs :: vs[a].cumulative
  }

  /** What every operation keeps. */
  ghost predicate Inv(p: Pool) {
    && p.remaining + p.distributed == POOL_CIL
    && p.distributed <= Emitted(p.epoch)
    && p.halvings == p.epoch / HALVING_INTERVAL
    && Sum(Earned(p.validators)) <= p.distributed
  }

  lemma PayoutsNearBudget(p: Pool)
    requires Sum(Weights(p.validators, p.epoch)) > 0 && Budget(p) > 0
    ensures Sum(Payouts(p)) <= Budget(p) < Sum(Payouts(p)) + |Weights(p.validators, p.epoch)|
  {
    var ws := Weights(p.validators, p.epoch);
    RateAtMostInitial(p.epoch);
    forall a | a in ws ensures Budget(p) * ws[a] <= U128_MAX {
      ShareNeverOverflows(Budget(p), p.validators[a], Sum(ws));
    }
    SharesNearBudget(ws, Budget(p));
  }

  lemma RateAtMostInitial(epoch: nat)
    ensures EpochRate(epoch) <= RATE_INITIAL_CIL
  {
    Halving(epoch / HALVING_INTERVAL);
  }

  lemma PayoutsAtMostBudget(p: Pool)
    ensures Sum(Payouts(p)) <= Budget(p)
  {
    if Sum(Weights(p.validators, p.epoch)) > 0 && Budget(p) > 0 {
      PayoutsNearBudget(p);
    }
  }

  /** Crediting adds what is paid out, whoever it is paid to. */
  lemma EarnedAfterCredit(vs: Validators, pay: map<string, nat>)
    requires pay.Keys <= vs.Keys
    ensures Sum(Earned(Credited(vs, pay))) == Sum(Earned(vs)) + Sum(pay)
  {
    var padded: map<string, nat> := map a | a in vs :: if a in pay then pay[a] else 0;
    SumWithZeros(pay, padded);
    SumOfSums(Earned(Credited(vs, pay)), Earned(vs), padded);
  }

  lemma {:induction false} EmittedMonotone(i: nat, j: nat)
    requires i <= j
    ensures Emitted(i) <= Emitted(j)
    decreases j
  {
    if i < j {
      EmittedMonotone(i, j - 1);
    }
  }

  lemma DistributeKeepsInv(p: Pool)
    requires Inv(p)
    ensures Inv(Distribute(p))
  {
    PayoutsAtMostBudget(p);
    EarnedAfterCredit(p.validators, Payouts(p));
    assert Earned(Distribute(p).validators) == Earned(Credited(p.validators, Payouts(p)));
    assert Emitted(p.epoch + 1) == Emitted(p.epoch) + EpochRate(p.epoch);
  }

  lemma RegisterKeepsEarned(vs: Validators, epoch: nat, a: string, isGenesis: bool, stake: u128)
    ensures Sum(Earned(Registered(vs, epoch, a, isGenesis, stake))) == Sum(Earned(vs))
  {
    var c := if a in vs then vs[a].cumulative else 0;
    SumUpdate(Earned(vs), a, c);
    assert Earned(Registered(vs, epoch, a, isGenesis, stake)) == Earned(vs)[a := c];
  }

  lemma UnregisterShrinksEarned(vs: Validators, a: string)
    ensures Sum(Earned(vs - {a})) <= Sum(Earned(vs))
  {
    assert Earned(vs - {a}) == Earned(vs) - {a};
    if a in vs { SumRemove(Earned(vs), a); } else { assert Earned(vs) - {a} == Earned(vs); }
  }

  lemma ApplyKeepsInv(p: Pool, op: Op)
    requires Inv(p)
    ensures Inv(Apply(p, op))
  {
    var vs, p' := p.validators, Apply(p, op);
    match op {
      case Register(a, g, stake) => RegisterKeepsEarned(vs, p.epoch, a, g, stake);
      case Unregister(a) => UnregisterShrinksEarned(vs, a);
      case DistributeRewards => DistributeKeepsInv(p);
      case _ =>
        assert Earned(p'.validators) == Earned(vs);
        EmittedMonotone(p.epoch, p'.epoch);
    }
  }

  lemma {:induction false} RunKeepsInv(p: Pool, ops: seq<Op>)
    requires Inv(p)
    ensures Inv(Run(p, ops))
    decreases |ops|
  {
    if ops != [] {
      ApplyKeepsInv(p, ops[0]);
      RunKeepsInv(Apply(p, ops[0]), ops[1..]);
    }
  }

  /**
   * Emission bound, over every run from a new pool: less than 480,000 LOS is ever distributed, the
   * rate is never capped by what remains, the pool is conserved, halvings follow the epoch, and
   * registered validators never hold more than was distributed.
   */
  lemma EmissionBound(genesis: nat, duration: nat, ops: seq<Op>)
    ensures
      var p := Run(NewPool(genesis, duration), ops);
      && p.distributed < EMISSION_LIMIT
      && p.remaining + p.distributed == POOL_CIL
      && p.remaining > 0 && Budget(p) == EpochRate(p.epoch)
      && p.halvings == p.epoch / HALVING_INTERVAL
      && Sum(Earned(p.validators)) <= p.distributed
  {
    assert Earned(map[]) == map[];
    RunKeepsInv(NewPool(genesis, duration), ops);
    EmittedBelowLimit(Run(NewPool(genesis, duration), ops).epoch);
  }

  /** Reward split: with n eligible validators the payouts lose less than n CIL of the budget. */
  lemma RewardSplit(p: Pool)
    requires exists a :: a in p.validators && p.validators[a].Eligible(p.epoch)
    requires Budget(p) > 0
    ensures
      var n := |set a | a in p.validators && p.validators[a].Eligible(p.epoch)|;
      Sum(Payouts(p)) <= Budget(p) < Sum(Payouts(p)) + n
  {
    var ws := Weights(p.validators, p.epoch);
    forall a | a in p.validators && p.validators[a].Eligible(p.epoch) ensures a in ws {
      WeightPositive(p.validators[a]);
    }
    assert ws.Keys == set a | a in p.validators && p.validators[a].Eligible(p.epoch);
    var a :| a in ws;
    SumAtLeastEntry(ws, a);
    PayoutsNearBudget(p);
  }

  /** Among eligible validators a larger stake never earns less. */
  lemma LargerStakeEarnsNoLess(p: Pool, a: string, b: string)
    requires a in Payouts(p) && b in Payouts(p)
    requires p.validators[a].stake <= p.validators[b].stake
    ensures Payouts(p)[a] <= Payouts(p)[b]
  {
    RateAtMostInitial(p.epoch);
    ShareMonotone(Budget(p), p.validators[a], p.validators[b], Sum(Weights(p.validators, p.epoch)));
  }
}
