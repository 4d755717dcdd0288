/** Who is paid how much at the end of an epoch, and what each call leaves, in the protocol's own numbers. */
module RewardAnswers {
  import opened Words
  import opened MapSums
  import opened Isqrt
  import opened Rewards
  import opened RewardPool

  // ---------------------------------------------------------------- the rate

  /** 5,000 LOS an epoch for the first 48 epochs, and half of that, rounded down, every 48 epochs. */
  lemma RateHalves(epoch: nat)
    ensures epoch < 48 ==> EpochRate(epoch) == 5_000 * 100_000_000_000
    ensures EpochRate(epoch + 48) == EpochRate(epoch) / 2
  {
    assert (epoch + 48) / 48 == epoch / 48 + 1;
    assert Pow2(0) == 1;
    HalfOfRate(epoch / 48);
  }

  lemma HalfOfRate(h: nat)
    ensures RateAfter(h + 1) == RateAfter(h) / 2
  {
    if h + 1 < 128 {
      assert Pow2(h + 1) == 2 * Pow2(h);
      HalfOfQuotient(RATE_INITIAL_CIL, Pow2(h));
    } else if h == 127 {
      ManyHalvings();
    }
  }

  lemma HalfOfQuotient(n: nat, p: nat)
    requires p > 0
    ensures n / (2 * p) == n / p / 2
  {
    var q := n / p;
    QuotientBounds(n, p);
    QuotientBounds(q, 2);
    var r := q / 2;
    assert r * (2 * p) == (r * 2) * p;
    MulMonotone(p, r * 2, q);
    MulMonotone(p, q + 1, r * 2 + 2);
    assert (r * 2 + 2) * p == r * (2 * p) + 2 * p;
    QuotientUnique(n, 2 * p, r);
  }

  lemma {:induction false} Pow2Grows(h: nat)
    ensures h < Pow2(h)
  {
    if h > 0 { Pow2Grows(h - 1); }
  }

  lemma {:induction false} Pow2Monotone(i: nat, j: nat)
    requires i <= j
    ensures Pow2(i) <= Pow2(j)
    decreases j
  {
    if i < j { Pow2Monotone(i, j - 1); }
  }

  lemma ManyHalvings()
    ensures RateAfter(127) == 0
  {
    assert Pow2(10) == 1024;
    assert Pow2(20) == 1_048_576;
    assert Pow2(30) == 1_073_741_824;
    assert Pow2(40) == 1_099_511_627_776;
    assert Pow2(50) == 1_125_899_906_842_624;
    Pow2Monotone(50, 127);
    QuotientUnique(RATE_INITIAL_CIL, Pow2(127), 0);
  }

  // ---------------------------------------------------------------- who is paid, and how much

  /** A full epoch served, at least 95 % of the heartbeats sent, and 1,000 LOS at stake. */
  ghost predicate Earns(v: Validator, epoch: nat) {
    && v.joinEpoch + 1 <= epoch
    && v.expected > 0 && 95 * v.expected <= 100 * v.heartbeats
    && v.stake >= 1_000 * 100_000_000_000
  }

  lemma UptimeIs(v: Validator)
    requires v.expected > 0
    ensures v.UptimePct() >= 95 <==> 95 * v.expected <= 100 * v.heartbeats
    ensures v.UptimePct() <= 100
    ensures v.heartbeats < v.expected ==>
              v.UptimePct() * v.expected <= 100 * v.heartbeats < v.UptimePct() * v.expected + v.expected
    ensures v.heartbeats >= v.expected ==> v.UptimePct() == 100
  {
    var q := v.heartbeats * 100 / v.expected;
    QuotientBounds(v.heartbeats * 100, v.expected);
    if q < 95 { MulMonotone(v.expected, q + 1, 95); } else { MulMonotone(v.expected, 95, q); }
    if q < 100 { MulMonotone(v.expected, q + 1, 100); } else { MulMonotone(v.expected, 100, q); }
  }

  lemma EligibleIs(v: Validator, epoch: nat)
    ensures v.Eligible(epoch) <==> Earns(v, epoch)
  {
    if v.expected > 0 { UptimeIs(v); }
  }

  /** The square root of the stake in whole LOS, rounded down. */
  ghost predicate IsWeight(w: nat, v: Validator) {
    w * w <= v.stake / 100_000_000_000 < (w + 1) * (w + 1)
  }

  lemma WeightIs(w: nat, v: Validator)
    requires IsWeight(w, v)
    ensures v.Weight() == w
  {
    RootIs(v.stake / CIL_PER_LOS);
    RootUnique(v.stake / CIL_PER_LOS, w, v.Weight());
  }

  /** `ws` weighs exactly the validators that earn. */
  ghost predicate Weighs(ws: map<string, nat>, p: Pool) {
    && (forall a :: a in ws <==> a in p.validators && Earns(p.validators[a], p.epoch))
    && (forall a :: a in ws ==> IsWeight(ws[a], p.validators[a]))
  }

  lemma WeightsAre(ws: map<string, nat>, p: Pool)
    requires Weighs(ws, p)
    ensures Weights(p.validators, p.epoch) == ws
  {
    var vs := p.validators;
    forall a | a in vs ensures a in Weights(vs, p.epoch) <==> a in ws {
      EligibleIs(vs[a], p.epoch);
      if a in ws {
        WeightIs(ws[a], vs[a]);
        WeightPositive(vs[a]);
      }
    }
    forall a | a in ws ensures Weights(vs, p.epoch)[a] == ws[a] { WeightIs(ws[a], vs[a]); }
  }

  /** What an address is paid; most are paid nothing. */
  ghost function PayOf(p: Pool, a: string): nat {
    if a in Payouts(p) then Payouts(p)[a] else 0
  }

  /** There are such weights for every pool. */
  lemma WeightsExist(p: Pool)
    ensures exists ws :: Weighs(ws, p)
  {
    var ws := Weights(p.validators, p.epoch);
    forall a ensures a in ws <==> a in p.validators && Earns(p.validators[a], p.epoch) {
      if a in p.validators {
        EligibleIs(p.validators[a], p.epoch);
        if p.validators[a].Eligible(p.epoch) { WeightPositive(p.validators[a]); }
      }
    }
    forall a | a in ws ensures IsWeight(ws[a], p.validators[a]) { RootIs(p.validators[a].stake / CIL_PER_LOS); }
    assert Weighs(ws, p);
  }

  lemma PayIs(p: Pool, ws: map<string, nat>, budget: nat, a: string)
    requires Weighs(ws, p) && budget == Budget(p) && a in ws
    ensures Sum(ws) > 0 && PayOf(p, a) == if budget == 0 then 0 else budget * ws[a] / Sum(ws)
  {
    WeightsAre(ws, p);
    SumAtLeastEntry(ws, a);
    WeightIs(ws[a], p.validators[a]);
    WeightPositive(p.validators[a]);
    RateAtMostInitial(p.epoch);
    ShareNeverOverflows(budget, p.validators[a], Sum(ws));
  }

  /**
   * Those who earn share the epoch's rate, or what is left of the pool if that is less, in
   * proportion to their weights, rounded down; nobody else is paid.
   */
  lemma PaidExactly(p: Pool, ws: map<string, nat>, budget: nat, a: string)
    requires Weighs(ws, p)
    requires budget == if EpochRate(p.epoch) <= p.remaining then EpochRate(p.epoch) else p.remaining
    ensures a !in ws ==> PayOf(p, a) == 0
    ensures a in ws ==> PayOf(p, a) * Sum(ws) <= budget * ws[a] < PayOf(p, a) * Sum(ws) + Sum(ws)
  {
    if a in ws {
      PayIs(p, ws, budget, a);
      FloorShare(PayOf(p, a), Sum(ws), budget, ws[a]);
    } else {
      WeightsAre(ws, p);
    }
    hide PayOf, Weighs, EpochRate;
  }

  lemma FloorShare(pay: nat, total: nat, budget: nat, w: nat)
    requires total > 0 && pay == if budget == 0 then 0 else budget * w / total
    ensures pay * total <= budget * w < pay * total + total
  {
    if budget == 0 {
      assert budget * w == 0 && pay * total == 0;
    } else {
      QuotientBounds(budget * w, total);
    }
  }

  /** So an address is paid if and only if it is registered, earns, and its part of the budget is a whole CIL. */
  lemma PaidWhen(p: Pool, ws: map<string, nat>, budget: nat, a: string)
    requires Weighs(ws, p)
    requires budget == if EpochRate(p.epoch) <= p.remaining then EpochRate(p.epoch) else p.remaining
    ensures PayOf(p, a) > 0 <==>
            a in p.validators && Earns(p.validators[a], p.epoch) && budget * ws[a] >= Sum(ws)
  {
    PaidExactly(p, ws, budget, a);
    if a in ws && PayOf(p, a) > 0 { MulMonotone(Sum(ws), 1, PayOf(p, a)); }
  }

  // ---------------------------------------------------------------- what the calls leave

  /** Everything of a validator but the counts of the epoch. */
  ghost predicate SameButCounts(v: Validator, w: Validator) {
    v.joinEpoch == w.joinEpoch && v.isGenesis == w.isGenesis && v.stake == w.stake
  }

  /** The uptime that is kept of an epoch, in percent. */
  ghost predicate UptimeKept(v: Validator, pct: nat) {
    if v.expected == 0 then pct == 0
    else if v.heartbeats >= v.expected then pct == 100
    else pct * v.expected <= 100 * v.heartbeats < pct * v.expected + v.expected
  }

  /** The pool pays what is paid out, everyone's total grows by it, and the next epoch starts with all counts at 0. */
  lemma DistributeLeaves(p: Pool)
    requires Inv(p)
    ensures var q := Apply(p, DistributeRewards);
            && q.remaining == p.remaining - Sum(Payouts(p)) && q.distributed == p.distributed + Sum(Payouts(p))
            && q.epoch == p.epoch + 1 && q.epochStart == p.epochStart + p.epochDuration
            && q.epochDuration == p.epochDuration && q.halvings == (p.epoch + 1) / 48
            && q.validators.Keys == p.validators.Keys
            && forall a :: a in p.validators ==>
                 var v, w := p.validators[a], q.validators[a];
                 && SameButCounts(v, w) && w.cumulative == v.cumulative + PayOf(p, a)
                 && w.heartbeats == 0 && w.expected == 0 && UptimeKept(v, w.lastUptime)
  {
    PayoutsAtMostBudget(p);
    forall a | a in p.validators ensures UptimeKept(p.validators[a], p.validators[a].UptimePct()) {
      if p.validators[a].expected > 0 { UptimeIs(p.validators[a]); }
    }
  }

  lemma AdvanceLeaves(p: Pool)
    ensures var q := Apply(p, AdvanceOnly);
            && q.remaining == p.remaining && q.distributed == p.distributed
            && q.epoch == p.epoch + 1 && q.epochStart == p.epochStart + p.epochDuration
            && q.epochDuration == p.epochDuration && q.halvings == (p.epoch + 1) / 48
            && q.validators.Keys == p.validators.Keys
            && forall a :: a in p.validators ==>
                 var v, w := p.validators[a], q.validators[a];
                 && SameButCounts(v, w) && w.cumulative == v.cumulative
                 && w.heartbeats == 0 && w.expected == 0 && UptimeKept(v, w.lastUptime)
  {
    forall a | a in p.validators ensures UptimeKept(p.validators[a], p.validators[a].UptimePct()) {
      if p.validators[a].expected > 0 { UptimeIs(p.validators[a]); }
    }
  }

  /** Of `behind` epochs that have fully elapsed all but one are skipped, if there is more than one. */
  lemma CatchUpLeaves(p: Pool, now: nat, behind: nat)
    requires p.epochDuration > 0
    requires if now < p.epochStart then behind == 0
             else behind * p.epochDuration <= now - p.epochStart < behind * p.epochDuration + p.epochDuration
    ensures var q := Apply(p, CatchUpTo(now));
            if behind <= 1 then q == p
            else
              && q.remaining == p.remaining && q.distributed == p.distributed && q.epochDuration == p.epochDuration
              && q.epoch == p.epoch + behind - 1 && q.halvings == (p.epoch + behind - 1) / 48
              && q.epochStart == p.epochStart + (behind - 1) * p.epochDuration
              && q.validators.Keys == p.validators.Keys
              && forall a :: a in p.validators ==>
                   q.validators[a] == p.validators[a].(heartbeats := 0, expected := 0)
  {
    if now >= p.epochStart {
      QuotientUnique(now - p.epochStart, p.epochDuration, behind);
    } else {
      QuotientUnique(0, p.epochDuration, 0);
    }
  }

  /** Whoever has sent something and was expected nothing is expected what it sent, at most the full count. */
  lemma ExpectedLeaves(p: Pool, interval: nat, full: nat)
    requires if interval == 0 then full == 0
             else full * interval <= p.epochDuration < full * interval + interval
    ensures var q := Apply(p, SetExpected(interval));
            && q == p.(validators := q.validators) && q.validators.Keys == p.validators.Keys
            && forall a :: a in p.validators ==>
                 var v := p.validators[a];
                 q.validators[a] ==
                 v.(expected :=
                      if v.heartbeats > 0 && v.expected == 0 && v.heartbeats < full then v.heartbeats else full)
  {
    if interval > 0 { QuotientUnique(p.epochDuration, interval, full); }
  }

  /** Registering adds a validator that joins now, or refreshes stake and genesis flag of one there is. */
  lemma RegisterLeaves(p: Pool, a: string, isGenesis: bool, stake: u128)
    ensures var q := Apply(p, Register(a, isGenesis, stake));
            && q == p.(validators := q.validators) && q.validators.Keys == p.validators.Keys + {a}
            && (forall b :: b in p.validators && b != a ==> q.validators[b] == p.validators[b])
            && var w := q.validators[a];
            && w.stake == stake && w.isGenesis == isGenesis
            && if a in p.validators then w == p.validators[a].(stake := stake, isGenesis := isGenesis)
               else
                 && w.joinEpoch == p.epoch && w.lastUptime == 0
                 && w.heartbeats == w.expected == w.cumulative == 0
  {
  }

  /** The other calls change one field of one validator, or take it out. */
  lemma OthersLeave(p: Pool, a: string, stake: u128)
    ensures Apply(p, Unregister(a)) == p.(validators := map b | b in p.validators && b != a :: p.validators[b])
    ensures a !in p.validators ==> Apply(p, UpdateStake(a, stake)) == p && Apply(p, Heartbeat(a)) == p
    ensures a in p.validators ==>
              && Apply(p, UpdateStake(a, stake)) ==
                 p.(validators := p.validators[a := p.validators[a].(stake := stake)])
              && Apply(p, Heartbeat(a)) ==
                 p.(validators := p.validators[a := p.validators[a].(heartbeats := p.validators[a].heartbeats + 1)])
  {
  }
}
