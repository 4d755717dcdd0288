/** The reward pool as a node holds it, updated in place. */
module RewardPoolCode {
  import opened Words
  import opened MapSums
  import opened Isqrt
  import opened Rewards
  import opened RewardPool

  /** The pairs of `list` are exactly the positive entries of `pay`, each once. */
  ghost predicate Lists(list: seq<(string, nat)>, pay: map<string, nat>) {
    && (forall i :: 0 <= i < |list| ==> list[i].0 in pay && list[i].1 == pay[list[i].0] > 0)
    && (forall i, j :: 0 <= i < j < |list| ==> list[i].0 != list[j].0)
    && (forall a :: a in pay && pay[a] > 0 ==> exists i :: 0 <= i < |list| && list[i].0 == a)
  }

  ghost function Names(list: seq<(string, nat)>): set<string> {
    set i | 0 <= i < |list| :: list[i].0
  }

  ghost predicate Agree(done: map<string, nat>, all: map<string, nat>) {
    forall a :: a in done ==> a in all && done[a] == all[a]
  }

  class ValidatorRewardPool {
    var remaining: u128
    var epoch: nat
    var epochStart: nat
    var halvings: nat
    var distributed: nat
    var validators: Validators
    var epochDuration: nat

    ghost function Value(): Pool
      reads this
    {
      Pool(remaining, epoch, epochStart, halvings, distributed, validators, epochDuration)
    }

    ghost predicate Valid()
      reads this
    {
      Inv(Value())
    }

    constructor (genesis: nat, duration: nat)
      ensures Value() == NewPool(genesis, duration) && Valid()
      ensures remaining == 500_000 * 100_000_000_000 && distributed == epoch == halvings == 0 && validators == map[]
      ensures epochStart == genesis && epochDuration == duration
    {
      remaining := POOL_CIL;
      epoch := 0;
      epochStart := genesis;
      halvings := 0;
      distributed := 0;
      validators := map[];
      epochDuration := duration;
      new;
      assert Earned(map[]) == map[];
    }

    method RegisterValidator(address: string, isGenesis: bool, stake: u128)
      requires Valid()
      modifies this
      ensures Valid() && Value() == Apply(old(Value()), Register(address, isGenesis, stake))
    {
      ApplyKeepsInv(Value(), Register(address, isGenesis, stake));
      if address in validators {
        validators := validators[address := validators[address].(stake := stake, isGenesis := isGenesis)];
      } else {
        validators := validators[address := Validator(epoch, 0, 0, 0, isGenesis, stake, 0)];
      }
    }

    method UnregisterValidator(address: string) returns (found: bool)
      requires Valid()
      modifies this
      ensures Valid() && Value() == Apply(old(Value()), Unregister(address))
      ensures found <==> address in old(validators)
    {
      ApplyKeepsInv(Value(), Unregister(address));
      found := address in validators;
      validators := validators - {address};
    }

    method UpdateStake(address: string, stake: u128)
      requires Valid()
      modifies this
      ensures Valid() && Value() == Apply(old(Value()), Op.UpdateStake(address, stake))
    {
      ApplyKeepsInv(Value(), Op.UpdateStake(address, stake));
      if address in validators {
        validators := validators[address := validators[address].(stake := stake)];
      }
    }

    method RecordHeartbeat(address: string)
      requires Valid()
      modifies this
      ensures Valid() && Value() == Apply(old(Value()), Heartbeat(address))
    {
      ApplyKeepsInv(Value(), Heartbeat(address));
      if address in validators {
        var v := validators[address];
        validators := validators[address := v.(heartbeats := v.heartbeats + 1)];
      }
    }

    method SetExpectedHeartbeats(interval: nat)
      requires Valid()
      modifies this
      ensures Valid() && Value() == Apply(old(Value()), SetExpected(interval))
    {
      ApplyKeepsInv(Value(), SetExpected(interval));
      var full := if interval > 0 then epochDuration / interval else 0;
      validators := map a | a in validators :: validators[a].(expected := ExpectedAfter(validators[a], full));
    }

    /** Skip all fully elapsed epochs but the last one. */
    method CatchUpEpochs(now: nat) returns (skipped: nat)
      requires Valid()
      modifies this
      ensures Valid() && Value() == Apply(old(Value()), CatchUpTo(now))
      ensures skipped == epoch - old(epoch)
    {
      ApplyKeepsInv(Value(), CatchUpTo(now));
      if epochDuration == 0 {
        return 0;
      }
      var elapsed := if now >= epochStart then now - epochStart else 0;
      var behind := elapsed / epochDuration;
      if behind <= 1 {
        return 0;
      }
      skipped := behind - 1;
      epoch := epoch + skipped;
      epochStart := epochStart + skipped * epochDuration;
      halvings := epoch / HALVING_INTERVAL;
      validators := map a | a in validators :: validators[a].(heartbeats := 0, expected := 0);
    }

    method AdvanceEpoch()
      modifies this
      ensures Value() == Advance(old(Value()))
    {
      epoch := epoch + 1;
      epochStart := epochStart + epochDuration;
      halvings := epoch / HALVING_INTERVAL;
      validators := map a | a in validators ::
        validators[a].(lastUptime := validators[a].UptimePct(), heartbeats := 0, expected := 0);
    }

    /** Eligible validators with their weights. */
    method CollectEligible() returns (eligible: map<string, nat>)
      ensures eligible == Weights(validators, epoch)
    {
      eligible := map[];
      var rest := validators.Keys;
      ghost var all := Weights(validators, epoch);
      while rest != {}
        invariant rest <= validators.Keys
        invariant forall a :: a in eligible ==> a in all && a !in rest && eligible[a] == all[a]
        invariant forall a :: a in all && a !in rest ==> a in eligible
        decreases |rest|
      {
        var a :| a in rest;
        var v := validators[a];
        if v.Eligible(epoch) {
          var w := IsqrtCeil(v.stake / CIL_PER_LOS);
          if w > 0 {
            eligible := eligible[a := w];
          }
        }
        rest := rest - {a};
      }
    }

    /** The share of each eligible validator, zero shares left out, and their sum. */
    static method ComputeRewards(eligible: map<string, nat>, budget: nat, total: nat)
      returns (rewards: seq<(string, nat)>, sum: nat)
      requires total > 0
      ensures Lists(rewards, Shares(eligible, budget, total))
      ensures sum == Sum(Shares(eligible, budget, total))
    {
      rewards := [];
      sum := 0;
      var rest := eligible.Keys;
      ghost var shares := Shares(eligible, budget, total);
      ghost var done: map<string, nat> := map[];
      while rest != {}
        invariant rest <= eligible.Keys && done.Keys == eligible.Keys - rest
        invariant Agree(done, shares)
        invariant sum == Sum(done)
        invariant Lists(rewards, done)
        decreases |rest|
      {
        var a :| a in rest;
        var reward := Share(budget, eligible[a], total);
        assert reward == shares[a];
        SumUpdate(done, a, reward);
        ListsOneMore(rewards, done, a, reward);
        if reward > 0 {
          rewards := rewards + [(a, reward)];
          sum := sum + reward;
        }
        done := done[a := reward];
        rest := rest - {a};
      }
      assert done == shares;
    }

    /** Add each reward to the validator's total. */
    method Credit(rewards: seq<(string, nat)>, ghost pay: map<string, nat>)
      requires Lists(rewards, pay) && pay.Keys <= validators.Keys
      modifies this`validators
      ensures validators == Credited(old(validators), pay)
    {
      ghost var vs := validators;
      for i := 0 to |rewards|
        invariant validators.Keys == vs.Keys
        invariant forall a :: a in vs ==>
                    validators[a] == if a in Names(rewards[..i]) then vs[a].(cumulative := vs[a].cumulative + pay[a])
                                     else vs[a]
      {
        var (a, reward) := rewards[i];
        assert a !in Names(rewards[..i]);
        assert Names(rewards[..i + 1]) == Names(rewards[..i]) + {a};
        if a in validators {
          validators := validators[a := validators[a].(cumulative := validators[a].cumulative + reward)];
        }
      }
      assert rewards[..|rewards|] == rewards;
    }

    /** Split the budget among the eligible validators and book the payouts. */
    method PayEligible(eligible: map<string, nat>, total: nat) returns (rewards: seq<(string, nat)>)
      requires eligible == Weights(validators, epoch) && total == Sum(eligible) > 0
      requires 0 < remaining && 0 < EpochRate(epoch)
      modifies this`remaining, this`distributed, this`validators
      ensures Value() == Paid(old(Value()))
      ensures Lists(rewards, Payouts(old(Value())))
    {
      ghost var p := Value();
      var rate := EpochRate(epoch);
      var budget := if rate <= remaining then rate else remaining;
      var sum;
      rewards, sum := ComputeRewards(eligible, budget, total);
      assert Payouts(p) == Shares(eligible, budget, total);
      remaining := Monus(remaining, sum);
      distributed := distributed + sum;
      Credit(rewards, Payouts(p));
    }

    /** Pay out the completed epoch and advance. The payouts are listed in no particular order. */
    method DistributeEpochRewards() returns (rewards: seq<(string, nat)>)
      requires Valid()
      modifies this
      ensures Valid() && Value() == Apply(old(Value()), DistributeRewards)
      ensures Lists(rewards, Payouts(old(Value())))
    {
      ghost var p := Value();
      ApplyKeepsInv(p, DistributeRewards);
      NothingPaid(p);
      rewards := [];
      var rate := EpochRate(epoch);
      if rate == 0 || remaining == 0 {
        AdvanceEpoch();
        return;
      }
      var eligible := CollectEligible();
      var total := SumValues(eligible);
      if total == 0 {
        AdvanceEpoch();
        return;
      }
      rewards := PayEligible(eligible, total);
      AdvanceEpoch();
    }
  }

  lemma NothingPaid(p: Pool)
    ensures Payouts(p) == map[] ==> Paid(p) == p
  {
    if Payouts(p) == map[] {
      assert Credited(p.validators, map[]) == p.validators;
    }
  }

  method SumValues(m: map<string, nat>) returns (total: nat)
    ensures total == Sum(m)
  {
    total := 0;
    var rest := m;
    while rest != map[]
      invariant forall a :: a in rest ==> a in m && rest[a] == m[a]
      invariant total + Sum(rest) == Sum(m)
      decreases |rest|
    {
      var a :| a in rest;
      SumRemove(rest, a);
      total := total + rest[a];
      rest := rest - {a};
    }
  }

  lemma ListsOneMore(list: seq<(string, nat)>, pay: map<string, nat>, a: string, reward: nat)
    requires Lists(list, pay) && a !in pay
    ensures Lists(if reward > 0 then list + [(a, reward)] else list, pay[a := reward])
  {
    var list' := if reward > 0 then list + [(a, reward)] else list;
    var pay' := pay[a := reward];
    forall b | b in pay' && pay'[b] > 0 ensures exists i :: 0 <= i < |list'| && list'[i].0 == b {
      if b == a {
        assert list'[|list|].0 == a;
      } else {
        var i :| 0 <= i < |list| && list[i].0 == b;
        assert list'[i].0 == b;
      }
    }
  }
}
