/** Quadratic voting: power is the integer square root of the stake. */
module Voting {
  import opened Words
  import opened MapSums
  import opened Isqrt

  const MIN_STAKE_CIL: u128 := 100_000_000_000_000
  const MAX_STAKE_FOR_VOTING_CIL: u128 := 2_193_623_600_000_000_000_000

  ghost function VotingPower(stake: nat): nat {
    if stake < MIN_STAKE_CIL then 0 else Root(Min(stake, MAX_STAKE_FOR_VOTING_CIL))
  }

  method CalculateVotingPower(stake: u128) returns (power: u128)
    ensures power == VotingPower(stake)
  {
    if stake < MIN_STAKE_CIL {
      return 0;
    }
    power := IsqrtCeil(if stake <= MAX_STAKE_FOR_VOTING_CIL then stake else MAX_STAKE_FOR_VOTING_CIL);
  }

  // ---------------------------------------------------------------- splitting a stake

  ghost function Total(parts: seq<nat>): nat {
    if parts == [] then 0 else parts[0] + Total(parts[1..])
  }

  ghost function TotalPower(parts: seq<nat>): nat {
    if parts == [] then 0 else VotingPower(parts[0]) + TotalPower(parts[1..])
  }

  lemma PowerMonotone(a: nat, b: nat)
    requires a <= b
    ensures VotingPower(a) <= VotingPower(b)
  {
    RootMonotone(Min(a, MAX_STAKE_FOR_VOTING_CIL), Min(b, MAX_STAKE_FOR_VOTING_CIL));
  }

  /** Anti-whale: one stake never has more power than its parts together, when each part may vote. */
  lemma {:induction false} SplittingNeverLosesPower(parts: seq<nat>)
    requires forall i :: 0 <= i < |parts| ==> parts[i] >= MIN_STAKE_CIL
    ensures VotingPower(Total(parts)) <= TotalPower(parts)
    decreases |parts|
  {
    if parts != [] {
      var a, b := parts[0], Total(parts[1..]);
      SplittingNeverLosesPower(parts[1..]);
      if |parts| > 1 {
        assert b >= parts[1..][0];
        var m := MAX_STAKE_FOR_VOTING_CIL;
        RootMonotone(Min(a + b, m), Min(a, m) + Min(b, m));
        RootSubadditive(Min(a, m), Min(b, m));
      }
    }
  }

  /** Below the minimum the law fails: two such parts have no power, and together they have some. */
  lemma PartsBelowMinimumLosePower()
    ensures TotalPower([MIN_STAKE_CIL - 1, MIN_STAKE_CIL - 1]) <
            VotingPower(Total([MIN_STAKE_CIL - 1, MIN_STAKE_CIL - 1]))
  {
    var h: nat := MIN_STAKE_CIL - 1;
    assert [h, h][1..] == [h] && [h][1..] == [];
    assert Total([h, h]) == h + Total([h]) == 2 * h;
    assert TotalPower([h, h]) == TotalPower([h]) == 0;
    RootPositive(2 * h);
  }

  /** Splitting into parts of at least `least` each never loses power. */
  ghost predicate SplittingLaw(least: nat) {
    forall parts: seq<nat> :: (forall i :: 0 <= i < |parts| ==> parts[i] >= least) ==>
      VotingPower(Total(parts)) <= TotalPower(parts)
  }

  /** The law holds for all parts of at least `least` exactly when that is no less than the minimum stake. */
  lemma SplittingLawExactly(least: nat)
    ensures SplittingLaw(least) <==> least >= MIN_STAKE_CIL
  {
    if least >= MIN_STAKE_CIL {
      forall parts: seq<nat> | forall i :: 0 <= i < |parts| ==> parts[i] >= least
        ensures VotingPower(Total(parts)) <= TotalPower(parts)
      {
        SplittingNeverLosesPower(parts);
      }
    } else {
      var parts: seq<nat> := [MIN_STAKE_CIL - 1, MIN_STAKE_CIL - 1];
      PartsBelowMinimumLosePower();
      assert forall i :: 0 <= i < |parts| ==> parts[i] >= least;
    }
  }

  // ---------------------------------------------------------------- the voting system

  datatype ValidatorVote = ValidatorVote(stake: u128, power: u128, preference: string, active: bool)

  type Votes = map<string, ValidatorVote>

  /** Every recorded power is the power of the recorded stake. */
  ghost predicate PowersRight(vs: Votes) {
    forall a :: a in vs ==> vs[a].power == VotingPower(vs[a].stake)
  }

  ghost function Powers(vs: Votes): map<string, nat> {
    map a | a in vs :: if vs[a].active then vs[a].power as nat else 0
  }

  ghost function PowersFor(vs: Votes, proposal: string): map<string, nat> {
    map a | a in vs :: if vs[a].active && vs[a].preference == proposal then vs[a].power as nat else 0
  }

  ghost function PercentBps(votesFor: nat, total: nat): nat {
    if total > 0 then votesFor * 10_000 / total else 0
  }

  ghost predicate Reached(vs: Votes, proposal: string) {
    PercentBps(Sum(PowersFor(vs, proposal)), Sum(Powers(vs))) > 5_000
  }

  lemma PowerBound(stake: nat)
    ensures VotingPower(stake) <= 0xFFFF_FFFF_FFFF
  {
    RootAtMost(Min(stake, MAX_STAKE_FOR_VOTING_CIL), 0xFFFF_FFFF_FFFF);
  }

  lemma SumsFit(vs: Votes, proposal: string)
    requires PowersRight(vs) && |vs| <= U64_MAX
    ensures Sum(PowersFor(vs, proposal)) <= Sum(Powers(vs)) <= U128_MAX / 10_000
  {
    var bound := 0xFFFF_FFFF_FFFF;
    forall a | a in vs ensures vs[a].power <= bound { PowerBound(vs[a].stake); }
    SumAtMostEach(Powers(vs), bound);
    SumDominated(PowersFor(vs, proposal), Powers(vs));
    assert Powers(vs).Keys == vs.Keys;
    assert |Powers(vs)| == |vs|;
  }

  class VotingSystem {
    var validators: Votes

    ghost predicate Valid()
      reads this
    {
      PowersRight(validators)
    }

    constructor ()
      ensures Valid() && validators == map[]
    {
      validators := map[];
    }

    method RegisterValidator(address: string, stake: u128, preference: string, active: bool)
      returns (power: Option<u128>)
      requires Valid()
      modifies this
      ensures Valid()
      ensures stake > MAX_STAKE_FOR_VOTING_CIL ==> power == None && validators == old(validators)
      ensures stake <= MAX_STAKE_FOR_VOTING_CIL ==>
                && power == Some(VotingPower(stake))
                && validators ==
                   old(validators)[address := ValidatorVote(stake, VotingPower(stake), preference, active)]
    {
      if stake > MAX_STAKE_FOR_VOTING_CIL {
        return None;
      }
      var p := CalculateVotingPower(stake);
      validators := validators[address := ValidatorVote(stake, p, preference, active)];
      power := Some(p);
    }

    method UpdateStake(address: string, stake: u128) returns (power: Option<u128>)
      requires Valid()
      modifies this
      ensures Valid()
      ensures address !in old(validators) ==> power == None && validators == old(validators)
      ensures address in old(validators) ==>
                && power == Some(VotingPower(stake))
                && validators ==
                   old(validators)[address := old(validators)[address].(stake := stake, power := VotingPower(stake))]
    {
      if address !in validators {
        return None;
      }
      var p := CalculateVotingPower(stake);
      validators := validators[address := validators[address].(stake := stake, power := p)];
      power := Some(p);
    }

    method UpdateVotePreference(address: string, preference: string) returns (ok: bool)
      requires Valid()
      modifies this
      ensures Valid()
      ensures ok == (address in old(validators))
      ensures validators == if ok then old(validators)[address := old(validators)[address].(preference := preference)]
                            else old(validators)
    {
      ok := address in validators;
      if ok {
        validators := validators[address := validators[address].(preference := preference)];
      }
    }

    /** Active power, all of it and what is for a proposal. */
    method AddUp(proposal: string) returns (votesFor: u128, total: u128)
      requires Valid() && |validators| <= U64_MAX
      ensures votesFor == Sum(PowersFor(validators, proposal))
      ensures total == Sum(Powers(validators))
    {
      SumsFit(validators, proposal);
      assert Only(validators, validators.Keys) == validators;
      ghost var allFor, all := Sum(PowersFor(validators, proposal)), Sum(Powers(validators));
      total := 0;
      votesFor := 0;
      var rest := validators.Keys;
      while rest != {}
        invariant rest <= validators.Keys
        invariant votesFor == allFor - Sum(PowersFor(Only(validators, rest), proposal))
        invariant total == all - Sum(Powers(Only(validators, rest)))
        decreases |rest|
      {
        var a :| a in rest;
        var v := validators[a];
        TakeOne(validators, rest, a, proposal);
        if v.active {
          total := total + v.power;
          if v.preference == proposal {
            votesFor := votesFor + v.power;
          }
        }
        rest := rest - {a};
      }
      assert Only(validators, {}) == map[];
    }

    /** The power for a proposal, its share in basis points, and whether that is above 5000. */
    method CalculateProposalConsensus(proposal: string) returns (votesFor: u128, percentBps: nat, reached: bool)
      requires Valid() && |validators| <= U64_MAX
      ensures votesFor == Sum(PowersFor(validators, proposal))
      ensures percentBps == PercentBps(votesFor, Sum(Powers(validators))) <= 10_000
      ensures reached <==> Reached(validators, proposal)
    {
      var total;
      votesFor, total := AddUp(proposal);
      SumsFit(validators, proposal);
      percentBps := Share(votesFor, total);
      reached := percentBps > 5_000;
    }
  }

  method Share(part: u128, total: u128) returns (bps: nat)
    requires part <= total <= U128_MAX / 10_000
    ensures bps == PercentBps(part, total) <= 10_000
  {
    bps := 0;
    if total > 0 {
      var scaled: u128 := part * 10_000;
      bps := scaled / total;
      ShareAtMostAll(part, total);
    }
  }

  ghost function Only(vs: Votes, keys: set<string>): Votes {
    map a | a in vs && a in keys :: vs[a]
  }

  lemma TakeOne(vs: Votes, rest: set<string>, a: string, proposal: string)
    requires rest <= vs.Keys && a in rest
    ensures Sum(Powers(Only(vs, rest))) == Sum(Powers(Only(vs, rest - {a}))) + Powers(vs)[a]
    ensures Sum(PowersFor(Only(vs, rest), proposal)) ==
            Sum(PowersFor(Only(vs, rest - {a}), proposal)) + PowersFor(vs, proposal)[a]
  {
    var o, o' := Only(vs, rest), Only(vs, rest - {a});
    SumRemove(Powers(o), a);
    SumRemove(PowersFor(o, proposal), a);
    assert Powers(o) - {a} == Powers(o');
    assert PowersFor(o, proposal) - {a} == PowersFor(o', proposal);
  }

  lemma ShareAtMostAll(votesFor: nat, total: nat)
    requires 0 < total && votesFor <= total
    ensures votesFor * 10_000 / total <= 10_000
  {
    QuotientBounds(votesFor * 10_000, total);
    var q := votesFor * 10_000 / total;
    if q > 10_000 { MulMonotone(total, 10_001, q); }
  }

  // ---------------------------------------------------------------- what consensus means

  lemma ThresholdExact(votesFor: nat, total: nat)
    ensures PercentBps(votesFor, total) > 5_000 <==> total > 0 && votesFor * 10_000 >= 5_001 * total
  {
    if total > 0 {
      var q := votesFor * 10_000 / total;
      QuotientBounds(votesFor * 10_000, total);
      if q > 5_000 {
        MulMonotone(total, 5_001, q);
      } else {
        MulMonotone(total, q + 1, 5_001);
      }
    }
  }

  /**
   * Reaching consensus means more than half of the active power, and more exactly at least
   * 50.01 % of it: a majority below that share is not enough.
   */
  lemma ConsensusIsMajority(vs: Votes, proposal: string)
    ensures
      var votesFor, total := Sum(PowersFor(vs, proposal)), Sum(Powers(vs));
      && (Reached(vs, proposal) ==> 2 * votesFor > total)
      && (2 * votesFor > total ==> (Reached(vs, proposal) <==> votesFor * 10_000 >= 5_001 * total))
  {
    ThresholdExact(Sum(PowersFor(vs, proposal)), Sum(Powers(vs)));
    SumDominated(PowersFor(vs, proposal), Powers(vs));
  }

  lemma PowerOfSquare(k: nat)
    requires 10_000_000 <= k <= 1_000_000_000
    ensures k * k <= U128_MAX && VotingPower(k * k) == k
  {
    MulMonotone(k, 10_000_000, k);
    MulMonotone(k, k, 1_000_000_000);
    RootIs(k * k);
    RootUnique(k * k, k, Root(k * k));
  }

  /** A voting system in which a proposal with more than half of the power does not reach consensus. */
  lemma NarrowMajorityFails() returns (vs: Votes)
    ensures PowersRight(vs)
    ensures 2 * Sum(PowersFor(vs, "yes")) > Sum(Powers(vs)) && !Reached(vs, "yes")
  {
    var p, q := 50_001_000, 49_999_000;
    PowerOfSquare(p);
    PowerOfSquare(q);
    vs := map["a" := ValidatorVote(p * p, p, "yes", true), "b" := ValidatorVote(q * q, q, "no", true)];
    assert vs["a"].preference != vs["b"].preference;
    SumRemove(Powers(vs), "a");
    assert Powers(vs) - {"a"} == map["b" := q];
    SumRemove(map["b" := q], "b");
    SumRemove(PowersFor(vs, "yes"), "a");
    assert PowersFor(vs, "yes") - {"a"} == map["b" := 0];
    SumZero(map["b" := 0]);
    ThresholdExact(p, p + q);
  }

  /** Two proposals never both reach consensus. */
  lemma AtMostOneWinner(vs: Votes, p: string, q: string)
    requires p != q
    ensures !(Reached(vs, p) && Reached(vs, q))
  {
    var total := Sum(Powers(vs));
    var both := map a | a in vs :: PowersFor(vs, p)[a] + PowersFor(vs, q)[a];
    SumOfSums(both, PowersFor(vs, p), PowersFor(vs, q));
    SumDominated(both, Powers(vs));
    ThresholdExact(Sum(PowersFor(vs, p)), total);
    ThresholdExact(Sum(PowersFor(vs, q)), total);
  }
}
