/** What a stake and a vote are worth, in numbers. */
module VotingAnswers {
  import opened Words
  import opened MapSums
  import opened Isqrt
  import opened Voting

  /** No power below 1,000 LOS; from there on the whole root of the stake, or of the whole supply if that is less. */
  lemma PowerExactly(stake: nat, p: nat)
    ensures VotingPower(stake) == p <==>
            if stake < 100_000_000_000_000 then p == 0
            else if stake <= 2_193_623_600_000_000_000_000 then p * p <= stake < (p + 1) * (p + 1)
            else p * p <= 2_193_623_600_000_000_000_000 < (p + 1) * (p + 1)
  {
    var n := Min(stake, 2_193_623_600_000_000_000_000);
    RootIs(n);
    if p * p <= n < (p + 1) * (p + 1) { RootUnique(n, p, Root(n)); }
  }

  /** Nobody, no votes. */
  lemma NoVotes(proposal: string)
    ensures Sum(PowersFor(map[], proposal)) == 0 && Sum(Powers(map[])) == 0
  {
    assert PowersFor(map[], proposal) == map[] && Powers(map[]) == map[];
  }

  /** One more validator: an active one's power joins the total, and the votes for what it prefers and no other. */
  lemma OneVote(vs: Votes, a: string, v: ValidatorVote, proposal: string)
    requires a !in vs
    ensures Sum(Powers(vs[a := v])) == Sum(Powers(vs)) + if v.active then v.power else 0
    ensures Sum(PowersFor(vs[a := v], proposal)) ==
            Sum(PowersFor(vs, proposal)) + if v.active && v.preference == proposal then v.power else 0
  {
    var ws := vs[a := v];
    SumRemove(Powers(ws), a);
    SumRemove(PowersFor(ws, proposal), a);
    assert Powers(ws) - {a} == Powers(vs);
    assert PowersFor(ws, proposal) - {a} == PowersFor(vs, proposal);
  }

  /** The share in basis points, rounded down; 0 of nothing. */
  lemma ShareExactly(part: nat, total: nat, q: nat)
    ensures PercentBps(part, total) == q <==>
            if total == 0 then q == 0 else q * total <= part * 10_000 < q * total + total
  {
    if total > 0 {
      QuotientBounds(part * 10_000, total);
      if q * total <= part * 10_000 < q * total + total { QuotientUnique(part * 10_000, total, q); }
    }
  }

  /** A proposal goes through with at least 50.01 % of an active power that is not nothing. */
  lemma ReachedExactly(vs: Votes, proposal: string)
    ensures Reached(vs, proposal) <==>
            && Sum(Powers(vs)) > 0 && 10_000 * Sum(PowersFor(vs, proposal)) >= 5_001 * Sum(Powers(vs))
  {
    ThresholdExact(Sum(PowersFor(vs, proposal)), Sum(Powers(vs)));
  }
}
