/**
 * The validator reward pool: epoch payouts from a halving rate, split by the square root of stake.
 * Epoch numbers, timestamps and heartbeat counts are naturals.
 */
module Rewards {
  import opened Words
  import opened MapSums
  import opened Isqrt

  const CIL_PER_LOS: nat := 100_000_000_000
  const POOL_CIL: u128 := 500_000 * CIL_PER_LOS
  const RATE_INITIAL_CIL: u128 := 5_000 * CIL_PER_LOS
  const HALVING_INTERVAL: nat := 48
  const MIN_UPTIME_PCT: nat := 95
  const PROBATION_EPOCHS: nat := 1
  const MIN_VALIDATOR_STAKE_CIL: u128 := 1_000 * CIL_PER_LOS

  datatype Validator = Validator(
    joinEpoch: nat,
    heartbeats: nat,
    expected: nat,
    cumulative: nat,
    isGenesis: bool,
    stake: u128,
    lastUptime: nat)
  {
    function UptimePct(): nat {
      if expected == 0 then 0 else Min(heartbeats * 100 / expected, 100)
    }

    predicate Eligible(epoch: nat) {
      && epoch >= joinEpoch + PROBATION_EPOCHS
      && UptimePct() >= MIN_UPTIME_PCT
      && stake >= MIN_VALIDATOR_STAKE_CIL
    }

    ghost function Weight(): nat {
      Root(stake / CIL_PER_LOS)
    }
  }

  type Validators = map<string, Validator>

  datatype Pool = Pool(
    remaining: u128,
    epoch: nat,
    epochStart: nat,
    halvings: nat,
    distributed: nat,
    validators: Validators,
    epochDuration: nat)

  // ---------------------------------------------------------------- the rate

  function Pow2(n: nat): (p: nat)
    ensures p > 0
  {
    if n == 0 then 1 else 2 * Pow2(n - 1)
  }

  /** `RATE_INITIAL_CIL >> halvings`, and 0 from the 128th halving on. */
  function RateAfter(halvings: nat): nat {
    if halvings >= 128 then 0 else RATE_INITIAL_CIL / Pow2(halvings)
  }

  function EpochRate(epoch: nat): nat {
    RateAfter(epoch / HALVING_INTERVAL)
  }

  /** What the rate allows over the first `epoch` epochs. */
  ghost function Emitted(epoch: nat): nat {
    if epoch == 0 then 0 else Emitted(epoch - 1) + EpochRate(epoch - 1)
  }

  lemma {:induction false} Halving(h: nat)
    ensures 2 * RateAfter(h + 1) <= RateAfter(h)
    ensures RateAfter(h) <= RATE_INITIAL_CIL
  {
    var p := Pow2(h);
    assert Pow2(h + 1) == 2 * p;
    QuotientBounds(RATE_INITIAL_CIL, p);
    QuotientBounds(RATE_INITIAL_CIL, 2 * p);
    HalfQuotient(RATE_INITIAL_CIL, p);
    MulMonotone(RATE_INITIAL_CIL, 1, p);
    QuotientAtMost(RATE_INITIAL_CIL, p, 1);
  }

  lemma HalfQuotient(n: nat, p: nat)
    requires p > 0
    ensures 2 * (n / (2 * p)) <= n / p
  {
    var q, q' := n / p, n / (2 * p);
    QuotientBounds(n, p);
    QuotientBounds(n, 2 * p);
    assert q' * (2 * p) == (2 * q') * p;
    if 2 * q' > q {
      MulMonotone(p, q + 1, 2 * q');
    }
  }

  /** 5,000 LOS in CIL is odd after fourteen halvings: the fifteenth loses half a CIL. */
  lemma FifteenthHalvingLoses()
    ensures 2 * RateAfter(15) == RateAfter(14) - 1
  {
    assert Pow2(4) == 16;
    assert Pow2(8) == 256;
    assert Pow2(12) == 4096;
    assert Pow2(14) == 16384;
    assert Pow2(15) == 32768;
  }

  const EMISSION_LIMIT: nat := 480_000 * CIL_PER_LOS

  /** What could still be emitted from here on if every later halving were exact. */
  ghost function Potential(epoch: nat): int {
    EpochsAhead(epoch) * EpochRate(epoch)
  }

  /** Two halving intervals less the epochs of the current one that are over. */
  ghost function EpochsAhead(epoch: nat): (n: nat)
    ensures n > HALVING_INTERVAL
  {
    2 * HALVING_INTERVAL - epoch % HALVING_INTERVAL
  }

  lemma PotentialDrops(epoch: nat)
    ensures Potential(epoch + 1) + EpochRate(epoch) + (if epoch + 1 == 15 * HALVING_INTERVAL then 1 else 0)
            <= Potential(epoch)
  {
    var h, k := epoch / HALVING_INTERVAL, epoch % HALVING_INTERVAL;
    var rate := RateAfter(h);
    if k + 1 < HALVING_INTERVAL {
      assert (epoch + 1) / HALVING_INTERVAL == h && (epoch + 1) % HALVING_INTERVAL == k + 1;
      OneMore(EpochsAhead(epoch + 1), rate);
    } else {
      assert (epoch + 1) / HALVING_INTERVAL == h + 1 && (epoch + 1) % HALVING_INTERVAL == 0;
      Halving(h);
      FifteenthHalvingLoses();
    }
  }

  /** Emitted so far plus potential never grows, and drops below the limit at the fifteenth halving. */
  lemma {:induction false} EmissionPotential(epoch: nat)
    ensures Emitted(epoch) + Potential(epoch) <= EMISSION_LIMIT - (if epoch >= 15 * HALVING_INTERVAL then 1 else 0)
  {
    if epoch == 0 {
      assert Pow2(0) == 1;
    } else {
      EmissionPotential(epoch - 1);
      PotentialDrops(epoch - 1);
    }
  }

  lemma {:induction false} RatePositive(h: nat)
    requires h <= 14
    ensures RateAfter(h) > 0
    decreases 14 - h
  {
    if h < 14 {
      RatePositive(h + 1);
      Halving(h);
    } else {
      FifteenthHalvingLoses();
    }
  }

  /** The whole emission schedule stays strictly below 480,000 LOS. */
  lemma EmittedBelowLimit(epoch: nat)
    ensures Emitted(epoch) + EpochRate(epoch) < EMISSION_LIMIT
  {
    EmissionPotential(epoch);
    MulMonotone(EpochRate(epoch), 2, EpochsAhead(epoch));
    if epoch < 15 * HALVING_INTERVAL {
      RatePositive(epoch / HALVING_INTERVAL);
    }
  }
}
