/** When a validator is slashed, by how much, and what each call leaves, in the protocol's own numbers. */
module SlashingAnswers {
  import opened Words
  import opened Decimal
  import opened Isqrt
  import opened SlashingModel

  // ---------------------------------------------------------------- what is booked

  /** Everything of the state but one profile and the list of events. */
  ghost predicate OthersKept(s: State, t: State, v: string) {
    && t.height == s.height && t.proposals == s.proposals && t.validators.Keys == s.validators.Keys + {v}
    && forall w :: w in s.validators && w != v ==> t.validators[w] == s.validators[w]
  }

  /** A slash of `amount` is booked on the profile of `v`: status, total, count and history, there and in the list. */
  ghost predicate Books(s: State, t: State, v: string, e: Event, status: Status)
    requires v in s.validators
  {
    && OthersKept(s, t, v) && t.events == s.events + [e]
    && var p, q := s.validators[v], t.validators[v];
    && q.status == status && q.history == p.history + [e] && q.violations == p.violations + 1
    && q.totalSlashed == (p.totalSlashed + e.amount) % 0x1_0000_0000_0000_0000_0000_0000_0000_0000
    && q.address == p.address && q.signatures == p.signatures && q.lastParticipation == p.lastParticipation
  }

  // ---------------------------------------------------------------- downtime

  /** At least 50,000 blocks observed, and fewer than 95 % of them signed. */
  ghost predicate TooOftenAbsent(p: Profile) {
    p.observed >= 50_000 && 100 * p.participated < 95 * p.observed
  }

  /**
   * One percent of the stake, rounded up, while a hundred times the stake fits a u128; of
   * more, what is left of that product modulo 2^128 counts.
   */
  ghost predicate IsDowntimeAmount(x: nat, stake: u128) {
    && (stake * 100 <= U128_MAX ==> 100 * (x - 1) < stake <= 100 * x)
    && 10_000 * (x - 1) < stake * 100 % 0x1_0000_0000_0000_0000_0000_0000_0000_0000 <= 10_000 * x
  }

  lemma DowntimeAmountIs(stake: u128)
    ensures IsDowntimeAmount(DowntimeSlash(stake), stake)
  {
    DowntimeSlashIsOnePercent(stake);
  }

  /** `check_and_slash_downtime` answers with an amount exactly for the absent, books it and opens a new window. */
  lemma DowntimeExactly(s: State, v: string, height: nat, stake: u128, timestamp: nat)
    requires Inv(s)
    ensures var (t, r) := Effect(s, CheckDowntime(v, height, stake, timestamp));
            && (r == Err <==> v !in s.validators || s.validators[v].status == Banned)
            && (r != Err ==> r.Amount?)
            && (r.Amount? && r.amount.Some? <==>
                v in s.validators && s.validators[v].status != Banned && TooOftenAbsent(s.validators[v]))
            && (!(r.Amount? && r.amount.Some?) ==> t == s)
            && (r.Amount? && r.amount.Some? ==>
                  && IsDowntimeAmount(r.amount.value, stake)
                  && Books(s, t, v, Event(height, v, ExtendedDowntime, r.amount.value, 100, timestamp), Slashed)
                  && t.validators[v].participated == 0 && t.validators[v].observed == 0)
  {
    hide Absent, DowntimeSlash, IsDowntimeAmount, ProfileInv, Books;
    if v in s.validators { AbsentExactly(s.validators[v]); }
    DowntimeAmountIs(stake);
    if v in s.validators && s.validators[v].status != Banned && Absent(s.validators[v]) {
      DowntimeBooks(s, v, height, stake, timestamp);
    }
  }

  lemma DowntimeBooks(s: State, v: string, height: nat, stake: u128, timestamp: nat)
    requires v in s.validators && s.validators[v].status != Banned && Absent(s.validators[v])
    ensures var t := DowntimeEffect(s, v, height, stake, timestamp).0;
            && Books(s, t, v, Event(height, v, ExtendedDowntime, DowntimeSlash(stake), 100, timestamp), Slashed)
            && t.validators[v].participated == 0 && t.validators[v].observed == 0
  {
    hide Absent, DowntimeSlash;
  }

  // ---------------------------------------------------------------- double signing

  /** The whole stake is booked, and the validator banned, unless it is banned already. */
  lemma DoubleSigningExactly(s: State, v: string, height: nat, stake: u128, timestamp: nat)
    ensures var (t, r) := Effect(s, Op.SlashDoubleSigning(v, height, stake, timestamp));
            if v in s.validators && s.validators[v].status != Banned then
              && r == Amount(Some(stake))
              && Books(s, t, v, Event(height, v, DoubleSigning, stake, 10_000, timestamp), Banned)
              && t.validators[v].participated == s.validators[v].participated
              && t.validators[v].observed == s.validators[v].observed
            else r == Err && t == s
  {
  }

  /** A signature is refused if and only if one of the last 1,000 for that height has another hash. */
  lemma SignatureExactly(s: State, v: string, height: nat, hash: string, timestamp: nat)
    ensures var (t, r) := Effect(s, Op.RecordSignature(v, height, hash, timestamp));
            if v in s.validators
               && forall i :: 0 <= i < |s.validators[v].signatures| ==>
                    var x := s.validators[v].signatures[i];
                    x.height == height ==> x.hash == hash
            then
              && r == Ok && OthersKept(s, t, v) && t.events == s.events
              && var p, q := s.validators[v], t.validators[v];
              && q == p.(signatures := q.signatures)
              && var all := p.signatures + [Signature(height, hash, timestamp)];
              q.signatures == if |all| <= 1_000 then all else all[1..]
            else r == Err && t == s
  {
  }

  // ---------------------------------------------------------------- proposals

  /** The proposal as a confirmation leaves it before any execution: the stake if one is given, the confirmer if new. */
  ghost predicate Confirmed(p: Proposal, q: Proposal, confirmer: string, newStake: Option<u128>) {
    && q == p.(stake := q.stake, confirmations := q.confirmations)
    && q.stake == (if newStake.Some? then newStake else p.stake)
    && q.confirmations == (if confirmer in p.confirmations then p.confirmations else p.confirmations + [confirmer])
  }

  /** Two thirds of `n`, rounded down, and one more. */
  ghost predicate IsQuorum(k: nat, n: nat) {
    3 * (k - 1) <= 2 * n < 3 * k
  }

  lemma ThresholdIs(n: nat)
    ensures IsQuorum(Threshold(n), n)
  {
  }

  /** The state a confirmation finds the slash in. */
  ghost function Prepared(s: State, id: string, q: Proposal): State {
    s.(proposals := s.proposals[id := q])
  }

  /**
   * A confirmation of an unknown or executed proposal fails. Short of a quorum it is only noted.
   * With one the slash is tried: downtime as in `check_and_slash_downtime`, anything else as
   * double signing, for the stake on record; if that fails, so does the confirmation.
   */
  lemma ConfirmExactly(s: State, id: string, confirmer: string, n: nat, timestamp: nat, newStake: Option<u128>,
                       k: nat, q: Proposal)
    requires IsQuorum(k, n) && (id in s.proposals ==> Confirmed(s.proposals[id], q, confirmer, newStake))
    ensures var (t, r) := Effect(s, Confirm(id, confirmer, n, timestamp, newStake));
            if id !in s.proposals then r == Err && t == s
            else if s.proposals[id].executed then
              r == Err && t == Prepared(s, id, s.proposals[id].(stake := q.stake))
            else if |q.confirmations| < k then r == Flag(false) && t == Prepared(s, id, q)
            else
              var stake := match q.stake { case Some(x) => x case None => 0 };
              var slash := if q.offense == ExtendedDowntime
                           then CheckDowntime(q.offender, s.height, stake, timestamp)
                           else Op.SlashDoubleSigning(q.offender, s.height, stake, timestamp);
              var (u, answer) := Effect(Prepared(s, id, q), slash);
              if answer == Err then r == Err && t == u
              else r == Flag(true) && t == u.(proposals := u.proposals[id := q.(executed := true)])
  {
    ThresholdIs(n);
    assert k == Threshold(n);
    hide DowntimeEffect, DoubleSigningEffect;
  }

  lemma SameBooks(s: State, id: string, q: Proposal, w: State, v: string, e: Event, status: Status)
    requires v in s.validators && Books(Prepared(s, id, q), w, v, e, status)
    ensures Books(s, w.(proposals := s.proposals), v, e, status)
    ensures w.proposals == s.proposals[id := q] && w.events == s.events + [e]
  {
  }

  /** So a quorum for downtime slashes, at the stake on record, exactly a validator who is absent and not banned. */
  lemma DowntimeProposalExactly(s: State, id: string, confirmer: string, n: nat, timestamp: nat,
                                newStake: Option<u128>, k: nat, q: Proposal)
    requires Inv(s) && IsQuorum(k, n) && id in s.proposals && Confirmed(s.proposals[id], q, confirmer, newStake)
    requires !s.proposals[id].executed && |q.confirmations| >= k && q.offense == ExtendedDowntime
    ensures var (t, r) := Effect(s, Confirm(id, confirmer, n, timestamp, newStake));
            var v, stake := q.offender, match q.stake { case Some(x) => x case None => 0 };
            && (r == Flag(true) <==> v in s.validators && s.validators[v].status != Banned)
            && (r == Flag(true) ==> t.proposals == s.proposals[id := q.(executed := true)])
            && (r == Flag(true) && !TooOftenAbsent(s.validators[v]) ==>
                  t.validators == s.validators && t.events == s.events)
            && (r == Flag(true) && TooOftenAbsent(s.validators[v]) ==>
                  && |t.events| == |s.events| + 1
                  && var e := t.events[|s.events|];
                  && IsDowntimeAmount(e.amount, stake)
                  && e == Event(s.height, v, ExtendedDowntime, e.amount, 100, timestamp)
                  && Books(s, t.(proposals := s.proposals), v, e, Slashed)
                  && t.validators[v].participated == 0 && t.validators[v].observed == 0)
  {
    var stake := match q.stake { case Some(x) => x case None => 0 };
    var u := Prepared(s, id, q);
    assert NoRepeats(q.confirmations) by { assert NoRepeats(s.proposals[id].confirmations); }
    assert Inv(u);
    ConfirmExactly(s, id, confirmer, n, timestamp, newStake, k, q);
    DowntimeExactly(u, q.offender, s.height, stake, timestamp);
    var (w, answer) := Effect(u, CheckDowntime(q.offender, s.height, stake, timestamp));
    if answer.Amount? && answer.amount.Some? {
      var e := Event(s.height, q.offender, ExtendedDowntime, answer.amount.value, 100, timestamp);
      SameBooks(s, id, q, w, q.offender, e, Slashed);
    }
    hide Effect, IsDowntimeAmount, Inv, ProfileInv, Books, IsQuorum, Confirmed, TooOftenAbsent;
  }

  /** A proposal is made once, against a registered validator, and confirmed by who makes it. */
  lemma ProposeExactly(s: State, offender: string, offense: Violation, evidence: string, proposer: string,
                       timestamp: nat)
    ensures var (t, r) := Effect(s, Propose(offender, offense, evidence, proposer, timestamp));
            var id := "slash_" + offender + "_" + evidence + "_" + Digits(timestamp);
            if offender in s.validators && id !in s.proposals then
              && r == Id(id)
              && t == s.(proposals := s.proposals[id :=
                         Proposal(offender, offense, evidence, timestamp, proposer, [proposer], false, None)])
            else r == Err && t == s
  {
  }

  // ---------------------------------------------------------------- the remaining calls

  /** One field of one registered validator changes, or nothing does. */
  ghost predicate Changes(s: State, t: State, v: string, q: Profile) {
    t == s.(validators := s.validators[v := q])
  }

  lemma CountsExactly(s: State, v: string, timestamp: nat)
    ensures v !in s.validators ==>
              && Effect(s, RecordParticipation(v, timestamp)) == (s, Err)
              && Effect(s, RecordObservation(v)) == (s, Err) && Effect(s, EmergencyBan(v)) == (s, Err)
              && Effect(s, SetUnstaking(v)) == (s, Err)
    ensures v in s.validators ==>
              var p := s.validators[v];
              && Effect(s, RecordParticipation(v, timestamp)).1 == Ok
              && Changes(s, Effect(s, RecordParticipation(v, timestamp)).0, v,
                         p.(participated := p.participated + 1, observed := p.observed + 1,
                            lastParticipation := timestamp))
              && Effect(s, RecordObservation(v)).1 == Ok
              && Changes(s, Effect(s, RecordObservation(v)).0, v, p.(observed := p.observed + 1))
  {
  }

  lemma StatusExactly(s: State, v: string)
    requires v in s.validators
    ensures var p := s.validators[v];
            && Effect(s, EmergencyBan(v)).1 == Ok && Changes(s, Effect(s, EmergencyBan(v)).0, v, p.(status := Banned))
            && (if p.status == Active || p.status == Slashed then
                  && Effect(s, SetUnstaking(v)).1 == Ok
                  && Changes(s, Effect(s, SetUnstaking(v)).0, v, p.(status := Unstaking))
                else Effect(s, SetUnstaking(v)) == (s, Err))
  {
  }

  lemma MembersExactly(s: State, v: string, height: nat)
    ensures var (t, r) := Effect(s, Register(v));
            r == Ok && if v in s.validators then t == s
                       else Changes(s, t, v, Profile(v, Active, 0, [], 0, 0, 0, [], 0))
    ensures var (t, r) := Effect(s, RemoveValidator(v));
            && (r == Flag(true) <==> v in s.validators) && r.Flag?
            && t == s.(validators := map w | w in s.validators && w != v :: s.validators[w])
    ensures Effect(s, Clear) == (State(map[], [], 0, map[]), Ok)
    ensures Effect(s, UpdateHeight(height)) == (s.(height := height), Ok)
  {
  }
}
