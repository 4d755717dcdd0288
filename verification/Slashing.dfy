/** Validator slashing: the state machine of profiles and proposals, and what holds over every run. */
module SlashingModel {
  import opened Words
  import opened Decimal
  import opened Isqrt

  const DOUBLE_SIGNING_SLASH_BPS: nat := 10_000
  const DOWNTIME_SLASH_BPS: nat := 100
  const DOWNTIME_WINDOW_BLOCKS: nat := 50_000
  const MIN_UPTIME_BPS: nat := 9_500
  const RECENT_SIGNATURES: nat := 1_000

  datatype Status = Active | Slashed | Banned | Unstaking

  datatype Violation = DoubleSigning | ExtendedDowntime | FraudulentTransaction

  datatype Event = Event(height: nat, validator: string, violation: Violation, amount: u128, bps: nat, timestamp: nat)

  datatype Signature = Signature(height: nat, hash: string, timestamp: nat)

  datatype Profile = Profile(
    address: string, status: Status, totalSlashed: u128, signatures: seq<Signature>, participated: nat, observed: nat,
    lastParticipation: nat, history: seq<Event>, violations: nat)
  {
    /** Uptime in basis points. */
    function UptimeBps(): nat {
      if observed == 0 then 10_000 else participated * 10_000 / observed % 0x1_0000_0000
    }
  }

  datatype Proposal = Proposal(
    offender: string, offense: Violation, evidence: string, proposedAt: nat, proposer: string,
    confirmations: seq<string>, executed: bool, stake: Option<u128>)

  datatype State = State(
    validators: map<string, Profile>, events: seq<Event>, height: nat, proposals: map<string, Proposal>)

  const EMPTY := State(map[], [], 0, map[])

  /** What a call returns. */
  datatype Answer = Err | Ok | Amount(amount: Option<u128>) | Flag(flag: bool) | Id(id: string)

  function NewProfile(v: string): Profile {
    Profile(v, Active, 0, [], 0, 0, 0, [], 0)
  }

  ghost function ProposalId(offender: string, evidence: string, timestamp: nat): string {
    "slash_" + offender + "_" + evidence + "_" + Digits(timestamp)
  }

  // ---------------------------------------------------------------- single profiles

  predicate Conflicts(p: Profile, height: nat, hash: string) {
    exists i :: 0 <= i < |p.signatures| && p.signatures[i].height == height && p.signatures[i].hash != hash
  }

  function WithSignature(p: Profile, sig: Signature): Profile {
    var sigs := p.signatures + [sig];
    p.(signatures := if |sigs| > RECENT_SIGNATURES then sigs[1..] else sigs)
  }

  /** The slash booked on a profile; the total wraps at 2^128, as in a release build. */
  function Booked(p: Profile, e: Event, status: Status): Profile {
    p.(totalSlashed := WrapAdd(p.totalSlashed, e.amount), status := status, violations := p.violations + 1,
       history := p.history + [e])
  }

  predicate Absent(p: Profile) {
    p.observed >= DOWNTIME_WINDOW_BLOCKS && p.UptimeBps() < MIN_UPTIME_BPS
  }

  /** One percent of the stake, rounded up; the product wraps at 2^128. */
  function DowntimeSlash(stake: u128): u128 {
    (stake * DOWNTIME_SLASH_BPS % (U128_MAX + 1) + 9_999) / 10_000
  }

  /** Two thirds of the validators and one. */
  function Threshold(validators: nat): nat {
    validators * 2 / 3 + 1
  }

  // ---------------------------------------------------------------- calls

  datatype Op =
    | Register(v: string)
    | RecordSignature(v: string, height: nat, hash: string, timestamp: nat)
    | SlashDoubleSigning(v: string, height: nat, stake: u128, timestamp: nat)
    | RecordParticipation(v: string, timestamp: nat)
    | RecordObservation(v: string)
    | CheckDowntime(v: string, height: nat, stake: u128, timestamp: nat)
    | EmergencyBan(v: string)
    | SetUnstaking(v: string)
    | UpdateHeight(height: nat)
    | RemoveValidator(v: string)
    | Clear
    | Propose(offender: string, offense: Violation, evidence: string, proposer: string, timestamp: nat)
    | Confirm(id: string, confirmer: string, validatorCount: nat, timestamp: nat, newStake: Option<u128>)

  function WithProfile(s: State, v: string, p: Profile): State {
    s.(validators := s.validators[v := p])
  }

  function DoubleSigningEffect(s: State, v: string, height: nat, stake: u128, timestamp: nat): (State, Answer) {
    if v !in s.validators || s.validators[v].status == Banned then (s, Err)
    else
      var e := Event(height, v, DoubleSigning, stake, DOUBLE_SIGNING_SLASH_BPS, timestamp);
      (WithProfile(s, v, Booked(s.validators[v], e, Banned)).(events := s.events + [e]), Amount(Some(stake)))
  }

  function DowntimeEffect(s: State, v: string, height: nat, stake: u128, timestamp: nat): (State, Answer) {
    if v !in s.validators || s.validators[v].status == Banned then (s, Err)
    else if !Absent(s.validators[v]) then (s, Amount(None))
    else
      var e := Event(height, v, ExtendedDowntime, DowntimeSlash(stake), DOWNTIME_SLASH_BPS, timestamp);
      var p := Booked(s.validators[v], e, Slashed).(participated := 0, observed := 0);
      (WithProfile(s, v, p).(events := s.events + [e]),
       Amount(Some(e.amount)))
  }

  /** The slash a proposal asks for; fraud counts as double signing. */
  function PenaltyEffect(s: State, p: Proposal, timestamp: nat): (State, Answer) {
    var stake := if p.stake.Some? then p.stake.value else 0;
    if p.offense == ExtendedDowntime then DowntimeEffect(s, p.offender, s.height, stake, timestamp)
    else DoubleSigningEffect(s, p.offender, s.height, stake, timestamp)
  }

  function WithConfirmation(p: Proposal, confirmer: string): Proposal {
    if confirmer in p.confirmations then p else p.(confirmations := p.confirmations + [confirmer])
  }

  function WithProposal(s: State, id: string, p: Proposal): State {
    s.(proposals := s.proposals[id := p])
  }

  /** The stake is updated even if the proposal is executed; a failing slash leaves the confirmation. */
  function ConfirmEffect(s: State, id: string, confirmer: string, n: nat, timestamp: nat, newStake: Option<u128>)
    : (State, Answer)
  {
    if id !in s.proposals then (s, Err)
    else
      var p := if newStake.Some? then s.proposals[id].(stake := newStake) else s.proposals[id];
      if p.executed then (WithProposal(s, id, p), Err)
      else
        var q := WithConfirmation(p, confirmer);
        var t := WithProposal(s, id, q);
        if |q.confirmations| < Threshold(n) then (t, Flag(false))
        else
          var (u, answer) := PenaltyEffect(t, q, timestamp);
          if answer == Err then (u, Err) else (WithProposal(u, id, q.(executed := true)), Flag(true))
  }

  ghost function ProposeEffect(s: State, offender: string, offense: Violation, evidence: string, proposer: string,
                               timestamp: nat): (State, Answer)
  {
    var id := ProposalId(offender, evidence, timestamp);
    if offender !in s.validators || id in s.proposals then (s, Err)
    else
      var p := Proposal(offender, offense, evidence, timestamp, proposer, [proposer], false, None);
      (WithProposal(s, id, p), Id(id))
  }

  ghost function Effect(s: State, op: Op): (State, Answer) {
    match op
    case Register(v) => (if v in s.validators then s else WithProfile(s, v, NewProfile(v)), Ok)
    case RecordSignature(v, height, hash, timestamp) =>
      if v !in s.validators || Conflicts(s.validators[v], height, hash) then (s, Err)
      else (WithProfile(s, v, WithSignature(s.validators[v], Signature(height, hash, timestamp))), Ok)
    case SlashDoubleSigning(v, height, stake, timestamp) => DoubleSigningEffect(s, v, height, stake, timestamp)
    case RecordParticipation(v, timestamp) =>
      if v !in s.validators then (s, Err)
      else
        var p := s.validators[v];
        (WithProfile(s, v, p.(participated := p.participated + 1, observed := p.observed + 1,
                              lastParticipation := timestamp)), Ok)
    case RecordObservation(v) =>
      if v !in s.validators then (s, Err)
      else (WithProfile(s, v, s.validators[v].(observed := s.validators[v].observed + 1)), Ok)
    case CheckDowntime(v, height, stake, timestamp) => DowntimeEffect(s, v, height, stake, timestamp)
    case EmergencyBan(v) =>
      if v !in s.validators then (s, Err) else (WithProfile(s, v, s.validators[v].(status := Banned)), Ok)
    case SetUnstaking(v) =>
      if v !in s.validators || s.validators[v].status in {Banned, Unstaking} then (s, Err)
      else (WithProfile(s, v, s.validators[v].(status := Unstaking)), Ok)
    case UpdateHeight(h) => (s.(height := h), Ok)
    case RemoveValidator(v) => (s.(validators := s.validators - {v}), Flag(v in s.validators))
    case Clear => (EMPTY, Ok)
    case Propose(offender, offense, evidence, proposer, timestamp) =>
      ProposeEffect(s, offender, offense, evidence, proposer, timestamp)
    case Confirm(id, confirmer, n, timestamp, newStake) => ConfirmEffect(s, id, confirmer, n, timestamp, newStake)
  }

  ghost function Run(s: State, ops: seq<Op>): State
    decreases |ops|
  {
    if ops == [] then s else Run(Effect(s, ops[0]).0, ops[1..])
  }

  // ---------------------------------------------------------------- what every run keeps

  ghost function SumOf(events: seq<Event>): nat {
    if events == [] then 0 else SumOf(events[..|events| - 1]) + events[|events| - 1].amount
  }

  /** No two recent signatures of one height differ. */
  ghost predicate Consistent(sigs: seq<Signature>) {
    forall i, j :: 0 <= i < j < |sigs| && sigs[i].height == sigs[j].height ==> sigs[i].hash == sigs[j].hash
  }

  ghost predicate ProfileInv(p: Profile) {
    && |p.signatures| <= RECENT_SIGNATURES && Consistent(p.signatures)
    && p.totalSlashed == SumOf(p.history) % (U128_MAX + 1)
    && p.participated <= p.observed
  }

  ghost predicate NoRepeats(names: seq<string>) {
    forall i, j :: 0 <= i < j < |names| ==> names[i] != names[j]
  }

  ghost predicate Inv(s: State) {
    && (forall v :: v in s.validators ==> ProfileInv(s.validators[v]))
    && (forall id :: id in s.proposals ==> NoRepeats(s.proposals[id].confirmations))
  }

  lemma SignatureKeepsInv(p: Profile, sig: Signature)
    requires ProfileInv(p) && !Conflicts(p, sig.height, sig.hash)
    ensures ProfileInv(WithSignature(p, sig))
  {
    var sigs := p.signatures + [sig];
    assert Consistent(sigs);
    assert Consistent(sigs[1..]);
  }

  lemma WrappedSum(total: nat, amount: u128)
    ensures WrapAdd(total % (U128_MAX + 1), amount) == (total + amount) % (U128_MAX + 1)
  {
  }

  lemma BookingKeepsInv(p: Profile, e: Event, status: Status)
    requires ProfileInv(p)
    ensures ProfileInv(Booked(p, e, status))
  {
    var history := p.history + [e];
    assert history[..|history| - 1] == p.history;
    WrappedSum(SumOf(p.history), e.amount);
  }

  lemma DoubleSigningKeepsInv(s: State, v: string, height: nat, stake: u128, timestamp: nat)
    requires Inv(s)
    ensures Inv(DoubleSigningEffect(s, v, height, stake, timestamp).0)
  {
    if v in s.validators {
      var e := Event(height, v, DoubleSigning, stake, DOUBLE_SIGNING_SLASH_BPS, timestamp);
      BookingKeepsInv(s.validators[v], e, Banned);
    }
  }

  lemma DowntimeKeepsInv(s: State, v: string, height: nat, stake: u128, timestamp: nat)
    requires Inv(s)
    ensures Inv(DowntimeEffect(s, v, height, stake, timestamp).0)
  {
    if v in s.validators {
      BookingKeepsInv(s.validators[v],
        Event(height, v, ExtendedDowntime, DowntimeSlash(stake), DOWNTIME_SLASH_BPS, timestamp), Slashed);
    }
  }

  lemma PenaltyKeepsInv(s: State, p: Proposal, timestamp: nat)
    requires Inv(s)
    ensures Inv(PenaltyEffect(s, p, timestamp).0)
  {
    var stake := if p.stake.Some? then p.stake.value else 0;
    DoubleSigningKeepsInv(s, p.offender, s.height, stake, timestamp);
    DowntimeKeepsInv(s, p.offender, s.height, stake, timestamp);
  }

  lemma ProposalKeepsInv(s: State, id: string, p: Proposal)
    requires Inv(s) && NoRepeats(p.confirmations)
    ensures Inv(WithProposal(s, id, p))
  {
  }

  lemma ConfirmKeepsInv(s: State, id: string, confirmer: string, n: nat, timestamp: nat, newStake: Option<u128>)
    requires Inv(s)
    ensures Inv(ConfirmEffect(s, id, confirmer, n, timestamp, newStake).0)
  {
    if id in s.proposals {
      var p := if newStake.Some? then s.proposals[id].(stake := newStake) else s.proposals[id];
      var q := WithConfirmation(p, confirmer);
      assert NoRepeats(s.proposals[id].confirmations);
      ProposalKeepsInv(s, id, p);
      ProposalKeepsInv(s, id, q);
      var t := WithProposal(s, id, q);
      PenaltyKeepsInv(t, q, timestamp);
      ProposalKeepsInv(PenaltyEffect(t, q, timestamp).0, id, q.(executed := true));
    }
  }

  lemma EffectKeepsInv(s: State, op: Op)
    requires Inv(s)
    ensures Inv(Effect(s, op).0)
  {
    match op
    case RecordSignature(v, height, hash, timestamp) =>
      if v in s.validators && !Conflicts(s.validators[v], height, hash) {
        SignatureKeepsInv(s.validators[v], Signature(height, hash, timestamp));
      }
    case SlashDoubleSigning(v, height, stake, timestamp) => DoubleSigningKeepsInv(s, v, height, stake, timestamp);
    case CheckDowntime(v, height, stake, timestamp) => DowntimeKeepsInv(s, v, height, stake, timestamp);
    case Confirm(id, confirmer, n, timestamp, newStake) => ConfirmKeepsInv(s, id, confirmer, n, timestamp, newStake);
    case _ =>
  }

  /**
   * Over every run: totals are the sums of the histories (modulo 2^128), recent
   * signatures never hold two hashes for a height, and nobody confirms twice.
   */
  lemma {:induction false} RunKeepsInv(s: State, ops: seq<Op>)
    requires Inv(s)
    ensures Inv(Run(s, ops))
    decreases |ops|
  {
    if ops != [] {
      EffectKeepsInv(s, ops[0]);
      RunKeepsInv(Effect(s, ops[0]).0, ops[1..]);
    }
  }

  // ---------------------------------------------------------------- downtime

  /** The smallest amount that is at least one percent of the stake, exactly when its hundredfold fits. */
  lemma DowntimeSlashIsOnePercent(stake: u128)
    ensures stake <= 100 * DowntimeSlash(stake) < stake + 100 <==> stake * DOWNTIME_SLASH_BPS <= U128_MAX
  {
  }

  /** Uptime in basis points is below the minimum exactly when less than 95% of the blocks were signed. */
  lemma AbsentExactly(p: Profile)
    requires ProfileInv(p)
    ensures p.UptimeBps() <= 10_000
    ensures Absent(p) <==> p.observed >= DOWNTIME_WINDOW_BLOCKS && 100 * p.participated < 95 * p.observed
  {
    if p.observed > 0 {
      var q := p.participated * 10_000 / p.observed;
      RatioAtMost(p.participated, p.observed);
      RatioBelow(p.participated, p.observed, MIN_UPTIME_BPS);
      assert q <= 10_000;
    }
  }

  lemma RatioAtMost(a: nat, b: nat)
    requires a <= b && b > 0
    ensures a * 10_000 / b <= 10_000
  {
    QuotientBounds(a * 10_000, b);
    if a * 10_000 / b > 10_000 { MulMonotone(b, 10_001, a * 10_000 / b); }
  }

  lemma RatioBelow(a: nat, b: nat, k: nat)
    requires b > 0
    ensures a * 10_000 / b < k <==> a * 10_000 < k * b
  {
    var q := a * 10_000 / b;
    QuotientBounds(a * 10_000, b);
    if q < k { MulMonotone(b, q + 1, k); } else { MulMonotone(b, k, q); }
  }

  // ---------------------------------------------------------------- bans

  /** The calls that lift a ban. */
  ghost predicate Forgets(op: Op, v: string) {
    op == Clear || op == RemoveValidator(v)
  }

  ghost predicate BannedWith(s: State, v: string, total: u128, history: seq<Event>) {
    v in s.validators && s.validators[v].status == Banned && s.validators[v].totalSlashed == total
    && s.validators[v].history == history
  }

  lemma BanPersists(s: State, op: Op, v: string, total: u128, history: seq<Event>)
    requires BannedWith(s, v, total, history) && !Forgets(op, v)
    ensures BannedWith(Effect(s, op).0, v, total, history)
  {
  }

  /** A ban is permanent, and freezes total and history, until the validator is removed or all is cleared. */
  lemma {:induction false} BanIsPermanent(s: State, ops: seq<Op>, v: string, total: u128, history: seq<Event>)
    requires BannedWith(s, v, total, history) && forall op :: op in ops ==> !Forgets(op, v)
    ensures BannedWith(Run(s, ops), v, total, history)
    decreases |ops|
  {
    if ops != [] {
      BanPersists(s, ops[0], v, total, history);
      BanIsPermanent(Effect(s, ops[0]).0, ops[1..], v, total, history);
    }
  }

  // ---------------------------------------------------------------- executions

  ghost predicate Executed(s: State, id: string) {
    id in s.proposals && s.proposals[id].executed
  }

  ghost predicate Executes(s: State, op: Op, id: string) {
    !Executed(s, id) && Executed(Effect(s, op).0, id)
  }

  /** Only a confirmation with a quorum executes, and the offender was not banned before. */
  lemma ExecutionNeedsQuorum(s: State, op: Op, id: string)
    requires Inv(s) && Executes(s, op, id)
    ensures op.Confirm? && op.id == id && Effect(s, op).1 == Flag(true)
    ensures var p := Effect(s, op).0.proposals[id];
            && NoRepeats(p.confirmations) && |p.confirmations| >= Threshold(op.validatorCount)
            && op.confirmer in p.confirmations
            && p.offender in s.validators && s.validators[p.offender].status != Banned
  {
    EffectKeepsInv(s, op);
  }

  lemma ExecutedStays(s: State, op: Op, id: string)
    requires Executed(s, id) && op != Clear
    ensures Executed(Effect(s, op).0, id)
    ensures Effect(s, op).0.proposals[id].confirmations == s.proposals[id].confirmations
    ensures op.Confirm? && op.id == id ==> Effect(s, op).1 == Err && Effect(s, op).0.validators == s.validators
  {
  }

  ghost function Executions(s: State, ops: seq<Op>, id: string): nat
    decreases |ops|
  {
    if ops == [] then 0
    else (if Executes(s, ops[0], id) then 1 else 0) + Executions(Effect(s, ops[0]).0, ops[1..], id)
  }

  /** A proposal executes at most once in any run without a clear. */
  lemma {:induction false} ExecutesAtMostOnce(s: State, ops: seq<Op>, id: string)
    requires forall op :: op in ops ==> op != Clear
    ensures Executions(s, ops, id) + (if Executed(s, id) then 1 else 0) <= 1
    decreases |ops|
  {
    if ops != [] {
      assert ops[0] in ops && forall op :: op in ops[1..] ==> op in ops;
      if Executed(s, id) { ExecutedStays(s, ops[0], id); }
      ExecutesAtMostOnce(Effect(s, ops[0]).0, ops[1..], id);
    }
  }

  lemma {:induction false} DistinctNames(names: seq<string>)
    requires NoRepeats(names)
    ensures |(set i | 0 <= i < |names| :: names[i])| == |names|
  {
    if names != [] {
      var b, x := names[..|names| - 1], names[|names| - 1];
      DistinctNames(b);
      assert (set i | 0 <= i < |names| :: names[i]) == (set i | 0 <= i < |b| :: b[i]) + {x};
    }
  }

  /** If at most a third of `n` names are faulty, more than a third of `n` confirmed an executed proposal honestly. */
  lemma QuorumIsHonest(names: seq<string>, n: nat, faulty: set<string>)
    requires NoRepeats(names) && |names| >= Threshold(n) && 3 * |faulty| <= n
    ensures 3 * |(set i | 0 <= i < |names| :: names[i]) - faulty| > n
  {
    DistinctNames(names);
    var all := set i | 0 <= i < |names| :: names[i];
    assert |all - faulty| >= |all| - |faulty| by {
      assert all == (all - faulty) + (all * faulty);
      Smaller(all * faulty, faulty);
    }
  }

  lemma {:induction false} Smaller(a: set<string>, b: set<string>)
    requires a <= b
    ensures |a| <= |b|
  {
    if a != {} {
      var x :| x in a;
      Smaller(a - {x}, b - {x});
    }
  }
}
