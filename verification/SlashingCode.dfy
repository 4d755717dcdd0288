/** The slashing manager as a node holds it, updated in place. */
module SlashingCode {
  import opened Words
  import opened Decimal
  import opened SlashingModel

  class SlashingManager {
    var validators: map<string, Profile>
    var events: seq<Event>
    var height: nat
    var proposals: map<string, Proposal>

    ghost function Value(): State
      reads this
    {
      State(validators, events, height, proposals)
    }

    constructor ()
      ensures Value() == EMPTY && Inv(Value())
    {
      validators := map[];
      events := [];
      height := 0;
      proposals := map[];
    }

    method RegisterValidator(v: string)
      modifies this`validators
      ensures (Value(), Ok) == Effect(old(Value()), Register(v))
    {
      if v !in validators {
        validators := validators[v := NewProfile(v)];
      }
    }

    /** Refused if a recent signature of the same height has another hash. */
    method RecordSignature(v: string, h: nat, hash: string, timestamp: nat) returns (r: Answer)
      modifies this`validators
      ensures (Value(), r) == Effect(old(Value()), Op.RecordSignature(v, h, hash, timestamp))
    {
      if v !in validators {
        return Err;
      }
      var p := validators[v];
      for i := 0 to |p.signatures|
        invariant forall j :: 0 <= j < i ==> !(p.signatures[j].height == h && p.signatures[j].hash != hash)
      {
        if p.signatures[i].height == h && p.signatures[i].hash != hash {
          return Err;
        }
      }
      var sigs := p.signatures + [Signature(h, hash, timestamp)];
      if |sigs| > RECENT_SIGNATURES {
        sigs := sigs[1..];
      }
      validators := validators[v := p.(signatures := sigs)];
      r := Ok;
    }

    method SlashDoubleSigning(v: string, h: nat, stake: u128, timestamp: nat) returns (r: Answer)
      modifies this`validators, this`events
      ensures (Value(), r) == DoubleSigningEffect(old(Value()), v, h, stake, timestamp)
    {
      if v !in validators {
        return Err;
      }
      var p := validators[v];
      if p.status == Banned {
        return Err;
      }
      var e := Event(h, v, DoubleSigning, stake, DOUBLE_SIGNING_SLASH_BPS, timestamp);
      p := p.(totalSlashed := WrapAdd(p.totalSlashed, stake), status := Banned, violations := p.violations + 1,
              history := p.history + [e]);
      validators := validators[v := p];
      events := events + [e];
      r := Amount(Some(stake));
    }

    method RecordBlockParticipation(v: string, timestamp: nat) returns (r: Answer)
      modifies this`validators
      ensures (Value(), r) == Effect(old(Value()), RecordParticipation(v, timestamp))
    {
      if v !in validators {
        return Err;
      }
      var p := validators[v];
      validators := validators[v := p.(participated := p.participated + 1, observed := p.observed + 1,
                                       lastParticipation := timestamp)];
      r := Ok;
    }

    method RecordBlockObservation(v: string) returns (r: Answer)
      modifies this`validators
      ensures (Value(), r) == Effect(old(Value()), RecordObservation(v))
    {
      if v !in validators {
        return Err;
      }
      validators := validators[v := validators[v].(observed := validators[v].observed + 1)];
      r := Ok;
    }

    method CheckAndSlashDowntime(v: string, h: nat, stake: u128, timestamp: nat) returns (r: Answer)
      modifies this`validators, this`events
      ensures (Value(), r) == DowntimeEffect(old(Value()), v, h, stake, timestamp)
    {
      if v !in validators {
        return Err;
      }
      var p := validators[v];
      if p.status == Banned {
        return Err;
      }
      if p.observed < DOWNTIME_WINDOW_BLOCKS || p.UptimeBps() >= MIN_UPTIME_BPS {
        return Amount(None);
      }
      var amount := DowntimeSlash(stake);
      var e := Event(h, v, ExtendedDowntime, amount, DOWNTIME_SLASH_BPS, timestamp);
      p := p.(totalSlashed := WrapAdd(p.totalSlashed, amount), status := Slashed, violations := p.violations + 1,
              history := p.history + [e]);
      events := events + [e];
      validators := validators[v := p.(participated := 0, observed := 0)];
      r := Amount(Some(amount));
    }

    method EmergencyBan(v: string) returns (r: Answer)
      modifies this`validators
      ensures (Value(), r) == Effect(old(Value()), Op.EmergencyBan(v))
    {
      if v !in validators {
        return Err;
      }
      validators := validators[v := validators[v].(status := Banned)];
      r := Ok;
    }

    method SetUnstaking(v: string) returns (r: Answer)
      modifies this`validators
      ensures (Value(), r) == Effect(old(Value()), Op.SetUnstaking(v))
    {
      if v !in validators {
        return Err;
      }
      match validators[v].status {
        case Banned => r := Err;
        case Unstaking => r := Err;
        case _ =>
          validators := validators[v := validators[v].(status := Unstaking)];
          r := Ok;
      }
    }

    method UpdateBlockHeight(h: nat)
      modifies this`height
      ensures (Value(), Ok) == Effect(old(Value()), UpdateHeight(h))
    {
      height := h;
    }

    method RemoveValidator(v: string) returns (found: bool)
      modifies this`validators
      ensures (Value(), Flag(found)) == Effect(old(Value()), Op.RemoveValidator(v))
    {
      found := v in validators;
      validators := validators - {v};
    }

    method ClearAll()
      modifies this
      ensures (Value(), Ok) == Effect(old(Value()), Clear)
    {
      validators, events, height, proposals := map[], [], 0, map[];
    }

    method ProposeSlash(offender: string, offense: Violation, evidence: string, proposer: string, timestamp: u64)
      returns (r: Answer)
      modifies this`proposals
      ensures (Value(), r) == Effect(old(Value()), Propose(offender, offense, evidence, proposer, timestamp))
    {
      if offender !in validators {
        return Err;
      }
      var digits := Print(timestamp);
      var id := "slash_" + offender + "_" + evidence + "_" + digits;
      if id in proposals {
        return Err;
      }
      proposals := proposals[id := Proposal(offender, offense, evidence, timestamp, proposer, [proposer], false, None)];
      r := Id(id);
    }

    /** The slash asked for by a proposal with enough confirmations. */
    method ExecutePenalty(p: Proposal, timestamp: nat) returns (r: Answer)
      modifies this`validators, this`events
      ensures (Value(), r) == PenaltyEffect(old(Value()), p, timestamp)
    {
      var stake := if p.stake.Some? then p.stake.value else 0;
      match p.offense {
        case DoubleSigning => r := SlashDoubleSigning(p.offender, height, stake, timestamp);
        case ExtendedDowntime => r := CheckAndSlashDowntime(p.offender, height, stake, timestamp);
        case FraudulentTransaction => r := SlashDoubleSigning(p.offender, height, stake, timestamp);
      }
    }

    method ConfirmSlash(id: string, confirmer: string, validatorCount: nat, timestamp: nat, newStake: Option<u128>)
      returns (r: Answer)
      modifies this`validators, this`events, this`proposals
      ensures (Value(), r) == Effect(old(Value()), Confirm(id, confirmer, validatorCount, timestamp, newStake))
    {
      if id !in proposals {
        return Err;
      }
      var p := proposals[id];
      if newStake.Some? {
        p := p.(stake := newStake);
      }
      proposals := proposals[id := p];
      if p.executed {
        return Err;
      }
      if confirmer !in p.confirmations {
        p := p.(confirmations := p.confirmations + [confirmer]);
      }
      proposals := proposals[id := p];
      assert proposals == old(proposals)[id := p];
      var threshold := validatorCount * 2 / 3 + 1;
      if |p.confirmations| < threshold {
        return Flag(false);
      }
      var penalty := ExecutePenalty(p, timestamp);
      if penalty == Err {
        return Err;
      }
      proposals := proposals[id := p.(executed := true)];
      r := Flag(true);
    }
  }
}
