/** What the limiter answers, in tokens and milliseconds, and that within the rate nobody is denied. */
module RateLimiterAnswers {
  import opened Words
  import opened Isqrt
  import opened RateLimiter

  /** Whole milliseconds from one reading, in nanoseconds, to another. */
  ghost function WholeMillis(from: nat, to: nat): nat {
    if from <= to then (to - from) / 1_000_000 else 0
  }

  /** The buckets a call finds: every five minutes those idle for ten minutes have been dropped. */
  ghost function Found(s: State, now: nat): Buckets {
    if now - s.lastCleanup < 300_000_000_000 then s.buckets
    else map ip | ip in s.buckets && now - s.buckets[ip].lastRefill < 600_000_000_000 :: s.buckets[ip]
  }

  /** What an address has when it calls: what it had and what it gained, at most the burst; the burst if it is new. */
  ghost function Tokens(cfg: Config, s: State, c: Call): nat {
    var found := Found(s, c.now);
    if c.ip !in found then cfg.maxMilli
    else
      var n := found[c.ip].tokens + WholeMillis(found[c.ip].lastRefill, c.now) * cfg.rate;
      if n <= cfg.maxMilli then n else cfg.maxMilli
  }

  /** A request is admitted if and only if there are 1,000 millitokens, which it takes; no other address is touched. */
  lemma CallExactly(cfg: Config, s: State, c: Call)
    ensures Answer(cfg, s, c) <==> Tokens(cfg, s, c) >= 1_000
    ensures var t := Step(cfg, s, c);
            && t.buckets == Found(s, c.now)[c.ip :=
                 Bucket(Tokens(cfg, s, c) - (if Answer(cfg, s, c) then 1_000 else 0), c.now)]
            && t.lastCleanup == if c.now - s.lastCleanup < 300_000_000_000 then s.lastCleanup else c.now
  {
    assert Swept(s, c.now).buckets == Found(s, c.now);
  }

  // ---------------------------------------------------------------- every token is accounted for

  /** The milliseconds between the calls of one address, from `last` on. */
  ghost function Gaps(last: nat, calls: seq<Call>, ip: string): nat
    decreases |calls|
  {
    if calls == [] then 0
    else if calls[0].ip == ip then WholeMillis(last, calls[0].now) + Gaps(calls[0].now, calls[1..], ip)
    else Gaps(last, calls[1..], ip)
  }

  /** Throughout the run the address is never idle for ten minutes, and never at its burst cap. */
  ghost predicate BelowCap(cfg: Config, s: State, calls: seq<Call>, ip: string)
    decreases |calls|
  {
    calls == [] ||
    (&& ip in s.buckets
     && var (c, b) := (calls[0], s.buckets[ip]);
     && b.lastRefill <= c.now < b.lastRefill + 600_000_000_000
     && (c.ip == ip ==> b.tokens + WholeMillis(b.lastRefill, c.now) * cfg.rate <= cfg.maxMilli)
     && BelowCap(cfg, Step(cfg, s, c), calls[1..], ip))
  }

  lemma StepAccount(cfg: Config, s: State, c: Call, ip: string)
    requires ip in s.buckets
    requires var b := s.buckets[ip];
             && b.lastRefill <= c.now < b.lastRefill + 600_000_000_000
             && (c.ip == ip ==> b.tokens + WholeMillis(b.lastRefill, c.now) * cfg.rate <= cfg.maxMilli)
    ensures var b, t := s.buckets[ip], Step(cfg, s, c);
            && ip in t.buckets
            && if c.ip == ip then
                 && t.buckets[ip].lastRefill == c.now
                 && t.buckets[ip].tokens + (if Answer(cfg, s, c) then 1_000 else 0) ==
                    b.tokens + WholeMillis(b.lastRefill, c.now) * cfg.rate
               else t.buckets[ip] == b
  {
    CallExactly(cfg, s, c);
    hide Step, Answer;
  }

  lemma Distributes(x: nat, y: nat, rate: nat)
    ensures (x + y) * rate == x * rate + y * rate
  {
  }

  /**
   * As long as the cap is not hit, the tokens at the end and those paid for admissions are the
   * tokens at the start and what the gaps between the calls have gained: nothing is lost.
   */
  lemma {:induction false} TokensAccountedFor(cfg: Config, s: State, calls: seq<Call>, ip: string)
    requires ip in s.buckets && BelowCap(cfg, s, calls, ip)
    ensures ip in Run(cfg, s, calls).buckets
    ensures Run(cfg, s, calls).buckets[ip].tokens + 1_000 * Admitted(cfg, s, calls, ip) ==
            s.buckets[ip].tokens + Gaps(s.buckets[ip].lastRefill, calls, ip) * cfg.rate
    decreases |calls|
  {
    hide Step, Answer, WholeMillis;
    if calls != [] {
      var c, b := calls[0], s.buckets[ip];
      StepAccount(cfg, s, c, ip);
      TokensAccountedFor(cfg, Step(cfg, s, c), calls[1..], ip);
      if c.ip == ip { Distributes(WholeMillis(b.lastRefill, c.now), Gaps(c.now, calls[1..], ip), cfg.rate); }
    }
  }

  // ---------------------------------------------------------------- within the rate

  /** The calls of the address are at least `gap` milliseconds apart, the first from `last`, if there is one. */
  ghost predicate Spaced(last: Option<nat>, calls: seq<Call>, ip: string, gap: nat)
    decreases |calls|
  {
    calls == [] ||
    if calls[0].ip == ip
    then
      && (last.Some? ==> last.value + gap * 1_000_000 <= calls[0].now)
      && Spaced(Some(calls[0].now), calls[1..], ip, gap)
    else Spaced(last, calls[1..], ip, gap)
  }

  /** All its calls are admitted. */
  ghost predicate NeverDenied(cfg: Config, s: State, calls: seq<Call>, ip: string)
    decreases |calls|
  {
    calls == [] ||
    ((calls[0].ip == ip ==> Answer(cfg, s, calls[0])) && NeverDenied(cfg, Step(cfg, s, calls[0]), calls[1..], ip))
  }

  /** When the address last called, as far as the limiter knows. */
  ghost function LastCall(s: State, ip: string): Option<nat> {
    if ip in s.buckets then Some(s.buckets[ip].lastRefill) else None
  }

  lemma WaitedEnough(from: nat, to: nat, gap: nat, rate: nat)
    requires from + gap * 1_000_000 <= to && gap * rate >= 1_000
    ensures WholeMillis(from, to) * rate >= 1_000
  {
    MulMonotone(rate, gap, WholeMillis(from, to));
  }

  lemma AdmittedWhenSpaced(cfg: Config, s: State, c: Call, gap: nat)
    requires cfg.maxMilli >= 1_000 && gap * cfg.rate >= 1_000
    requires c.ip in s.buckets ==> s.buckets[c.ip].lastRefill + gap * 1_000_000 <= c.now
    ensures Answer(cfg, s, c)
  {
    CallExactly(cfg, s, c);
    if c.ip in s.buckets { WaitedEnough(s.buckets[c.ip].lastRefill, c.now, gap, cfg.rate); }
    hide Answer, Step, WholeMillis;
  }

  lemma {:induction false} SpacedWithoutLast(last: Option<nat>, calls: seq<Call>, ip: string, gap: nat)
    requires Spaced(last, calls, ip, gap)
    ensures Spaced(None, calls, ip, gap)
    decreases |calls|
  {
    if calls != [] && calls[0].ip != ip { SpacedWithoutLast(last, calls[1..], ip, gap); }
  }

  /** An address that never asks for more than the rate is never denied, whatever others do. */
  lemma {:induction false} WithinRateNeverDenied(cfg: Config, s: State, calls: seq<Call>, ip: string, gap: nat)
    requires cfg.maxMilli >= 1_000 && gap * cfg.rate >= 1_000 && Spaced(LastCall(s, ip), calls, ip, gap)
    ensures NeverDenied(cfg, s, calls, ip)
    decreases |calls|
  {
    if calls != [] {
      var c, t := calls[0], Step(cfg, s, calls[0]);
      CallExactly(cfg, s, c);
      if c.ip == ip {
        AdmittedWhenSpaced(cfg, s, c, gap);
      } else if ip !in t.buckets {
        SpacedWithoutLast(LastCall(s, ip), calls[1..], ip, gap);
      }
      assert Spaced(LastCall(t, ip), calls[1..], ip, gap);
      hide Step, Answer, Tokens;
      WithinRateNeverDenied(cfg, t, calls[1..], ip, gap);
    }
  }

  /** The configured limits: the burst, or twice the rate in u32, and the rate. */
  lemma ConfiguredIs(rps: nat, burst: Option<nat>)
    ensures Configured(rps, burst).rate == rps
    ensures burst.Some? ==> Configured(rps, burst).maxMilli == 1_000 * burst.value
    ensures burst.None? && 2 * rps < 0x1_0000_0000 ==> Configured(rps, burst).maxMilli == 2_000 * rps
  {
  }
}
