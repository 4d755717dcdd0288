/** The token-bucket rate limiter: admission bound, and why sweeping idle buckets goes unnoticed. */
module RateLimiter {
  import opened Words
  import opened Isqrt

  const MILLITOKEN: nat := 1000
  const MILLISECOND: nat := 1_000_000
  const CLEANUP_INTERVAL: nat := 300_000_000_000
  const IDLE_LIMIT: nat := 600_000_000_000
  const IDLE_LIMIT_MS: nat := 600_000
  const U32_MAX: nat := 0xFFFF_FFFF

  /** Clock readings are in nanoseconds. */
  datatype Bucket = Bucket(tokens: nat, lastRefill: nat)

  /** Burst capacity in millitokens, and tokens gained per second (millitokens per millisecond). */
  datatype Config = Config(maxMilli: nat, rate: nat)

  type Buckets = map<string, Bucket>

  datatype State = State(buckets: Buckets, lastCleanup: nat)

  datatype Call = Call(ip: string, now: nat)

  ghost predicate Sensible(cfg: Config) {
    cfg.rate <= U32_MAX && cfg.maxMilli <= U32_MAX * MILLITOKEN && cfg.maxMilli % MILLITOKEN == 0
  }

  /** Whole milliseconds between two readings. */
  function Millis(from: nat, to: nat): nat {
    Monus(to, from) / MILLISECOND
  }

  // ---------------------------------------------------------------- one call

  function Refilled(cfg: Config, b: Bucket, now: nat): nat {
    Min(b.tokens + Millis(b.lastRefill, now) * cfg.rate, cfg.maxMilli)
  }

  function BucketOf(cfg: Config, bs: Buckets, c: Call): Bucket {
    if c.ip in bs then bs[c.ip] else Bucket(cfg.maxMilli, c.now)
  }

  predicate Admits(cfg: Config, bs: Buckets, c: Call) {
    Refilled(cfg, BucketOf(cfg, bs, c), c.now) >= MILLITOKEN
  }

  function Taken(cfg: Config, bs: Buckets, c: Call): Buckets {
    var tokens := Refilled(cfg, BucketOf(cfg, bs, c), c.now);
    bs[c.ip := Bucket(if tokens >= MILLITOKEN then tokens - MILLITOKEN else tokens, c.now)]
  }

  /** Drop the buckets idle for ten minutes or more, at most every five minutes. */
  function Swept(s: State, now: nat): State {
    if Monus(now, s.lastCleanup) >= CLEANUP_INTERVAL
    then State(map ip | ip in s.buckets && Monus(now, s.buckets[ip].lastRefill) < IDLE_LIMIT :: s.buckets[ip], now)
    else s
  }

  function Step(cfg: Config, s: State, c: Call): State {
    var t := Swept(s, c.now);
    t.(buckets := Taken(cfg, t.buckets, c))
  }

  /** The answer the limiter gives. */
  predicate Answer(cfg: Config, s: State, c: Call) {
    Admits(cfg, Swept(s, c.now).buckets, c)
  }

  // ---------------------------------------------------------------- runs

  ghost predicate Ordered(t: nat, calls: seq<Call>) {
    && (forall i :: 0 <= i < |calls| ==> t <= calls[i].now)
    && (forall i, j :: 0 <= i <= j < |calls| ==> calls[i].now <= calls[j].now)
  }

  ghost function Run(cfg: Config, s: State, calls: seq<Call>): State
    decreases |calls|
  {
    if calls == [] then s else Run(cfg, Step(cfg, s, calls[0]), calls[1..])
  }

  /** Requests of one address admitted in a run. */
  ghost function Admitted(cfg: Config, s: State, calls: seq<Call>, ip: string): nat
    decreases |calls|
  {
    if calls == [] then 0
    else
      (if calls[0].ip == ip && Answer(cfg, s, calls[0]) then 1 else 0)
      + Admitted(cfg, Step(cfg, s, calls[0]), calls[1..], ip)
  }

  /** The same limiter without sweeping. */
  ghost function AdmittedUnswept(cfg: Config, bs: Buckets, calls: seq<Call>, ip: string): nat
    decreases |calls|
  {
    if calls == [] then 0
    else
      (if calls[0].ip == ip && Admits(cfg, bs, calls[0]) then 1 else 0)
      + AdmittedUnswept(cfg, Taken(cfg, bs, calls[0]), calls[1..], ip)
  }

  // ---------------------------------------------------------------- the bound without sweeping

  lemma MillisAdd(a: nat, b: nat, c: nat)
    requires a <= b <= c
    ensures Millis(a, b) + Millis(b, c) <= Millis(a, c)
  {
  }

  lemma RefillArithmetic(rate: nat, x: nat, y: nat, z: nat)
    requires x + y <= z
    ensures x * rate + y * rate <= z * rate
  {
    MulMonotone(rate, x + y, z);
  }

  /** Admissions are paid for by the tokens there are and those gained until `until`. */
  lemma {:induction false} PaidFor(cfg: Config, bs: Buckets, calls: seq<Call>, ip: string, until: nat)
    requires ip in bs && Ordered(bs[ip].lastRefill, calls)
    requires forall i :: 0 <= i < |calls| ==> calls[i].now <= until
    requires bs[ip].lastRefill <= until
    ensures MILLITOKEN * AdmittedUnswept(cfg, bs, calls, ip) <=
            bs[ip].tokens + Millis(bs[ip].lastRefill, until) * cfg.rate
    decreases |calls|
  {
    if calls != [] {
      var c, b := calls[0], bs[ip];
      assert calls[0].now <= until && b.lastRefill <= calls[0].now;
      assert forall i :: 0 <= i < |calls[1..]| ==> calls[1..][i] == calls[i + 1];
      PaidFor(cfg, Taken(cfg, bs, c), calls[1..], ip, until);
      if c.ip == ip {
        MillisAdd(b.lastRefill, c.now, until);
        RefillArithmetic(cfg.rate, Millis(b.lastRefill, c.now), Millis(c.now, until), Millis(b.lastRefill, until));
      }
    }
  }

  // ---------------------------------------------------------------- sweeping goes unnoticed

  /** Ten idle minutes fill any bucket. */
  ghost predicate IdleFills(cfg: Config) {
    cfg.maxMilli <= IDLE_LIMIT_MS * cfg.rate
  }

  /** `bs` is `all` without some buckets that have been idle for ten minutes at time `t`. */
  ghost predicate OnlyIdleMissing(bs: Buckets, all: Buckets, t: nat) {
    && bs.Keys <= all.Keys
    && (forall ip :: ip in bs ==> bs[ip] == all[ip])
    && (forall ip :: ip in all && ip !in bs ==> all[ip].lastRefill + IDLE_LIMIT <= t)
  }

  lemma IdleIsFull(cfg: Config, b: Bucket, now: nat)
    requires IdleFills(cfg) && b.lastRefill + IDLE_LIMIT <= now
    ensures Refilled(cfg, b, now) == cfg.maxMilli
  {
    assert Millis(b.lastRefill, now) >= IDLE_LIMIT_MS;
    MulMonotone(cfg.rate, IDLE_LIMIT_MS, Millis(b.lastRefill, now));
  }

  lemma FreshIsFull(cfg: Config, now: nat)
    ensures Refilled(cfg, Bucket(cfg.maxMilli, now), now) == cfg.maxMilli
  {
  }

  lemma SweepOnlyIdle(s: State, all: Buckets, t: nat, now: nat)
    requires OnlyIdleMissing(s.buckets, all, t) && t <= now
    ensures OnlyIdleMissing(Swept(s, now).buckets, all, now)
  {
  }

  /** With or without the missing idle buckets, the call is answered alike and leaves the same bucket. */
  lemma SameAnswer(cfg: Config, bs: Buckets, all: Buckets, c: Call)
    requires IdleFills(cfg) && OnlyIdleMissing(bs, all, c.now)
    ensures Admits(cfg, bs, c) == Admits(cfg, all, c)
    ensures OnlyIdleMissing(Taken(cfg, bs, c), Taken(cfg, all, c), c.now)
  {
    if c.ip in all && c.ip !in bs {
      IdleIsFull(cfg, all[c.ip], c.now);
      FreshIsFull(cfg, c.now);
    }
  }

  /** If ten idle minutes fill a bucket, sweeping changes no answer in any run. */
  lemma {:induction false} SweepingIsUnobservable(cfg: Config, s: State, all: Buckets, t: nat, calls: seq<Call>,
                                                  ip: string)
    requires IdleFills(cfg) && OnlyIdleMissing(s.buckets, all, t) && Ordered(t, calls)
    ensures Admitted(cfg, s, calls, ip) == AdmittedUnswept(cfg, all, calls, ip)
    ensures forall i :: 0 <= i < |calls| ==> AnswerAt(cfg, s, calls, i) == AnswerAtUnswept(cfg, all, calls, i)
    decreases |calls|
  {
    if calls != [] {
      var c := calls[0];
      SweepOnlyIdle(s, all, t, c.now);
      SameAnswer(cfg, Swept(s, c.now).buckets, all, c);
      assert forall i :: 0 <= i < |calls[1..]| ==> calls[1..][i] == calls[i + 1];
      SweepingIsUnobservable(cfg, Step(cfg, s, c), Taken(cfg, all, c), c.now, calls[1..], ip);
      forall i | 0 <= i < |calls| ensures AnswerAt(cfg, s, calls, i) == AnswerAtUnswept(cfg, all, calls, i) {
        if i > 0 {
          assert AnswerAt(cfg, Step(cfg, s, c), calls[1..], i - 1)
              == AnswerAtUnswept(cfg, Taken(cfg, all, c), calls[1..], i - 1);
        }
      }
    }
  }

  /** The answer to call number `i` of a run. */
  ghost predicate AnswerAt(cfg: Config, s: State, calls: seq<Call>, i: nat)
    requires i < |calls|
    decreases i
  {
    if i == 0 then Answer(cfg, s, calls[0]) else AnswerAt(cfg, Step(cfg, s, calls[0]), calls[1..], i - 1)
  }

  ghost predicate AnswerAtUnswept(cfg: Config, bs: Buckets, calls: seq<Call>, i: nat)
    requires i < |calls|
    decreases i
  {
    if i == 0 then Admits(cfg, bs, calls[0]) else AnswerAtUnswept(cfg, Taken(cfg, bs, calls[0]), calls[1..], i - 1)
  }

  // ---------------------------------------------------------------- what every run keeps

  /** No bucket is over capacity, in the future, or older than one sweep would have left it. */
  ghost predicate Inv(cfg: Config, s: State, now: nat) {
    && Sensible(cfg) && s.lastCleanup <= now
    && forall ip :: ip in s.buckets ==>
         var b := s.buckets[ip];
         b.tokens <= cfg.maxMilli && b.lastRefill <= now && s.lastCleanup < b.lastRefill + IDLE_LIMIT
  }

  lemma StepKeepsInv(cfg: Config, s: State, now: nat, c: Call)
    requires Inv(cfg, s, now) && now <= c.now
    ensures Inv(cfg, Step(cfg, s, c), c.now)
  {
  }

  /** A bucket that survives the sweep is less than fifteen minutes old, so refilling stays within u64. */
  lemma RefillFits(cfg: Config, s: State, before: nat, c: Call)
    requires Inv(cfg, s, before) && before <= c.now
    ensures var b := BucketOf(cfg, Swept(s, c.now).buckets, c);
            && Millis(b.lastRefill, c.now) < 900_000
            && b.tokens + Millis(b.lastRefill, c.now) * cfg.rate <= U64_MAX
  {
    var b := BucketOf(cfg, Swept(s, c.now).buckets, c);
    RefillArithmetic(cfg.rate, Millis(b.lastRefill, c.now), 0, 900_000);
  }

  lemma {:induction false} RunKeepsInv(cfg: Config, s: State, now: nat, calls: seq<Call>)
    requires Inv(cfg, s, now) && Ordered(now, calls)
    ensures Inv(cfg, Run(cfg, s, calls), if calls == [] then now else calls[|calls| - 1].now)
    decreases |calls|
  {
    if calls != [] {
      var c := calls[0];
      StepKeepsInv(cfg, s, now, c);
      assert forall i :: 0 <= i < |calls[1..]| ==> calls[1..][i] == calls[i + 1];
      RunKeepsInv(cfg, Step(cfg, s, c), c.now, calls[1..]);
    }
  }

  // ---------------------------------------------------------------- the admission bound

  /** What the limiter promises for the calls from one by `ip` on. */
  ghost predicate WithinBound(cfg: Config, s: State, calls: seq<Call>, ip: string)
    requires calls != []
  {
    MILLITOKEN * Admitted(cfg, s, calls, ip) <=
      cfg.maxMilli + cfg.rate * Millis(calls[0].now, calls[|calls| - 1].now)
  }

  /**
   * Between any two calls from one address, of any run: admitted requests, in
   * millitokens, are at most the burst plus what the elapsed time refills.
   */
  lemma AdmissionBound(cfg: Config, s: State, now: nat, calls: seq<Call>, ip: string)
    requires Inv(cfg, s, now) && IdleFills(cfg)
    requires calls != [] && calls[0].ip == ip && Ordered(now, calls)
    ensures WithinBound(cfg, s, calls, ip)
  {
    var c, until := calls[0], calls[|calls| - 1].now;
    assert OnlyIdleMissing(s.buckets, s.buckets, now);
    SweepingIsUnobservable(cfg, s, s.buckets, now, calls, ip);
    var bs := Taken(cfg, s.buckets, c);
    assert forall i :: 0 <= i < |calls[1..]| ==> calls[1..][i] == calls[i + 1];
    PaidFor(cfg, bs, calls[1..], ip, until);
  }

  // ---------------------------------------------------------------- the bound fails where idling does not fill

  ghost function Copies(c: Call, n: nat): seq<Call> {
    if n == 0 then [] else [c] + Copies(c, n - 1)
  }

  lemma {:induction false} CopiesAre(c: Call, n: nat)
    ensures |Copies(c, n)| == n && forall i :: 0 <= i < n ==> Copies(c, n)[i] == c
  {
    if n > 0 { CopiesAre(c, n - 1); }
  }

  lemma {:induction false} AdmittedConcat(cfg: Config, s: State, a: seq<Call>, b: seq<Call>, ip: string)
    ensures Admitted(cfg, s, a + b, ip) == Admitted(cfg, s, a, ip) + Admitted(cfg, Run(cfg, s, a), b, ip)
    decreases |a|
  {
    if a == [] {
      assert a + b == b;
    } else {
      assert (a + b)[1..] == a[1..] + b;
      AdmittedConcat(cfg, Step(cfg, s, a[0]), a[1..], b, ip);
    }
  }

  /** `n` calls at one moment are all admitted when the bucket holds `n` tokens. */
  lemma {:induction false} Drain(cfg: Config, s: State, c: Call, n: nat)
    requires Refilled(cfg, BucketOf(cfg, Swept(s, c.now).buckets, c), c.now) >= n * MILLITOKEN
    requires n > 0 && Swept(s, c.now).buckets.Keys <= {c.ip}
    ensures Admitted(cfg, s, Copies(c, n), c.ip) == n
    ensures var t := Run(cfg, s, Copies(c, n));
            && t.lastCleanup == Swept(s, c.now).lastCleanup
            && t.buckets.Keys == {c.ip} && t.buckets[c.ip].lastRefill == c.now
    decreases n
  {
    var t := Step(cfg, s, c);
    assert Copies(c, n)[1..] == Copies(c, n - 1);
    assert Swept(t, c.now) == t;
    if n == 1 {
      assert Copies(c, 0) == [];
    } else {
      Drain(cfg, t, c, n - 1);
    }
  }

  const FRESH := State(map[], 0)

  /** A full burst, ten idle minutes, and another full burst. */
  ghost function TwoBursts(cfg: Config): seq<Call> {
    var n := cfg.maxMilli / MILLITOKEN;
    Copies(Call("peer", 0), n) + Copies(Call("peer", IDLE_LIMIT), n)
  }

  lemma TwoBurstsExceed(cfg: Config)
    requires Sensible(cfg) && !IdleFills(cfg)
    ensures TwoBursts(cfg) != [] && Ordered(0, TwoBursts(cfg)) && TwoBursts(cfg)[0].ip == "peer"
    ensures !WithinBound(cfg, FRESH, TwoBursts(cfg), "peer")
  {
    var n := cfg.maxMilli / MILLITOKEN;
    var c, d := Call("peer", 0), Call("peer", IDLE_LIMIT);
    CopiesAre(c, n);
    CopiesAre(d, n);
    FreshIsFull(cfg, 0);
    FreshIsFull(cfg, IDLE_LIMIT);
    Drain(cfg, FRESH, c, n);
    var s := Run(cfg, FRESH, Copies(c, n));
    assert Swept(s, IDLE_LIMIT).buckets == map[];
    Drain(cfg, s, d, n);
    AdmittedConcat(cfg, FRESH, Copies(c, n), Copies(d, n), "peer");
    assert TwoBursts(cfg)[|TwoBursts(cfg)| - 1] == d;
    assert Millis(0, IDLE_LIMIT) == IDLE_LIMIT_MS;
  }

  ghost predicate AlwaysWithinBound(cfg: Config) {
    forall calls: seq<Call> :: calls != [] && Ordered(0, calls) ==> WithinBound(cfg, FRESH, calls, calls[0].ip)
  }

  /** The admission bound holds for all runs exactly when ten idle minutes fill a bucket. */
  lemma BoundExactlyWhenIdleFills(cfg: Config)
    requires Sensible(cfg)
    ensures AlwaysWithinBound(cfg) <==> IdleFills(cfg)
  {
    if IdleFills(cfg) {
      forall calls: seq<Call> | calls != [] && Ordered(0, calls) ensures WithinBound(cfg, FRESH, calls, calls[0].ip) {
        AdmissionBound(cfg, FRESH, 0, calls, calls[0].ip);
      }
    } else {
      TwoBurstsExceed(cfg);
    }
  }

  // ---------------------------------------------------------------- the limiter, updated in place

  /** `new`: without a burst size, twice the rate (which wraps at 2^32). */
  ghost function Configured(rps: nat, burst: Option<nat>): Config {
    Config((if burst.Some? then burst.value else rps * 2 % 0x1_0000_0000) * MILLITOKEN, rps)
  }

  /** Without a burst size ten idle minutes always fill a bucket, so the bound holds. */
  lemma DefaultIdleFills(rps: nat)
    requires rps <= U32_MAX
    ensures Sensible(Configured(rps, None)) && IdleFills(Configured(rps, None))
  {
    var tokens := rps * 2 % 0x1_0000_0000;
    assert tokens <= rps * 2;
    assert (tokens * MILLITOKEN) % MILLITOKEN == 0;
  }

  class RateLimiter {
    var buckets: Buckets
    const maxMilli: nat
    const rate: nat
    var lastCleanup: nat

    ghost function Cfg(): Config {
      Config(maxMilli, rate)
    }

    ghost function Value(): State
      reads this
    {
      State(buckets, lastCleanup)
    }

    constructor (rps: nat, burst: Option<nat>, now: nat)
      requires rps <= U32_MAX && (burst.Some? ==> burst.value <= U32_MAX)
      ensures Cfg() == Configured(rps, burst) && Value() == State(map[], now)
      ensures Inv(Cfg(), Value(), now)
    {
      var maxTokens := if burst.Some? then burst.value else rps * 2 % 0x1_0000_0000;
      buckets := map[];
      maxMilli := maxTokens * MILLITOKEN;
      rate := rps;
      lastCleanup := now;
    }

    method CleanupIfNeeded(now: nat)
      modifies this
      ensures Value() == Swept(old(Value()), now)
    {
      if Monus(now, lastCleanup) >= CLEANUP_INTERVAL {
        buckets := map ip | ip in buckets && Monus(now, buckets[ip].lastRefill) < IDLE_LIMIT :: buckets[ip];
        lastCleanup := now;
      }
    }

    /** May a request from `ip` proceed? `before` is the time of the call before this one. */
    method CheckRateLimit(ip: string, now: nat, ghost before: nat) returns (allowed: bool)
      requires Inv(Cfg(), Value(), before) && before <= now
      modifies this
      ensures Value() == Step(Cfg(), old(Value()), Call(ip, now)) && Inv(Cfg(), Value(), now)
      ensures allowed <==> Answer(Cfg(), old(Value()), Call(ip, now))
    {
      RefillFits(Cfg(), Value(), before, Call(ip, now));
      StepKeepsInv(Cfg(), Value(), before, Call(ip, now));
      CleanupIfNeeded(now);
      if ip !in buckets {
        buckets := buckets[ip := Bucket(maxMilli, now)];
      }
      var bucket := buckets[ip];
      var elapsed := Millis(bucket.lastRefill, now);
      var gained: u64 := elapsed * rate;
      var sum: u64 := bucket.tokens + gained;
      var tokens: nat := Min(sum, maxMilli);
      if tokens >= MILLITOKEN {
        tokens := tokens - MILLITOKEN;
        allowed := true;
      } else {
        allowed := false;
      }
      buckets := buckets[ip := Bucket(tokens, now)];
    }
  }
}
