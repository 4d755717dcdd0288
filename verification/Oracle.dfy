/** The price oracle: one submission a validator, and a median that a faulty minority cannot move. */
module Oracle {
  import opened Words

  /** Prices are in micro-USD. */
  datatype Submission = Submission(eth: u128, btc: u128, timestamp: u64)

  type Submissions = map<string, Submission>

  // ---------------------------------------------------------------- submitting

  datatype Submit = Submit(validator: string, eth: u128, btc: u128, now: u64)

  predicate Acceptable(c: Submit) {
    c.eth > 0 && c.btc > 0
  }

  /** A submission replaces the validator's previous one; a zero price is ignored. */
  function AfterSubmit(subs: Submissions, c: Submit): Submissions {
    if Acceptable(c) then subs[c.validator := Submission(c.eth, c.btc, c.now)] else subs
  }

  ghost function Run(subs: Submissions, calls: seq<Submit>): Submissions {
    if calls == [] then subs else AfterSubmit(Run(subs, calls[..|calls| - 1]), calls[|calls| - 1])
  }

  /** `i` is the place of the validator's last acceptable submission. */
  ghost predicate LastOf(calls: seq<Submit>, validator: string, i: nat) {
    && i < |calls| && calls[i].validator == validator && Acceptable(calls[i])
    && forall j :: i < j < |calls| ==> !(calls[j].validator == validator && Acceptable(calls[j]))
  }

  /** What counts is each validator's last acceptable submission, whatever order the validators come in. */
  lemma {:induction false} LastSubmissionCounts(calls: seq<Submit>, validator: string)
    ensures validator in Run(map[], calls) <==> exists i: nat :: LastOf(calls, validator, i)
    ensures forall i: nat :: LastOf(calls, validator, i) ==>
              Run(map[], calls)[validator] == Submission(calls[i].eth, calls[i].btc, calls[i].now)
    decreases |calls|
  {
    if calls != [] {
      var n := |calls| - 1;
      var before := calls[..n];
      LastSubmissionCounts(before, validator);
      if calls[n].validator == validator && Acceptable(calls[n]) {
        assert LastOf(calls, validator, n);
      } else {
        assert forall i: nat :: LastOf(calls, validator, i) <==> LastOf(before, validator, i);
      }
    }
  }

  /** So any two orders in which each validator has the same last submission leave the same prices. */
  lemma OrderIsImmaterial(calls: seq<Submit>, others: seq<Submit>)
    requires forall v, i: nat :: LastOf(calls, v, i) ==> exists j: nat :: LastOf(others, v, j) && others[j] == calls[i]
    requires forall v, j: nat :: LastOf(others, v, j) ==> exists i: nat :: LastOf(calls, v, i) && calls[i] == others[j]
    ensures Run(map[], calls) == Run(map[], others)
  {
    var r, s := Run(map[], calls), Run(map[], others);
    forall v ensures v in r <==> v in s {
      LastSubmissionCounts(calls, v);
      LastSubmissionCounts(others, v);
    }
    forall v | v in r ensures v in s && r[v] == s[v] {
      LastSubmissionCounts(calls, v);
      LastSubmissionCounts(others, v);
      var i: nat :| LastOf(calls, v, i);
      var j: nat :| LastOf(others, v, j) && others[j] == calls[i];
    }
  }

  lemma {:induction false} PricesArePositive(calls: seq<Submit>)
    ensures var r := Run(map[], calls); forall v :: v in r ==> r[v].eth > 0 && r[v].btc > 0
    decreases |calls|
  {
    if calls != [] {
      PricesArePositive(calls[..|calls| - 1]);
      assert Run(map[], calls) == AfterSubmit(Run(map[], calls[..|calls| - 1]), calls[|calls| - 1]);
    }
  }

  // ---------------------------------------------------------------- sorted values

  ghost predicate Sorted(s: seq<nat>) {
    forall i, j :: 0 <= i < j < |s| ==> s[i] <= s[j]
  }

  /** The values of a map, with repetitions. */
  ghost function Bag(m: map<string, nat>): multiset<nat> {
    if m == map[] then multiset{}
    else
      var k :| k in m;
      Bag(m - {k}) + multiset{m[k]}
  }

  lemma AddTwo(b: multiset<nat>, x: nat, y: nat)
    ensures b + multiset{x} + multiset{y} == b + multiset{y} + multiset{x}
  {
  }

  lemma {:induction false} BagRemove(m: map<string, nat>, k: string)
    requires k in m
    ensures Bag(m) == Bag(m - {k}) + multiset{m[k]}
    decreases |m|
  {
    var j :| j in m && Bag(m) == Bag(m - {j}) + multiset{m[j]};
    if j != k {
      var rest := Bag(m - {j} - {k});
      assert m - {j} - {k} == m - {k} - {j};
      BagRemove(m - {j}, k);
      BagRemove(m - {k}, j);
      assert Bag(m - {j}) == rest + multiset{m[k]};
      assert Bag(m - {k}) == rest + multiset{m[j]};
      AddTwo(rest, m[k], m[j]);
    }
  }

  lemma {:induction false} BagSize(m: map<string, nat>)
    ensures |Bag(m)| == |m|
    decreases |m|
  {
    if m != map[] {
      var k :| k in m;
      BagRemove(m, k);
      BagSize(m - {k});
      assert (m - {k}).Keys == m.Keys - {k};
    }
  }

  lemma {:induction false} BagBounded(m: map<string, nat>, bound: nat)
    requires forall k :: k in m ==> m[k] <= bound
    ensures forall x :: x in Bag(m) ==> x <= bound
    decreases |m|
  {
    if m != map[] {
      var k :| k in m;
      BagRemove(m, k);
      BagBounded(m - {k}, bound);
    }
  }

  lemma LeastFirst(s: seq<nat>, t: seq<nat>)
    requires Sorted(s) && s != [] && t != [] && multiset(s) == multiset(t)
    ensures s[0] <= t[0]
  {
    assert t[0] in multiset(t);
    assert t[0] in s;
  }

  lemma TailBag(s: seq<nat>)
    requires s != []
    ensures multiset(s) == multiset{s[0]} + multiset(s[1..])
  {
    assert s == [s[0]] + s[1..];
  }

  /** A bag has only one sorted listing. */
  lemma {:induction false} SortedUnique(s: seq<nat>, t: seq<nat>)
    requires Sorted(s) && Sorted(t) && multiset(s) == multiset(t)
    ensures s == t
    decreases |s|
  {
    assert |multiset(s)| == |s| && |multiset(t)| == |t|;
    if s != [] {
      LeastFirst(s, t);
      LeastFirst(t, s);
      TailBag(s);
      TailBag(t);
      SameTail(multiset(s[1..]), multiset(t[1..]), s[0]);
      SortedUnique(s[1..], t[1..]);
      assert s == [s[0]] + s[1..] && t == [t[0]] + t[1..];
    }
  }

  lemma SameTail(b: multiset<nat>, c: multiset<nat>, x: nat)
    requires multiset{x} + b == multiset{x} + c
    ensures b == c
  {
    assert b == multiset{x} + b - multiset{x};
    assert c == multiset{x} + c - multiset{x};
  }

  // ---------------------------------------------------------------- the median

  /** The mean of two u128 with the sum wrapping, as in a release build. */
  function Mean(x: u128, y: u128): u128 {
    WrapAdd(x, y) / 2
  }

  function MedianOf(s: seq<u128>): u128 {
    if |s| == 0 then 0
    else if |s| % 2 == 1 then s[|s| / 2]
    else Mean(s[|s| / 2 - 1], s[|s| / 2])
  }

  /** The median lies between the two middle values exactly when their sum fits; otherwise it is below both. */
  lemma MedianBetweenMiddles(s: seq<u128>)
    requires s != [] && Sorted(s)
    ensures var lo, hi := s[(|s| - 1) / 2], s[|s| / 2];
            && (lo <= MedianOf(s) <= hi <==> |s| % 2 == 1 || lo + hi <= U128_MAX)
            && (|s| % 2 == 0 && lo + hi > U128_MAX ==> MedianOf(s) < lo)
  {
  }

  // ---------------------------------------------------------------- robustness

  /** Values outside the honest range come from faulty validators only. */
  lemma {:induction false} FewOutside(m: map<string, nat>, faulty: set<string>, lo: nat, hi: nat, out: multiset<nat>)
    requires out <= Bag(m)
    requires forall x :: x in out ==> x < lo || hi < x
    requires forall v :: v in m && v !in faulty ==> lo <= m[v] <= hi
    ensures |out| <= |faulty|
    decreases |m|
  {
    if m == map[] {
      assert out == multiset{};
    } else {
      var k :| k in m;
      BagRemove(m, k);
      if k in faulty {
        FewOutside(m - {k}, faulty - {k}, lo, hi, out - multiset{m[k]});
      } else {
        assert m[k] !in out;
        FewOutside(m - {k}, faulty, lo, hi, out);
      }
    }
  }

  lemma SliceInBag(s: seq<nat>, i: nat, j: nat)
    requires i <= j <= |s|
    ensures multiset(s[i..j]) <= multiset(s)
  {
    assert s == s[..i] + s[i..j] + s[j..];
  }

  lemma LowSlice(s: seq<nat>, k: nat, lo: nat)
    requires Sorted(s) && 0 < k <= |s| && s[k - 1] < lo
    ensures |multiset(s[0..k])| == k && forall x :: x in multiset(s[0..k]) ==> x < lo
  {
    var t := s[0..k];
    assert forall x :: x in multiset(t) ==> x in t;
  }

  lemma HighSlice(s: seq<nat>, i: nat, hi: nat)
    requires Sorted(s) && i < |s| && hi < s[i]
    ensures |multiset(s[i..|s|])| == |s| - i && forall x :: x in multiset(s[i..|s|]) ==> hi < x
  {
    var t := s[i..|s|];
    assert forall x :: x in multiset(t) ==> x in t;
  }

  /** With a faulty minority the middle values are within the honest range. */
  lemma MiddleIsHonest(m: map<string, nat>, s: seq<nat>, faulty: set<string>, lo: nat, hi: nat, i: nat)
    requires Sorted(s) && multiset(s) == Bag(m) && i < |s| == |m|
    requires i == |s| / 2 || i == (|s| - 1) / 2
    requires 2 * |faulty| < |m|
    requires forall v :: v in m && v !in faulty ==> lo <= m[v] <= hi
    ensures lo <= s[i] <= hi
  {
    if s[i] < lo {
      SliceInBag(s, 0, i + 1);
      LowSlice(s, i + 1, lo);
      FewOutside(m, faulty, lo, hi, multiset(s[0..i + 1]));
    }
    if hi < s[i] {
      SliceInBag(s, i, |s|);
      HighSlice(s, i, hi);
      FewOutside(m, faulty, lo, hi, multiset(s[i..|s|]));
    }
  }

  /** The two middle prices can be added: there is only one of them, or their sum fits a u128. */
  ghost predicate MiddleSumFits(m: map<string, nat>) {
    forall s: seq<nat> :: s != [] && Sorted(s) && multiset(s) == Bag(m) ==>
      |s| % 2 == 1 || s[|s| / 2 - 1] + s[|s| / 2] <= U128_MAX
  }

  /**
   * If fewer than half of the prices come from faulty validators, and the sum of the
   * middle two fits if there are two, the median lies between the lowest and the
   * highest honest price.
   */
  lemma MedianIsRobust(m: map<string, nat>, s: seq<u128>, faulty: set<string>, lo: nat, hi: nat)
    requires Sorted(s) && multiset(s) == Bag(m)
    requires 2 * |faulty| < |m| == |s|
    requires |s| % 2 == 1 || s[|s| / 2 - 1] + s[|s| / 2] <= U128_MAX
    requires forall v :: v in m && v !in faulty ==> lo <= m[v] <= hi
    ensures lo <= MedianOf(s) <= hi
  {
    MiddleIsHonest(m, s, faulty, lo, hi, |s| / 2);
    MiddleIsHonest(m, s, faulty, lo, hi, (|s| - 1) / 2);
    MedianBetweenMiddles(s);
  }

  /** The prices of the validators not in `faulty` are within a range. */
  ghost predicate Within(m: map<string, nat>, faulty: set<string>, lo: nat, hi: nat) {
    forall v :: v in m && v !in faulty ==> lo <= m[v] <= hi
  }

  /** No faulty minority moves the median out of the honest range. */
  ghost predicate Robust(m: map<string, nat>, median: nat) {
    forall faulty: set<string>, lo: nat, hi: nat ::
      2 * |faulty| < |m| && Within(m, faulty, lo, hi) ==> lo <= median <= hi
  }

  lemma {:induction false} BagHolder(m: map<string, nat>, x: nat) returns (v: string)
    requires x in Bag(m)
    ensures v in m && m[v] == x
    decreases |m|
  {
    v :| v in m && Bag(m) == Bag(m - {v}) + multiset{m[v]};
    if m[v] != x { v := BagHolder(m - {v}, x); }
  }

  lemma AllListed(m: map<string, nat>, s: seq<nat>, v: string)
    requires multiset(s) == Bag(m) && v in m
    ensures m[v] in s
  {
    BagRemove(m, v);
    assert m[v] in multiset(s);
  }

  /** Some `j` validators hold the `j` lowest prices: the others' are no lower than the next. */
  lemma {:induction false} LowestHolders(m: map<string, nat>, s: seq<nat>, j: nat) returns (holders: set<string>)
    requires Sorted(s) && multiset(s) == Bag(m) && j < |s|
    ensures |holders| == j && holders <= m.Keys
    ensures forall v :: v in m && v !in holders ==> s[j] <= m[v]
    decreases j
  {
    if j == 0 {
      holders := {};
      forall v | v in m ensures s[0] <= m[v] { AllListed(m, s, v); }
    } else {
      assert s[0] in multiset(s);
      var v := BagHolder(m, s[0]);
      BagRemove(m, v);
      TailBag(s);
      SameTail(multiset(s[1..]), Bag(m - {v}), s[0]);
      var others := LowestHolders(m - {v}, s[1..], j - 1);
      holders := others + {v};
    }
  }

  /** The median withstands every faulty minority exactly when the sum of the middle prices fits. */
  lemma RobustExactly(m: map<string, nat>, s: seq<u128>)
    requires Sorted(s) && multiset(s) == Bag(m) && s != []
    ensures Robust(m, MedianOf(s)) <==> |s| % 2 == 1 || s[|s| / 2 - 1] + s[|s| / 2] <= U128_MAX
  {
    BagSize(m);
    assert |s| == |multiset(s)|;
    if |s| % 2 == 1 || s[|s| / 2 - 1] + s[|s| / 2] <= U128_MAX {
      forall faulty: set<string>, lo: nat, hi: nat | 2 * |faulty| < |m| && Within(m, faulty, lo, hi)
        ensures lo <= MedianOf(s) <= hi
      {
        MedianIsRobust(m, s, faulty, lo, hi);
      }
    } else {
      var j := |s| / 2 - 1;
      var faulty := LowestHolders(m, s, j);
      forall v | v in m && v !in faulty ensures s[j] <= m[v] <= U128_MAX { AllListed(m, s, v); }
      assert Within(m, faulty, s[j], U128_MAX);
      MedianBetweenMiddles(s);
    }
  }

  lemma TwoAgreeing(m: map<string, nat>, s: seq<u128>, x: u128)
    requires m == map["a" := x, "b" := x] && s == [x, x]
    ensures Sorted(s) && multiset(s) == Bag(m)
  {
    BagRemove(m, "a");
    BagRemove(m - {"a"}, "b");
    assert m - {"a"} - {"b"} == map[];
  }

  /** Two validators agree on half of 2^128, and the median is 0. */
  lemma AgreeingPricesLost(m: map<string, nat>, s: seq<u128>, x: u128)
    requires x == U128_MAX / 2 + 1 && m == map["a" := x, "b" := x] && s == [x, x]
    ensures Sorted(s) && multiset(s) == Bag(m) && MedianOf(s) == 0 && !Robust(m, MedianOf(s))
  {
    TwoAgreeing(m, s, x);
    hide Robust, Bag;
    RobustExactly(m, s);
  }

  /** The sum fits whenever the honest prices are at most half of u128. */
  lemma ModestPricesFit(m: map<string, nat>, faulty: set<string>, hi: nat)
    requires 2 * |faulty| < |m| && hi <= U128_MAX / 2
    requires forall v :: v in m && v !in faulty ==> m[v] <= hi
    ensures MiddleSumFits(m)
  {
    forall s: seq<nat> | s != [] && Sorted(s) && multiset(s) == Bag(m)
      ensures |s| % 2 == 1 || s[|s| / 2 - 1] + s[|s| / 2] <= U128_MAX
    {
      BagSize(m);
      assert |s| == |multiset(s)|;
      MiddleIsHonest(m, s, faulty, 0, hi, |s| / 2);
      MiddleIsHonest(m, s, faulty, 0, hi, (|s| - 1) / 2);
    }
  }

  // ---------------------------------------------------------------- consensus

  /** `now - timestamp` on u64, wrapping as in a release build. */
  function Age(now: u64, timestamp: u64): u64 {
    if timestamp <= now then now - timestamp else now - timestamp + U64_MAX + 1
  }

  function Recent(subs: Submissions, window: u64, now: u64): Submissions {
    map v | v in subs && Age(now, subs[v].timestamp) < window :: subs[v]
  }

  function EthPrices(subs: Submissions): map<string, nat> {
    map v | v in subs && subs[v].eth > 0 :: subs[v].eth
  }

  function BtcPrices(subs: Submissions): map<string, nat> {
    map v | v in subs && subs[v].btc > 0 :: subs[v].btc
  }

  /** `price` is the median of the prices in `m`. */
  ghost predicate IsMedianOf(price: u128, m: map<string, nat>) {
    exists s: seq<u128> :: Sorted(s) && multiset(s) == Bag(m) && price == MedianOf(s)
  }

  datatype Config = Config(window: u64, minSubmissions: nat)

  predicate Enough(cfg: Config, subs: Submissions, now: u64) {
    var recent := Recent(subs, cfg.window, now);
    && |recent| >= cfg.minSubmissions
    && |EthPrices(recent)| >= cfg.minSubmissions
    && |BtcPrices(recent)| >= cfg.minSubmissions
  }

  /** The answer of `get_consensus_price`. */
  ghost predicate IsConsensus(cfg: Config, subs: Submissions, now: u64, r: Option<(u128, u128)>) {
    && (r.Some? <==> Enough(cfg, subs, now))
    && (r.Some? ==>
          var recent := Recent(subs, cfg.window, now);
          IsMedianOf(r.value.0, EthPrices(recent)) && IsMedianOf(r.value.1, BtcPrices(recent)))
  }

  lemma MedianUnique(p: u128, q: u128, m: map<string, nat>)
    requires IsMedianOf(p, m) && IsMedianOf(q, m)
    ensures p == q
  {
    var s: seq<u128> :| Sorted(s) && multiset(s) == Bag(m) && p == MedianOf(s);
    var t: seq<u128> :| Sorted(t) && multiset(t) == Bag(m) && q == MedianOf(t);
    SortedUnique(s, t);
  }

  /** Nodes that hold the same submissions agree on the prices. */
  lemma ConsensusIsUnique(cfg: Config, subs: Submissions, now: u64, r: Option<(u128, u128)>, t: Option<(u128, u128)>)
    requires IsConsensus(cfg, subs, now, r) && IsConsensus(cfg, subs, now, t)
    ensures r == t
  {
    if r.Some? {
      MedianUnique(r.value.0, t.value.0, EthPrices(Recent(subs, cfg.window, now)));
      MedianUnique(r.value.1, t.value.1, BtcPrices(Recent(subs, cfg.window, now)));
    }
  }

  /** The honest prices of the recent submissions are within a range. */
  ghost predicate HonestWithin(recent: Submissions, faulty: set<string>, ethLo: nat, ethHi: nat,
                               btcLo: nat, btcHi: nat)
  {
    forall v :: v in recent && v !in faulty ==>
      ethLo <= recent[v].eth <= ethHi && btcLo <= recent[v].btc <= btcHi
  }

  /** After any run of submissions, a faulty minority of the recent ones moves neither price out of the honest range. */
  lemma ConsensusIsRobust(cfg: Config, calls: seq<Submit>, now: u64, r: Option<(u128, u128)>, faulty: set<string>,
                          ethLo: nat, ethHi: nat, btcLo: nat, btcHi: nat)
    requires IsConsensus(cfg, Run(map[], calls), now, r) && r.Some?
    requires var recent := Recent(Run(map[], calls), cfg.window, now);
             && faulty <= recent.Keys && 2 * |faulty| < |recent|
             && HonestWithin(recent, faulty, ethLo, ethHi, btcLo, btcHi)
    requires var recent := Recent(Run(map[], calls), cfg.window, now);
             MiddleSumFits(EthPrices(recent)) && MiddleSumFits(BtcPrices(recent))
    ensures ethLo <= r.value.0 <= ethHi && btcLo <= r.value.1 <= btcHi
  {
    var recent := Recent(Run(map[], calls), cfg.window, now);
    PricesArePositive(calls);
    var eth, btc := EthPrices(recent), BtcPrices(recent);
    assert eth.Keys == recent.Keys && btc.Keys == recent.Keys;
    assert |eth| == |recent| && |btc| == |recent|;
    var s: seq<u128> :| Sorted(s) && multiset(s) == Bag(eth) && r.value.0 == MedianOf(s);
    var t: seq<u128> :| Sorted(t) && multiset(t) == Bag(btc) && r.value.1 == MedianOf(t);
    BagSize(eth);
    BagSize(btc);
    assert |s| == |multiset(s)| && |t| == |multiset(t)|;
    MedianIsRobust(eth, s, faulty, ethLo, ethHi);
    MedianIsRobust(btc, t, faulty, btcLo, btcHi);
  }

  // ---------------------------------------------------------------- the oracle, updated in place

  lemma OneMoreValue(s: seq<nat>, rest: multiset<nat>, x: nat)
    ensures multiset(s + [x]) + rest == multiset(s) + (rest + multiset{x})
  {
  }

  /** The prices of a map as a vector. */
  method Values(m: map<string, nat>) returns (s: seq<nat>)
    ensures multiset(s) == Bag(m)
  {
    s := [];
    var rest := m;
    while rest != map[]
      invariant rest.Keys <= m.Keys && forall v :: v in rest ==> rest[v] == m[v]
      invariant multiset(s) + Bag(rest) == Bag(m)
      decreases |rest|
    {
      var v :| v in rest;
      BagRemove(rest, v);
      OneMoreValue(s, Bag(rest - {v}), rest[v]);
      s := s + [rest[v]];
      rest := rest - {v};
    }
  }

  method InsertSorted(t: seq<nat>, x: nat) returns (r: seq<nat>)
    requires Sorted(t)
    ensures Sorted(r) && multiset(r) == multiset(t) + multiset{x}
  {
    var j := |t|;
    while j > 0 && x < t[j - 1]
      invariant 0 <= j <= |t|
      invariant forall k :: j <= k < |t| ==> x < t[k]
    {
      j := j - 1;
    }
    r := t[..j] + [x] + t[j..];
    InsertedBag(t, j, x);
  }

  lemma InsertedBag(t: seq<nat>, j: nat, x: nat)
    requires j <= |t|
    ensures multiset(t[..j] + [x] + t[j..]) == multiset(t) + multiset{x}
  {
    assert t == t[..j] + t[j..];
  }

  /** `sort`, by insertion. */
  method Sort(s: seq<nat>) returns (t: seq<nat>)
    ensures Sorted(t) && multiset(t) == multiset(s)
  {
    t := [];
    for i := 0 to |s|
      invariant Sorted(t) && multiset(t) == multiset(s[..i])
    {
      assert s[..i + 1] == s[..i] + [s[i]];
      t := InsertSorted(t, s[i]);
    }
    assert s[..|s|] == s;
  }

  class OracleConsensus {
    var submissions: Submissions
    const window: u64
    const minSubmissions: nat

    constructor (window: u64, minSubmissions: nat)
      ensures submissions == map[] && this.window == window && this.minSubmissions == minSubmissions
    {
      submissions := map[];
      this.window := window;
      this.minSubmissions := minSubmissions;
    }

    method SubmitPrice(validator: string, eth: u128, btc: u128, now: u64)
      modifies this
      ensures submissions == AfterSubmit(old(submissions), Submit(validator, eth, btc, now))
    {
      if eth == 0 || btc == 0 {
        return;
      }
      submissions := submissions[validator := Submission(eth, btc, now)];
    }

    method GetConsensusPrice(now: u64) returns (r: Option<(u128, u128)>)
      ensures IsConsensus(Config(window, minSubmissions), submissions, now, r)
    {
      var recent := Recent(submissions, window, now);
      if |recent| < minSubmissions {
        return None;
      }
      var ethPrices := EthPrices(recent);
      var btcPrices := BtcPrices(recent);
      if |ethPrices| < minSubmissions || |btcPrices| < minSubmissions {
        return None;
      }
      var eth := MedianPrice(ethPrices);
      var btc := MedianPrice(btcPrices);
      r := Some((eth, btc));
    }

    static method MedianPrice(m: map<string, nat>) returns (price: u128)
      requires forall v :: v in m ==> m[v] <= U128_MAX
      ensures IsMedianOf(price, m)
    {
      var values := Values(m);
      var sorted := Sort(values);
      BagBounded(m, U128_MAX);
      forall i | 0 <= i < |sorted| ensures sorted[i] <= U128_MAX {
        assert sorted[i] in multiset(sorted);
      }
      price := MedianOf(sorted);
    }
  }
}
