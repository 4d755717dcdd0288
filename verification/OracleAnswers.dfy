/** Whose prices count, and which price comes out, by names and clock readings alone. */
module OracleAnswers {
  import opened Words
  import opened Oracle

  /** A submission replaces its validator's entry if both prices are positive, and changes no other. */
  lemma SubmitExactly(subs: Submissions, c: Submit, v: string)
    ensures var after := AfterSubmit(subs, c);
            if v == c.validator && c.eth > 0 && c.btc > 0 then
              && v in after && after[v].eth == c.eth && after[v].btc == c.btc && after[v].timestamp == c.now
            else (v in after <==> v in subs) && (v in subs ==> after[v] == subs[v])
  {
  }

  /** A submission of time `t` is younger than the window; one from the future counts as 2^64 seconds older. */
  predicate Young(now: u64, t: u64, window: u64) {
    if t <= now then now - t < window else now + 0x1_0000_0000_0000_0000 - t < window
  }

  /** The validators whose submissions count. */
  ghost function Counted(subs: Submissions, window: u64, now: u64): set<string> {
    set v | v in subs && Young(now, subs[v].timestamp, window)
  }

  /** `vs` names each of `names` once, by rising price. */
  ghost predicate Ranks(names: set<string>, price: map<string, nat>, vs: seq<string>)
    requires names <= price.Keys
  {
    && |vs| == |names| && (forall i :: 0 <= i < |vs| ==> vs[i] in names) && (forall v :: v in names ==> v in vs)
    && forall i, j :: 0 <= i < j < |vs| ==> price[vs[i]] <= price[vs[j]]
  }

  /** The middle one of a ranking, or the mean of the middle two, whose sum wraps at 2^128. */
  ghost predicate Middle(p: nat, price: map<string, nat>, vs: seq<string>)
    requires forall v :: v in vs ==> v in price
  {
    var n := |vs|;
    if n == 0 then p == 0
    else if n % 2 == 1 then p == price[vs[n / 2]]
    else
      var sum := price[vs[n / 2 - 1]] + price[vs[n / 2]];
      var low := if sum < 0x1_0000_0000_0000_0000_0000_0000_0000_0000 then sum
                 else sum - 0x1_0000_0000_0000_0000_0000_0000_0000_0000;
      2 * p <= low < 2 * p + 2
  }

  lemma MiddleIs(s: seq<u128>, p: nat, price: map<string, nat>, vs: seq<string>)
    requires |vs| == |s| && forall i :: 0 <= i < |s| ==> vs[i] in price && price[vs[i]] == s[i]
    ensures Middle(p, price, vs) <==> p == MedianOf(s)
  {
  }

  /** A listing of the values of a map can be put down by names. */
  lemma {:induction false} ByNames(m: map<string, nat>, s: seq<nat>) returns (vs: seq<string>)
    requires multiset(s) == Bag(m)
    ensures |vs| == |s| == |m| && (forall i :: 0 <= i < |s| ==> vs[i] in m && m[vs[i]] == s[i])
    ensures forall v :: v in m ==> v in vs
    decreases |s|
  {
    BagSize(m);
    assert |multiset(s)| == |s|;
    if s == [] {
      vs := [];
    } else {
      assert s[0] in multiset(s);
      var v := BagHolder(m, s[0]);
      BagRemove(m, v);
      TailBag(s);
      SameTail(multiset(s[1..]), Bag(m - {v}), s[0]);
      var rest := ByNames(m - {v}, s[1..]);
      vs := [v] + rest;
      forall i | 0 <= i < |s| ensures vs[i] in m && m[vs[i]] == s[i] {
        if i > 0 { assert rest[i - 1] in m - {v} && s[1..][i - 1] == s[i]; }
      }
      forall w | w in m ensures w in vs { if w != v { assert w in m - {v}; } }
    }
  }

  /** And a list of all names, one each, lists the values. */
  lemma {:induction false} ValuesByName(m: map<string, nat>, vs: seq<string>, s: seq<nat>)
    requires |vs| == |s| == |m| && (forall i :: 0 <= i < |s| ==> vs[i] in m && m[vs[i]] == s[i])
    requires forall v :: v in m ==> v in vs
    ensures multiset(s) == Bag(m)
    decreases |s|
  {
    if s != [] {
      var v, rest := vs[0], m - {vs[0]};
      BagRemove(m, v);
      TailBag(s);
      OtherNames(m, vs);
      assert rest.Keys == m.Keys - {v};
      ValuesByName(rest, vs[1..], s[1..]);
      assert multiset(s) == Bag(rest) + multiset{m[v]};
    } else {
      assert m == map[];
    }
  }

  /** With no more places than names, no name comes twice. */
  lemma OtherNames(m: map<string, nat>, vs: seq<string>)
    requires vs != [] && |vs| == |m| && (forall i :: 0 <= i < |vs| ==> vs[i] in m) && forall v :: v in m ==> v in vs
    ensures forall i :: 1 <= i < |vs| ==> vs[i] in m - {vs[0]}
    ensures forall v :: v in m - {vs[0]} ==> v in vs[1..]
  {
    forall i | 1 <= i < |vs| ensures vs[i] != vs[0] {
      var others := vs[..i] + vs[i + 1..];
      if vs[i] == vs[0] {
        forall v | v in m ensures v in others {
          var k :| 0 <= k < |vs| && vs[k] == v;
          assert k < i ==> others[k] == v;
          assert k > i ==> others[k - 1] == v;
          assert others[0] == vs[0];
        }
        SetInSeq(m.Keys, others);
      }
    }
    forall v | v in m - {vs[0]} ensures v in vs[1..] {
      var k :| 0 <= k < |vs| && vs[k] == v;
      assert vs[1..][k - 1] == v;
    }
  }

  lemma {:induction false} SetInSeq(names: set<string>, vs: seq<string>)
    requires forall v :: v in names ==> v in vs
    ensures |names| <= |vs|
    decreases |vs|
  {
    if vs != [] {
      forall v | v in names - {vs[0]} ensures v in vs[1..] {
        var k :| 0 <= k < |vs| && vs[k] == v;
        assert vs[1..][k - 1] == v;
      }
      SetInSeq(names - {vs[0]}, vs[1..]);
    } else {
      assert names == {};
    }
  }

  ghost predicate Ranking(m: map<string, nat>, p: nat, vs: seq<string>) {
    Ranks(m.Keys, m, vs) && Middle(p, m, vs)
  }

  lemma MedianRanks(p: u128, m: map<string, nat>)
    requires IsMedianOf(p, m)
    ensures exists vs: seq<string> :: Ranking(m, p, vs)
  {
    var s: seq<u128> :| Sorted(s) && multiset(s) == Bag(m) && p == MedianOf(s);
    var vs := ByNames(m, s);
    hide Bag, MedianOf;
    MiddleIs(s, p, m, vs);
    assert Ranking(m, p, vs);
  }

  lemma RankingMedian(p: u128, m: map<string, nat>, vs: seq<string>)
    requires (forall v :: v in m ==> m[v] <= U128_MAX) && Ranking(m, p, vs)
    ensures IsMedianOf(p, m)
  {
    hide Bag, MedianOf;
    var s: seq<u128> := seq(|vs|, i requires 0 <= i < |vs| && vs[i] in m => m[vs[i]]);
    ValuesByName(m, vs, s);
    MiddleIs(s, p, m, vs);
    assert Sorted(s);
  }

  lemma MedianIs(p: u128, m: map<string, nat>)
    requires forall v :: v in m ==> m[v] <= U128_MAX
    ensures IsMedianOf(p, m) <==> exists vs: seq<string> :: Ranking(m, p, vs)
  {
    hide IsMedianOf, Ranking;
    if IsMedianOf(p, m) { MedianRanks(p, m); }
    if exists vs: seq<string> :: Ranking(m, p, vs) {
      var vs: seq<string> :| Ranking(m, p, vs);
      RankingMedian(p, m, vs);
    }
  }

  lemma CountedIs(subs: Submissions, window: u64, now: u64)
    ensures Recent(subs, window, now).Keys == Counted(subs, window, now)
    ensures |Recent(subs, window, now)| == |Counted(subs, window, now)|
  {
    assert Recent(subs, window, now).Keys == Counted(subs, window, now);
  }

  /** The positive prices of the validators that count. */
  ghost function Eth(subs: Submissions, window: u64, now: u64): map<string, nat> {
    map v | v in Counted(subs, window, now) && subs[v].eth > 0 :: subs[v].eth
  }

  ghost function Btc(subs: Submissions, window: u64, now: u64): map<string, nat> {
    map v | v in Counted(subs, window, now) && subs[v].btc > 0 :: subs[v].btc
  }

  lemma PricesAre(subs: Submissions, window: u64, now: u64)
    ensures EthPrices(Recent(subs, window, now)) == Eth(subs, window, now)
    ensures BtcPrices(Recent(subs, window, now)) == Btc(subs, window, now)
  {
    CountedIs(subs, window, now);
  }

  /** There is a price if and only if enough submissions count, in all and for either currency. */
  lemma AnsweredExactly(cfg: Config, subs: Submissions, now: u64, r: Option<(u128, u128)>)
    requires IsConsensus(cfg, subs, now, r)
    ensures r.Some? <==>
            && |Counted(subs, cfg.window, now)| >= cfg.minSubmissions
            && |Eth(subs, cfg.window, now)| >= cfg.minSubmissions
            && |Btc(subs, cfg.window, now)| >= cfg.minSubmissions
  {
    CountedIs(subs, cfg.window, now);
    PricesAre(subs, cfg.window, now);
  }

  /** It is the middle of any ranking of those submissions by price, and each currency has one. */
  lemma PricedExactly(cfg: Config, subs: Submissions, now: u64, r: Option<(u128, u128)>, e: u128, b: u128)
    requires IsConsensus(cfg, subs, now, r) && r.Some?
    ensures r.value.0 == e <==> exists vs: seq<string> :: Ranking(Eth(subs, cfg.window, now), e, vs)
    ensures r.value.1 == b <==> exists vs: seq<string> :: Ranking(Btc(subs, cfg.window, now), b, vs)
  {
    var eth, btc := Eth(subs, cfg.window, now), Btc(subs, cfg.window, now);
    PricesAre(subs, cfg.window, now);
    MedianIs(e, eth);
    MedianIs(b, btc);
    hide IsMedianOf, Ranking, Recent, EthPrices, BtcPrices, Enough;
    if exists vs: seq<string> :: Ranking(eth, e, vs) { MedianUnique(e, r.value.0, eth); }
    if exists vs: seq<string> :: Ranking(btc, b, vs) { MedianUnique(b, r.value.1, btc); }
  }
}
