/** Which transactions the mempool lets in, drops, serves and finds, in its own numbers and places. */
module MempoolAnswers {
  import opened Words
  import opened LedgerModel
  import opened MempoolModel
  import opened MempoolCode

  ghost predicate Held(a: seq<Entry>, h: string) {
    exists i :: 0 <= i < |a| && a[i].hash == h
  }

  ghost predicate SomeCheaper(a: seq<Entry>, priority: nat) {
    exists i :: 0 <= i < |a| && a[i].tx.priority < priority
  }

  lemma HeldIs(a: seq<Entry>, h: string)
    ensures Held(a, h) <==> h in Hashes(a)
  {
  }

  lemma OutbidIs(a: seq<Entry>, priority: nat)
    requires a != []
    ensures Outbid(a, priority) <==> SomeCheaper(a, priority)
  {
    var i := LowestPlace(a);
    assert a[i].tx.priority < priority ==> SomeCheaper(a, priority);
  }

  /** A transaction is let in if and only if it is new, well formed, and finds room or outbids some other. */
  lemma AdmittedExactly(env: Env, p: Pool, b: Block, fee: nat, priority: nat, now: nat)
    ensures AddEffect(env, p, b, fee, priority, now).0 <==>
            && !Held(p.entries, env.hash(b)) && b.account != "" && b.signature != ""
            && (|p.entries| < 10_000 || SomeCheaper(p.entries, priority))
  {
    HeldIs(p.entries, env.hash(b));
    if Full(p) { OutbidIs(p.entries, priority); }
    hide Hashes, Held, SomeCheaper, Outbid;
  }

  /** Taking out one place. */
  function Cut(a: seq<Entry>, i: nat): seq<Entry>
    requires i < |a|
  {
    a[..i] + a[i + 1..]
  }

  lemma {:induction false} MinusIsCut(a: seq<Entry>, i: nat)
    requires Distinct(a) && i < |a|
    ensures Minus(a, {a[i].hash}) == Cut(a, i)
  {
    var b, e := a[..|a| - 1], a[|a| - 1];
    DistinctPairs(a);
    if i == |b| {
      forall k | 0 <= k < |b| ensures b[k].hash !in {e.hash} { assert b[k] == a[k]; }
      MinusNothing(b, {e.hash});
      assert Cut(a, i) == b + [];
    } else {
      assert b[i] == a[i];
      MinusIsCut(b, i);
      assert Cut(a, i) == Cut(b, i) + [e];
    }
  }

  /** `i` is the place of the cheapest transaction, the first to arrive of these. */
  ghost predicate Cheapest(a: seq<Entry>, i: nat) {
    && i < |a|
    && (forall j :: 0 <= j < |a| ==> a[i].tx.priority <= a[j].tx.priority)
    && (forall j :: 0 <= j < i ==> a[i].tx.priority < a[j].tx.priority)
  }

  lemma CheapestIs(a: seq<Entry>, i: nat)
    requires Distinct(a) && Cheapest(a, i)
    ensures LowestPlace(a) == i && WithoutLowest(a) == Cut(a, i)
  {
    LowestUnique(a, i, LowestPlace(a));
    MinusIsCut(a, i);
  }

  /** What is let in comes last; from a full pool the first of the cheapest goes. */
  lemma AdmittedEntries(env: Env, p: Pool, b: Block, fee: nat, priority: nat, now: nat)
    requires Distinct(p.entries) && AddEffect(env, p, b, fee, priority, now).0
    ensures var q := AddEffect(env, p, b, fee, priority, now).1;
            && q.received == p.received + 1 && q.accepted == p.accepted + 1 && q.rejected == p.rejected
            && var newcomer := Entry(env.hash(b), Tx(b, now, priority, fee));
            if |p.entries| < 10_000 then q.entries == p.entries + [newcomer]
            else exists i :: Cheapest(p.entries, i) && q.entries == Cut(p.entries, i) + [newcomer]
  {
    if Full(p) { CheapestIs(p.entries, LowestPlace(p.entries)); }
    hide Hashes, Distinct;
  }

  /** What is refused is counted, and changes the contents only where a malformed newcomer outbids in a full pool. */
  lemma RefusedEntries(env: Env, p: Pool, b: Block, fee: nat, priority: nat, now: nat)
    requires Distinct(p.entries) && !AddEffect(env, p, b, fee, priority, now).0
    ensures var q := AddEffect(env, p, b, fee, priority, now).1;
            && q.received == p.received + 1 && q.accepted == p.accepted && q.rejected == p.rejected + 1
            && if |p.entries| >= 10_000 && !Held(p.entries, env.hash(b)) && SomeCheaper(p.entries, priority)
               then exists i :: Cheapest(p.entries, i) && q.entries == Cut(p.entries, i)
               else q.entries == p.entries
  {
    HeldIs(p.entries, env.hash(b));
    if Full(p) {
      OutbidIs(p.entries, priority);
      CheapestIs(p.entries, LowestPlace(p.entries));
    }
    hide Hashes, Distinct, Held, SomeCheaper, Outbid;
  }

  /** Removal takes out the one place with that hash, if there is one, and no counter changes. */
  lemma RemovedExactly(env: Env, p: Pool, h: string)
    requires Distinct(p.entries)
    ensures var q := Apply(env, p, Remove(h));
            && q.received == p.received && q.accepted == p.accepted && q.rejected == p.rejected
            && (!Held(p.entries, h) ==> q.entries == p.entries)
            && forall i | 0 <= i < |p.entries| && p.entries[i].hash == h :: q.entries == Cut(p.entries, i)
  {
    var a := p.entries;
    if !Held(a, h) { MinusNothing(a, {h}); }
    forall i | 0 <= i < |a| && a[i].hash == h ensures Minus(a, {h}) == Cut(a, i) { MinusIsCut(a, i); }
  }

  /** `b` is what stands at the places `ps` of `a`, in the order of `a`. */
  ghost predicate StandsAt(a: seq<Entry>, ps: seq<nat>, b: seq<Entry>) {
    && |ps| == |b| && (forall k :: 0 <= k < |ps| ==> ps[k] < |a| && b[k] == a[ps[k]])
    && forall j, k :: 0 <= j < k < |ps| ==> ps[j] < ps[k]
  }

  /** The places whose hashes are not in `hs`. */
  ghost function Kept(a: seq<Entry>, hs: set<string>): seq<nat> {
    if a == [] then []
    else Kept(a[..|a| - 1], hs) + (if a[|a| - 1].hash in hs then [] else [|a| - 1])
  }

  lemma StandsAtNext(b: seq<Entry>, e: Entry, ps: seq<nat>, c: seq<Entry>)
    requires StandsAt(b, ps, c)
    ensures StandsAt(b + [e], ps, c) && StandsAt(b + [e], ps + [|b|], c + [e])
  {
  }

  lemma {:induction false} MinusStands(a: seq<Entry>, hs: set<string>)
    ensures StandsAt(a, Kept(a, hs), Minus(a, hs))
    ensures forall x: nat :: x in Kept(a, hs) <==> x < |a| && a[x].hash !in hs
  {
    if a != [] {
      var b, e := a[..|a| - 1], a[|a| - 1];
      MinusStands(b, hs);
      StandsAtNext(b, e, Kept(b, hs), Minus(b, hs));
      assert a == b + [e];
      if e.hash in hs {
        assert Kept(a, hs) == Kept(b, hs) && Minus(a, hs) == Minus(b, hs);
      }
    }
  }

  /** Expiry keeps, in order, exactly those that arrived at most 86,400 seconds ago; no counter changes. */
  lemma ExpiredExactly(env: Env, p: Pool, now: nat)
    requires Distinct(p.entries)
    ensures var q := Apply(env, p, Expire(now));
            && q.received == p.received && q.accepted == p.accepted && q.rejected == p.rejected
            && exists ps: seq<nat> ::
                 && StandsAt(p.entries, ps, q.entries)
                 && forall x: nat :: x in ps <==> x < |p.entries| && now <= p.entries[x].tx.receivedAt + 86_400
  {
    var a := p.entries;
    var hs := Expired(a, now);
    DistinctPairs(a);
    MinusStands(a, hs);
    forall x: nat | x < |a| ensures a[x].hash in hs <==> now > a[x].tx.receivedAt + 86_400 {
      if a[x].hash in hs {
        var i: nat :| i < |a| && Monus(now, a[i].tx.receivedAt) > TX_EXPIRATION_SECS && a[i].hash == a[x].hash;
        assert i == x;
      }
    }
    assert StandsAt(a, Kept(a, hs), Minus(a, hs));
  }

  /** A sender's transactions are all those of that account, by arrival. */
  lemma SentExactly(a: seq<Entry>, account: string)
    ensures exists ps: seq<nat> ::
              && |ps| == |Pick(a, Sender(account))|
              && (forall k :: 0 <= k < |ps| ==> ps[k] < |a| && Pick(a, Sender(account))[k] == a[ps[k]].hash)
              && (forall j, k :: 0 <= j < k < |ps| ==> ps[j] < ps[k])
              && forall x: nat :: x in ps <==> x < |a| && a[x].tx.block.account == account
  {
    PickIs(a, Sender(account));
    var ps := Places(a, Sender(account));
    forall x: nat ensures x in ps <==> x < |a| && a[x].tx.block.account == account {
      if x in ps {
        var k :| 0 <= k < |ps| && ps[k] == x;
        assert Matches(a[ps[k]], Sender(account));
      }
    }
  }

  // ---------------------------------------------------------------- the order of service

  /** `r` names `h` before `g`. */
  ghost predicate NamesBefore(r: seq<string>, h: string, g: string) {
    exists i, j :: 0 <= i < j < |r| && r[i] == h && r[j] == g
  }

  /** What is served is in the pool, and nothing is served twice. */
  lemma ServedOnce(a: seq<Entry>, r: seq<string>)
    requires Distinct(a) && ServedFirst(a, r)
    ensures forall h :: h in r ==> Held(a, h)
    ensures forall i, j :: 0 <= i < j < |r| ==> r[i] != r[j]
  {
    var ps: seq<nat> :| Leads(a, ps) && AtPlaces(a, ps, r);
    DistinctPairs(a);
    forall i, j | 0 <= i < j < |r| ensures r[i] != r[j] {
      assert Precedes(a, ps[i], ps[j]);
      assert ps[i] != ps[j];
    }
  }

  lemma LeadsInOrder(a: seq<Entry>, ps: seq<nat>, x: nat, y: nat, j: nat) returns (i: nat)
    requires Leads(a, ps) && x < |a| && y < |a| && Precedes(a, x, y) && j < |ps| && ps[j] == y
    ensures i < j && ps[i] == x
  {
    NotAfter(a, x, y);
    assert x in ps;
    i :| i < |ps| && ps[i] == x;
    IndexOrder(a, ps, i, j);
  }

  lemma IndexOrder(a: seq<Entry>, ps: seq<nat>, i: nat, j: nat)
    requires Leads(a, ps) && i < |ps| && j < |ps| && Precedes(a, ps[i], ps[j])
    ensures i < j
  {
    NotAfter(a, ps[i], ps[j]);
  }

  lemma NotAfter(a: seq<Entry>, x: nat, y: nat)
    requires x < |a| && y < |a| && Precedes(a, x, y)
    ensures !Precedes(a, y, x) && x != y
  {
  }

  /** Nothing is served before a dearer transaction, nor before an equally dear one that arrived earlier. */
  lemma ServedInOrder(a: seq<Entry>, r: seq<string>, x: nat, y: nat)
    requires Distinct(a) && ServedFirst(a, r) && x < |a| && y < |a| && a[y].hash in r
    requires a[x].tx.priority > a[y].tx.priority || (a[x].tx.priority == a[y].tx.priority && x < y)
    ensures NamesBefore(r, a[x].hash, a[y].hash)
  {
    var ps: seq<nat> :| Leads(a, ps) && AtPlaces(a, ps, r);
    DistinctPairs(a);
    var j: nat :| j < |r| && r[j] == a[y].hash;
    hide Leads, Distinct;
    assert ps[j] == y;
    var i := LeadsInOrder(a, ps, x, y, j);
    assert r[i] == a[x].hash;
  }
}
