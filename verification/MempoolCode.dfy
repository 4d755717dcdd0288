/** The mempool as the node holds it: transactions by hash, hashes by priority and by sender. */
module MempoolCode {
  import opened Words
  import opened LedgerModel
  import opened MempoolModel

  function ListAt<K>(ix: map<K, seq<string>>, k: K): seq<string> {
    if k in ix then ix[k] else []
  }

  ghost function Without(s: seq<string>, h: string): seq<string> {
    if s == [] then []
    else Without(s[..|s| - 1], h) + (if s[|s| - 1] == h then [] else [s[|s| - 1]])
  }

  ghost predicate TxsHold(txs: map<string, Tx>, a: seq<Entry>) {
    txs.Keys == Hashes(a) && forall i :: 0 <= i < |a| ==> a[i].hash in txs && txs[a[i].hash] == a[i].tx
  }

  /** Every list of the priority index is what is filed under that priority, and none is empty. */
  ghost predicate QueueHolds(queue: map<nat, seq<string>>, a: seq<Entry>) {
    (forall p: nat :: ListIs(queue, p, a, Priority(p))) && NoneEmpty(queue)
  }

  ghost predicate SendersHold(senders: map<string, seq<string>>, a: seq<Entry>) {
    (forall s: string :: ListIs(senders, s, a, Sender(s))) && NoneEmpty(senders)
  }

  /** The list under `k` is what is filed under `key`. */
  ghost predicate ListIs<K(!new)>(ix: map<K, seq<string>>, k: K, a: seq<Entry>, key: Key) {
    ListAt(ix, k) == Pick(a, key)
  }

  ghost predicate NoneEmpty<K(!new)>(ix: map<K, seq<string>>) {
    forall k :: k in ix ==> ix[k] != []
  }

  // ---------------------------------------------------------------- keeping an index

  lemma WithoutAppend(s: seq<string>, x: string, h: string)
    ensures Without(s + [x], h) == Without(s, h) + if x == h then [] else [x]
  {
    assert (s + [x])[..|s + [x]| - 1] == s;
  }

  lemma {:induction false} WithoutAbsent(s: seq<string>, h: string)
    requires h !in s
    ensures Without(s, h) == s
  {
    if s != [] {
      WithoutAbsent(s[..|s| - 1], h);
      assert s == s[..|s| - 1] + [s[|s| - 1]];
    }
  }

  lemma {:induction false} PickMinus(a: seq<Entry>, h: string, k: Key)
    ensures Pick(Minus(a, {h}), k) == Without(Pick(a, k), h)
  {
    if a != [] {
      var b, e := a[..|a| - 1], a[|a| - 1];
      PickMinus(b, h, k);
      assert a == b + [e];
      MinusLast(b, e, {h});
      PickAppend(b, e, k);
      var m, picked := Minus(b, {h}), Pick(b, k);
      if e.hash == h {
        assert Minus(a, {h}) == m + [] == m;
      } else {
        assert Minus(a, {h}) == m + [e];
        PickAppend(m, e, k);
      }
      if Matches(e, k) {
        assert Pick(a, k) == picked + [e.hash];
        WithoutAppend(picked, e.hash, h);
      } else {
        assert Pick(a, k) == picked + [] == picked;
      }
    }
  }

  /** A hash is filed under the keys of its own entry only. */
  lemma FiledOnce(a: seq<Entry>, i: nat, k: Key)
    requires Distinct(a) && i < |a| && !Matches(a[i], k)
    ensures a[i].hash !in Pick(a, k)
  {
    PickIs(a, k);
    DistinctPairs(a);
  }

  function Appended<K>(ix: map<K, seq<string>>, k: K, h: string): map<K, seq<string>> {
    ix[k := ListAt(ix, k) + [h]]
  }

  lemma ListAfterAppend<K(!new)>(ix: map<K, seq<string>>, k: K, a: seq<Entry>, e: Entry, l: K, key: Key)
    requires ListIs(ix, l, a, key) && (Matches(e, key) <==> l == k)
    ensures ListIs(Appended(ix, k, e.hash), l, a + [e], key)
  {
    PickAppend(a, e, key);
  }

  lemma QueueAfterAppend(queue: map<nat, seq<string>>, a: seq<Entry>, e: Entry)
    requires QueueHolds(queue, a)
    ensures QueueHolds(Appended(queue, e.tx.priority, e.hash), a + [e])
  {
    forall p: nat ensures ListIs(Appended(queue, e.tx.priority, e.hash), p, a + [e], Priority(p)) {
      ListAfterAppend(queue, e.tx.priority, a, e, p, Priority(p));
    }
  }

  lemma SendersAfterAppend(senders: map<string, seq<string>>, a: seq<Entry>, e: Entry)
    requires SendersHold(senders, a)
    ensures SendersHold(Appended(senders, e.tx.block.account, e.hash), a + [e])
  {
    forall s: string ensures ListIs(Appended(senders, e.tx.block.account, e.hash), s, a + [e], Sender(s)) {
      ListAfterAppend(senders, e.tx.block.account, a, e, s, Sender(s));
    }
  }

  function Dropped<K>(ix: map<K, seq<string>>, k: K, rest: seq<string>): map<K, seq<string>> {
    if rest == [] then ix - {k} else ix[k := rest]
  }

  /** Taking an entry out changes the lists of its own keys only. */
  lemma PickAfterMinus(a: seq<Entry>, i: nat, k: Key)
    requires Distinct(a) && i < |a|
    ensures Matches(a[i], k) ==> Pick(a, k) != []
    ensures Pick(Minus(a, {a[i].hash}), k) == if Matches(a[i], k) then Without(Pick(a, k), a[i].hash) else Pick(a, k)
  {
    PickMinus(a, a[i].hash, k);
    if Matches(a[i], k) {
      PickIs(a, k);
    } else {
      FiledOnce(a, i, k);
      WithoutAbsent(Pick(a, k), a[i].hash);
    }
  }

  /** `m` is `a` without entry `i`, as far as the lists go. */
  ghost predicate TakenOut(a: seq<Entry>, i: nat, m: seq<Entry>)
    requires i < |a|
  {
    && (forall k: Key :: Pick(m, k) == if Matches(a[i], k) then Without(Pick(a, k), a[i].hash) else Pick(a, k))
    && (forall k: Key :: Matches(a[i], k) ==> Pick(a, k) != [])
  }

  lemma MinusTakesOut(a: seq<Entry>, i: nat)
    requires Distinct(a) && i < |a|
    ensures TakenOut(a, i, Minus(a, {a[i].hash}))
  {
    forall k: Key
      ensures Pick(Minus(a, {a[i].hash}), k) == if Matches(a[i], k) then Without(Pick(a, k), a[i].hash) else Pick(a, k)
      ensures Matches(a[i], k) ==> Pick(a, k) != []
    {
      PickAfterMinus(a, i, k);
    }
  }

  lemma ListAfterMinus<K(!new)>(ix: map<K, seq<string>>, k: K, a: seq<Entry>, i: nat, m: seq<Entry>, l: K, key: Key)
    requires i < |a| && TakenOut(a, i, m) && ListIs(ix, l, a, key) && (Matches(a[i], key) <==> l == k)
    ensures ListIs(Dropped(ix, k, Without(ListAt(ix, k), a[i].hash)), l, m, key)
    ensures l == k ==> k in ix
  {
  }

  lemma QueueAfterMinus(queue: map<nat, seq<string>>, a: seq<Entry>, i: nat, m: seq<Entry>)
    requires QueueHolds(queue, a) && i < |a| && TakenOut(a, i, m)
    ensures var p := a[i].tx.priority;
            p in queue && QueueHolds(Dropped(queue, p, Without(ListAt(queue, p), a[i].hash)), m)
  {
    var p := a[i].tx.priority;
    ListAfterMinus(queue, p, a, i, m, p, Priority(p));
    forall q: nat ensures ListIs(Dropped(queue, p, Without(ListAt(queue, p), a[i].hash)), q, m, Priority(q)) {
      ListAfterMinus(queue, p, a, i, m, q, Priority(q));
    }
  }

  lemma SendersAfterMinus(senders: map<string, seq<string>>, a: seq<Entry>, i: nat, m: seq<Entry>)
    requires SendersHold(senders, a) && i < |a| && TakenOut(a, i, m)
    ensures var s := a[i].tx.block.account;
            s in senders && SendersHold(Dropped(senders, s, Without(ListAt(senders, s), a[i].hash)), m)
  {
    var s := a[i].tx.block.account;
    ListAfterMinus(senders, s, a, i, m, s, Sender(s));
    forall t: string ensures ListIs(Dropped(senders, s, Without(ListAt(senders, s), a[i].hash)), t, m, Sender(t)) {
      ListAfterMinus(senders, s, a, i, m, t, Sender(t));
    }
  }

  lemma TxsAfterMinus(txs: map<string, Tx>, a: seq<Entry>, h: string)
    requires TxsHold(txs, a)
    ensures TxsHold(txs - {h}, Minus(a, {h}))
  {
    HashesMinus(a, {h});
    MinusIs(a, {h});
    var m := Minus(a, {h});
    forall i | 0 <= i < |m| ensures m[i].hash in txs - {h} && (txs - {h})[m[i].hash] == m[i].tx {
      assert m[i] in a;
    }
  }

  lemma TxsAfterAppend(txs: map<string, Tx>, a: seq<Entry>, e: Entry)
    requires TxsHold(txs, a) && e.hash !in Hashes(a)
    ensures TxsHold(txs[e.hash := e.tx], a + [e])
  {
    HashesAppend(a, e);
    forall i | 0 <= i < |a| ensures a[i].hash != e.hash {
      assert a[i].hash in Hashes(a);
    }
  }

  // ---------------------------------------------------------------- the indexes agree

  /**
   * What the indexes say of a stored hash: it occurs exactly once in the list of its
   * priority, exactly once in that of its sender, and in no other list.
   */
  ghost predicate FiledCorrectly(txs: map<string, Tx>, queue: map<nat, seq<string>>,
                                 senders: map<string, seq<string>>)
  {
    && (forall h :: h in txs ==> txs[h].priority in queue && h in queue[txs[h].priority])
    && (forall h :: h in txs ==> txs[h].block.account in senders && h in senders[txs[h].block.account])
    && (forall p, i :: p in queue && 0 <= i < |queue[p]| ==> queue[p][i] in txs && txs[queue[p][i]].priority == p)
    && (forall s, i :: s in senders && 0 <= i < |senders[s]| ==>
          senders[s][i] in txs && txs[senders[s][i]].block.account == s)
    && (forall p, i, j :: p in queue && 0 <= i < j < |queue[p]| ==> queue[p][i] != queue[p][j])
    && (forall s, i, j :: s in senders && 0 <= i < j < |senders[s]| ==> senders[s][i] != senders[s][j])
    && (forall p :: p in queue ==> queue[p] != [])
    && (forall s :: s in senders ==> senders[s] != [])
  }

  lemma PickFiles(txs: map<string, Tx>, a: seq<Entry>, k: Key, list: seq<string>)
    requires Distinct(a) && TxsHold(txs, a) && list == Pick(a, k)
    ensures forall i :: 0 <= i < |list| ==> list[i] in txs && Matches(Entry(list[i], txs[list[i]]), k)
    ensures forall i, j :: 0 <= i < j < |list| ==> list[i] != list[j]
    ensures forall h :: h in txs && Matches(Entry(h, txs[h]), k) ==> h in list
  {
    PickIs(a, k);
    DistinctPairs(a);
    forall h | h in txs && Matches(Entry(h, txs[h]), k) ensures h in list {
      var x :| 0 <= x < |a| && a[x].hash == h;
      assert x in Places(a, k);
    }
  }

  lemma IndexesAgree(txs: map<string, Tx>, queue: map<nat, seq<string>>, senders: map<string, seq<string>>,
                     a: seq<Entry>)
    requires Distinct(a) && TxsHold(txs, a) && QueueHolds(queue, a) && SendersHold(senders, a)
    ensures FiledCorrectly(txs, queue, senders)
  {
    forall p: nat
      ensures forall i :: 0 <= i < |ListAt(queue, p)| ==>
                ListAt(queue, p)[i] in txs && txs[ListAt(queue, p)[i]].priority == p
      ensures forall i, j :: 0 <= i < j < |ListAt(queue, p)| ==> ListAt(queue, p)[i] != ListAt(queue, p)[j]
      ensures forall h :: h in txs && txs[h].priority == p ==> h in ListAt(queue, p)
    {
      assert ListIs(queue, p, a, Priority(p));
      PickFiles(txs, a, Priority(p), ListAt(queue, p));
    }
    forall s: string
      ensures forall i :: 0 <= i < |ListAt(senders, s)| ==>
                ListAt(senders, s)[i] in txs && txs[ListAt(senders, s)[i]].block.account == s
      ensures forall i, j :: 0 <= i < j < |ListAt(senders, s)| ==> ListAt(senders, s)[i] != ListAt(senders, s)[j]
      ensures forall h :: h in txs && txs[h].block.account == s ==> h in ListAt(senders, s)
    {
      assert ListIs(senders, s, a, Sender(s));
      PickFiles(txs, a, Sender(s), ListAt(senders, s));
    }
    assert forall h :: h in txs ==> h in ListAt(queue, txs[h].priority) && h in ListAt(senders, txs[h].block.account);
    assert forall p :: p in queue ==> ListAt(queue, p) == queue[p];
    assert forall s :: s in senders ==> ListAt(senders, s) == senders[s];
  }

  // ---------------------------------------------------------------- the order of service

  /** Higher priority first, then earlier arrival. */
  ghost predicate Precedes(a: seq<Entry>, x: nat, y: nat)
    requires x < |a| && y < |a|
  {
    a[x].tx.priority > a[y].tx.priority || (a[x].tx.priority == a[y].tx.priority && x < y)
  }

  /** `places` are in order, and every other place comes after all of them. */
  ghost predicate Leads(a: seq<Entry>, places: seq<nat>) {
    && (forall i :: 0 <= i < |places| ==> places[i] < |a|)
    && (forall i, j :: 0 <= i < j < |places| ==> Precedes(a, places[i], places[j]))
    && (forall i, y :: 0 <= i < |places| && 0 <= y < |a| && y !in places ==> Precedes(a, places[i], y))
  }

  ghost predicate AtPlaces(a: seq<Entry>, places: seq<nat>, hashes: seq<string>) {
    |hashes| == |places| && forall i :: 0 <= i < |places| ==> places[i] < |a| && hashes[i] == a[places[i]].hash
  }

  /** `hashes` are the first of the pool in the order of service. */
  ghost predicate ServedFirst(a: seq<Entry>, hashes: seq<string>) {
    exists places: seq<nat> :: Leads(a, places) && AtPlaces(a, places, hashes)
  }

  lemma {:induction false} LeadsAgree(a: seq<Entry>, p: seq<nat>, q: seq<nat>, n: nat)
    requires Leads(a, p) && Leads(a, q) && n <= |p| == |q|
    ensures p[..n] == q[..n]
  {
    if n > 0 {
      LeadsAgree(a, p, q, n - 1);
      var x, y := p[n - 1], q[n - 1];
      Overtakes(a, p, q, n - 1);
      Overtakes(a, q, p, n - 1);
      assert p[..n] == p[..n - 1] + [x] && q[..n] == q[..n - 1] + [y];
    }
  }

  lemma Overtakes(a: seq<Entry>, p: seq<nat>, q: seq<nat>, n: nat)
    requires Leads(a, p) && Leads(a, q) && n < |p| == |q| && p[..n] == q[..n]
    ensures p[n] == q[n] || Precedes(a, p[n], q[n])
  {
    var y := q[n];
    forall m | 0 <= m < n ensures p[m] != y {
      assert p[..n][m] == q[..n][m];
      assert Precedes(a, q[m], q[n]);
    }
    if y in p {
      var m :| 0 <= m < |p| && p[m] == y;
    }
  }

  /** Being served first leaves no choice: any two such answers of one length are the same. */
  lemma ServedFirstUnique(a: seq<Entry>, r: seq<string>, s: seq<string>)
    requires ServedFirst(a, r) && ServedFirst(a, s) && |r| == |s|
    ensures r == s
  {
    var p: seq<nat> :| Leads(a, p) && AtPlaces(a, p, r);
    var q: seq<nat> :| Leads(a, q) && AtPlaces(a, q, s);
    LeadsAgree(a, p, q, |p|);
    assert p[..|p|] == p && q[..|q|] == q;
  }

  /** All places of higher priority than `p` come first, in order; then some of those of `p`. */
  ghost predicate Progress(a: seq<Entry>, places: seq<nat>, p: nat, k: nat) {
    && (forall i :: 0 <= i < |places| ==> places[i] < |a|)
    && (forall i, j :: 0 <= i < j < |places| ==> Precedes(a, places[i], places[j]))
    && (forall i :: 0 <= i < |places| ==> a[places[i]].tx.priority >= p)
    && (forall y :: 0 <= y < |a| && a[y].tx.priority > p ==> y in places)
    && k <= |Places(a, Priority(p))|
    && (forall y :: 0 <= y < |a| && a[y].tx.priority == p ==> (y in places <==> y in Places(a, Priority(p))[..k]))
  }

  lemma ProgressLeads(a: seq<Entry>, places: seq<nat>, p: nat, k: nat)
    requires Progress(a, places, p, k)
    ensures Leads(a, places)
  {
    var ps := Places(a, Priority(p));
    PickIs(a, Priority(p));
    forall i, y | 0 <= i < |places| && 0 <= y < |a| && y !in places ensures Precedes(a, places[i], y) {
      if a[y].tx.priority == p && a[places[i]].tx.priority == p {
        assert y in ps && places[i] in places && places[i] in ps[..k];
        var m :| 0 <= m < |ps| && ps[m] == y;
        var n :| 0 <= n < k && ps[n] == places[i];
        assert forall l :: 0 <= l < k ==> ps[l] in ps[..k];
      }
    }
  }

  lemma ProgressStep(a: seq<Entry>, places: seq<nat>, p: nat, k: nat)
    requires Progress(a, places, p, k) && k < |Places(a, Priority(p))|
    ensures Progress(a, places + [Places(a, Priority(p))[k]], p, k + 1)
  {
    var ps := Places(a, Priority(p));
    PickIs(a, Priority(p));
    var places' := places + [ps[k]];
    assert ps[..k + 1] == ps[..k] + [ps[k]];
    forall i | 0 <= i < |places| ensures Precedes(a, places[i], ps[k]) {
      if a[places[i]].tx.priority == p {
        assert places[i] in places && places[i] in ps[..k];
      }
    }
    forall y | 0 <= y < |a| && a[y].tx.priority > p ensures y in places' {
      assert y in places;
    }
  }

  lemma NothingHolds(a: seq<Entry>)
    requires |a| == 0
    ensures TxsHold(map[], a) && QueueHolds(map[], a) && SendersHold(map[], a)
  {
  }

  /** All places of priorities outside `rest`, in order. */
  ghost predicate Between(a: seq<Entry>, places: seq<nat>, rest: set<nat>) {
    && (forall i :: 0 <= i < |places| ==> places[i] < |a| && a[places[i]].tx.priority !in rest)
    && (forall i, j :: 0 <= i < j < |places| ==> Precedes(a, places[i], places[j]))
    && (forall y :: 0 <= y < |a| && a[y].tx.priority !in rest ==> y in places)
  }

  /** The priorities of `rest` are the lowest of the queue, and `p` is the highest of them. */
  ghost predicate Highest(queue: map<nat, seq<string>>, rest: set<nat>, p: nat) {
    && p in rest && rest <= queue.Keys
    && (forall q :: q in rest ==> q <= p)
    && (forall q :: q in queue && q !in rest ==> p < q)
  }

  lemma BetweenStart(queue: map<nat, seq<string>>, a: seq<Entry>)
    requires QueueHolds(queue, a)
    ensures Between(a, [], queue.Keys)
  {
    forall y | 0 <= y < |a| ensures a[y].tx.priority in queue { QueueLists(queue, a, y); }
  }

  lemma NextPriority(queue: map<nat, seq<string>>, a: seq<Entry>, places: seq<nat>, rest: set<nat>, p: nat)
    requires QueueHolds(queue, a) && Between(a, places, rest) && Highest(queue, rest, p)
    ensures Progress(a, places, p, 0)
  {
    forall y | 0 <= y < |a| ensures a[y].tx.priority in queue { QueueLists(queue, a, y); }
  }

  lemma PriorityDone(queue: map<nat, seq<string>>, a: seq<Entry>, places: seq<nat>, rest: set<nat>, p: nat)
    requires QueueHolds(queue, a) && Highest(queue, rest, p) && Progress(a, places, p, |Places(a, Priority(p))|)
    ensures Between(a, places, rest - {p})
  {
    var ps := Places(a, Priority(p));
    PickIs(a, Priority(p));
    assert ps[..|ps|] == ps;
    forall y | 0 <= y < |a| ensures a[y].tx.priority in queue { QueueLists(queue, a, y); }
    forall y | 0 <= y < |a| && a[y].tx.priority !in rest - {p} ensures y in places {
      if a[y].tx.priority == p { assert y in ps; }
    }
  }

  lemma {:induction false} DistinctBelow(places: seq<nat>, n: nat)
    requires forall i :: 0 <= i < |places| ==> places[i] < n
    requires forall i, j :: 0 <= i < j < |places| ==> places[i] != places[j]
    ensures |places| <= n
    ensures (forall y :: 0 <= y < n ==> y in places) ==> |places| == n
  {
    if places != [] { assert places[0] < n; }
    if n > 0 {
      if m: nat :| m < |places| && places[m] == n - 1 {
        var others := places[..m] + places[m + 1..];
        forall y | 0 <= y < n - 1 && y in places ensures y in others {
          var i :| 0 <= i < |places| && places[i] == y;
          assert others[if i < m then i else i - 1] == y;
        }
        DistinctBelow(others, n - 1);
      } else {
        assert n - 1 !in places;
        DistinctBelow(places, n - 1);
      }
    }
  }

  lemma LeadsAtMost(a: seq<Entry>, places: seq<nat>)
    requires Leads(a, places)
    ensures |places| <= |a|
  {
    DistinctBelow(places, |a|);
  }

  lemma AllServed(a: seq<Entry>, places: seq<nat>)
    requires Between(a, places, {})
    ensures Leads(a, places) && |places| == |a|
  {
    DistinctBelow(places, |a|);
  }

  lemma QueueLists(queue: map<nat, seq<string>>, a: seq<Entry>, i: nat)
    requires QueueHolds(queue, a) && i < |a|
    ensures a[i].tx.priority in queue
  {
    PickIs(a, Priority(a[i].tx.priority));
    assert ListIs(queue, a[i].tx.priority, a, Priority(a[i].tx.priority));
  }

  /** The first hash under the lowest priority is the one to evict. */
  lemma FirstOfLowest(queue: map<nat, seq<string>>, a: seq<Entry>, p: nat)
    requires QueueHolds(queue, a) && p in queue && forall q :: q in queue ==> p <= q
    ensures a != [] && queue[p] != []
    ensures var l := LowestPlace(a); a[l].tx.priority == p && a[l].hash == queue[p][0]
  {
    var ps := Places(a, Priority(p));
    assert ListIs(queue, p, a, Priority(p));
    PickIs(a, Priority(p));
    forall j | 0 <= j < |a| ensures p <= a[j].tx.priority { QueueLists(queue, a, j); }
    assert forall m :: 0 <= m < |ps| ==> ps[0] <= ps[m];
    forall j | 0 <= j < ps[0] ensures p < a[j].tx.priority {
      assert j !in ps && !Matches(a[j], Priority(p));
    }
    LowestUnique(a, ps[0], LowestPlace(a));
  }

  lemma NothingMinus(a: seq<Entry>)
    ensures Minus(a, {}) == a
  {
    MinusNothing(a, {});
  }

  lemma StaleAreExpired(txs: map<string, Tx>, a: seq<Entry>, now: nat)
    requires TxsHold(txs, a)
    ensures (set h | h in txs && Monus(now, txs[h].receivedAt) > TX_EXPIRATION_SECS) == Expired(a, now)
  {
    forall h | h in txs ensures exists i :: 0 <= i < |a| && a[i].hash == h && txs[h] == a[i].tx {
      assert h in Hashes(a);
      var i :| 0 <= i < |a| && a[i].hash == h;
    }
  }

  /** `retain(|x| x != h)` */
  method Retain(s: seq<string>, h: string) returns (r: seq<string>)
    ensures r == Without(s, h)
  {
    r := [];
    for i := 0 to |s|
      invariant r == Without(s[..i], h)
    {
      assert s[..i + 1][..i] == s[..i];
      if s[i] != h {
        r := r + [s[i]];
      }
    }
    assert s[..|s|] == s;
  }

  /** An index with one hash dropped from one of its lists. */
  method Shrunk<K(==)>(ix: map<K, seq<string>>, k: K, h: string) returns (r: map<K, seq<string>>)
    requires k in ix
    ensures r == Dropped(ix, k, Without(ListAt(ix, k), h))
  {
    var rest := Retain(ix[k], h);
    r := if rest == [] then ix - {k} else ix[k := rest];
  }

  lemma AbsentMinus(a: seq<Entry>, h: string)
    requires h !in Hashes(a)
    ensures Minus(a, {h}) == a
  {
    forall i | 0 <= i < |a| ensures a[i].hash !in {h} { assert a[i].hash in Hashes(a); }
    MinusNothing(a, {h});
  }

  lemma RemovalKeepsIndexes(txs: map<string, Tx>, queue: map<nat, seq<string>>, senders: map<string, seq<string>>,
                            a: seq<Entry>, h: string)
    requires Distinct(a) && TxsHold(txs, a) && QueueHolds(queue, a) && SendersHold(senders, a) && h in txs
    ensures var m, p, s := Minus(a, {h}), txs[h].priority, txs[h].block.account;
            && Distinct(m) && TxsHold(txs - {h}, m) && p in queue && s in senders
            && QueueHolds(Dropped(queue, p, Without(ListAt(queue, p), h)), m)
            && SendersHold(Dropped(senders, s, Without(ListAt(senders, s), h)), m)
  {
    var i :| 0 <= i < |a| && a[i].hash == h;
    MinusTakesOut(a, i);
    MinusDistinct(a, {h});
    TxsAfterMinus(txs, a, h);
    QueueAfterMinus(queue, a, i, Minus(a, {h}));
    SendersAfterMinus(senders, a, i, Minus(a, {h}));
  }

  /** The first key of a sorted map. */
  method FirstKey(keys: set<nat>) returns (m: nat)
    requires keys != {}
    ensures m in keys && forall k :: k in keys ==> m <= k
  {
    m :| m in keys;
    var rest := keys - {m};
    while rest != {}
      invariant rest <= keys && m in keys
      invariant forall k :: k in keys && k !in rest ==> m <= k
      decreases |rest|
    {
      var k :| k in rest;
      if k < m { m := k; }
      rest := rest - {k};
    }
  }

  /** The last key of a sorted map. */
  method LastKey(keys: set<nat>) returns (m: nat)
    requires keys != {}
    ensures m in keys && forall k :: k in keys ==> k <= m
  {
    m :| m in keys;
    var rest := keys - {m};
    while rest != {}
      invariant rest <= keys && m in keys
      invariant forall k :: k in keys && k !in rest ==> k <= m
      decreases |rest|
    {
      var k :| k in rest;
      if m < k { m := k; }
      rest := rest - {k};
    }
  }

  /** Push one list, stopping as soon as there are `count` hashes. */
  method ServeList(hashes: seq<string>, count: nat, served: seq<string>, ghost before: seq<nat>,
                   ghost a: seq<Entry>, ghost p: nat)
    returns (result: seq<string>, ghost places: seq<nat>)
    requires hashes == Pick(a, Priority(p)) && hashes != []
    requires Progress(a, before, p, 0) && AtPlaces(a, before, served)
    requires |served| < count || served == []
    ensures Leads(a, places) && AtPlaces(a, places, result) && result != []
    ensures |result| <= Max(count, 1)
    ensures |result| < count ==> Progress(a, places, p, |Places(a, Priority(p))|)
  {
    result, places := served, before;
    PickIs(a, Priority(p));
    for k := 0 to |hashes|
      invariant Progress(a, places, p, k) && AtPlaces(a, places, result)
      invariant |result| < count || (k == 0 && result == [])
      invariant k > 0 ==> result != []
    {
      ProgressStep(a, places, p, k);
      result := result + [hashes[k]];
      places := places + [Places(a, Priority(p))[k]];
      if |result| >= count {
        ProgressLeads(a, places, p, k + 1);
        return;
      }
    }
    ProgressLeads(a, places, p, |hashes|);
  }

  /** Walk the queue from the highest priority down. */
  method Serve(queue: map<nat, seq<string>>, count: nat, ghost a: seq<Entry>) returns (result: seq<string>)
    requires QueueHolds(queue, a)
    ensures ServedFirst(a, result)
    ensures |result| == Min(Max(count, 1), |a|)
  {
    result := [];
    var rest := queue.Keys;
    ghost var places: seq<nat> := [];
    BetweenStart(queue, a);
    while rest != {}
      invariant rest <= queue.Keys
      invariant Between(a, places, rest) && AtPlaces(a, places, result)
      invariant |result| < count || result == []
      invariant forall p, q :: p in queue && p !in rest && q in rest ==> q < p
      decreases |rest|
    {
      var p := LastKey(rest);
      assert Highest(queue, rest, p);
      assert ListIs(queue, p, a, Priority(p));
      NextPriority(queue, a, places, rest, p);
      result, places := ServeList(queue[p], count, result, places, a, p);
      if |result| >= count {
        LeadsAtMost(a, places);
        return;
      }
      PriorityDone(queue, a, places, rest, p);
      rest := rest - {p};
    }
    AllServed(a, places);
  }

  class Mempool {
    var txs: map<string, Tx>
    var queue: map<nat, seq<string>>
    var senders: map<string, seq<string>>
    var received: nat
    var accepted: nat
    var rejected: nat
    var expired: nat
    ghost var entries: seq<Entry>

    ghost function Value(): Pool
      reads this
    {
      Pool(entries, received, accepted, rejected)
    }

    /** The three indexes are those of the list of entries. */
    ghost predicate Indexed()
      reads this`txs, this`queue, this`senders, this`entries
    {
      Distinct(entries) && TxsHold(txs, entries) && QueueHolds(queue, entries) && SendersHold(senders, entries)
    }

    ghost predicate Valid()
      reads this
    {
      Indexed() && |entries| <= MAX_MEMPOOL_SIZE && received == accepted + rejected
    }

    constructor ()
      ensures Valid() && |entries| == received == accepted == rejected == expired == 0
    {
      txs, queue, senders := map[], map[], map[];
      received, accepted, rejected, expired := 0, 0, 0, 0;
      entries := [];
      new;
      NothingHolds(entries);
    }

    method RemoveTransaction(h: string) returns (r: Option<Tx>)
      requires Indexed()
      modifies this`txs, this`queue, this`senders, this`entries
      ensures Indexed() && entries == Minus(old(entries), {h})
      ensures r == if h in old(txs) then Some(old(txs)[h]) else None
    {
      if h !in txs {
        AbsentMinus(entries, h);
        return None;
      }
      var tx := txs[h];
      RemovalKeepsIndexes(txs, queue, senders, entries, h);
      var lists := Shrunk(queue, tx.priority, h);
      var sent := Shrunk(senders, tx.block.account, h);
      txs, queue, senders, entries := txs - {h}, lists, sent, Minus(entries, {h});
      r := Some(tx);
    }

    method EvictLowestPriority()
      requires Indexed() && entries != []
      modifies this`txs, this`queue, this`senders, this`entries
      ensures Indexed() && entries == WithoutLowest(old(entries))
    {
      QueueLists(queue, entries, 0);
      var p := FirstKey(queue.Keys);
      FirstOfLowest(queue, entries, p);
      var removed := RemoveTransaction(queue[p][0]);
    }

    /** In a full pool, evict an entry if the newcomer outbids it; false if there is no room. */
    method MakeRoom(priority: nat) returns (ok: bool)
      requires Indexed() && |entries| <= MAX_MEMPOOL_SIZE
      modifies this`txs, this`queue, this`senders, this`entries
      ensures Indexed()
      ensures ok <==> !Full(old(Value())) || Outbid(old(entries), priority)
      ensures entries == if ok then Room(old(Value())) else old(entries)
    {
      CountIs(entries);
      if |txs| < MAX_MEMPOOL_SIZE {
        return true;
      }
      QueueLists(queue, entries, 0);
      var lowest := FirstKey(queue.Keys);
      FirstOfLowest(queue, entries, lowest);
      if lowest >= priority {
        return false;
      }
      EvictLowestPriority();
      ok := true;
    }

    /** Let a transaction in if it is new, there is room and it is well-formed. */
    method Admit(env: Env, block: Block, fee: nat, priority: nat, now: nat) returns (ok: bool)
      requires Valid()
      modifies this`txs, this`queue, this`senders, this`entries
      ensures Indexed()
      ensures var effect := AddEffect(env, old(Value()), block, fee, priority, now);
              ok == effect.0 && entries == effect.1.entries
    {
      ghost var p := Value();
      RoomFits(p);
      var hash := env.hash(block);
      if hash in txs {
        return false;
      }
      var room := MakeRoom(priority);
      if !room || block.account == "" || block.signature == "" {
        return false;
      }
      Insert(hash, Tx(block, now, priority, fee));
      ok := true;
    }

    /** `Some(hash)` if the transaction is let in. */
    method AddTransaction(env: Env, block: Block, fee: nat, priority: nat, now: nat) returns (r: Option<string>)
      requires Valid()
      modifies this
      ensures Valid() && expired == old(expired)
      ensures Value() == AddEffect(env, old(Value()), block, fee, priority, now).1
      ensures r == if AddEffect(env, old(Value()), block, fee, priority, now).0 then Some(env.hash(block)) else None
    {
      AddKeepsInv(env, Value(), block, fee, priority, now);
      var ok := Admit(env, block, fee, priority, now);
      Count(ok);
      r := if ok then Some(env.hash(block)) else None;
    }

    method Count(ok: bool)
      requires Indexed()
      modifies this`received, this`accepted, this`rejected
      ensures Indexed() && received == old(received) + 1
      ensures accepted == (if ok then old(accepted) + 1 else old(accepted))
      ensures rejected == (if ok then old(rejected) else old(rejected) + 1)
    {
      received := received + 1;
      if ok {
        accepted := accepted + 1;
      } else {
        rejected := rejected + 1;
      }
    }

    method Insert(hash: string, tx: Tx)
      requires Indexed() && hash !in txs
      modifies this`txs, this`queue, this`senders, this`entries
      ensures Indexed() && entries == old(entries) + [Entry(hash, tx)]
    {
      var e := Entry(hash, tx);
      TxsAfterAppend(txs, entries, e);
      QueueAfterAppend(queue, entries, e);
      SendersAfterAppend(senders, entries, e);
      assert (entries + [e])[..|entries + [e]| - 1] == entries;
      txs := txs[hash := tx];
      queue := queue[tx.priority := ListAt(queue, tx.priority) + [hash]];
      senders := senders[tx.block.account := ListAt(senders, tx.block.account) + [hash]];
      entries := entries + [e];
    }

    /** The next transactions by priority, then arrival: `count` of them, but at least one, if there are that many. */
    method GetNextTransactions(count: nat) returns (result: seq<string>)
      requires Valid()
      ensures ServedFirst(entries, result)
      ensures |result| == Min(Max(count, 1), |entries|)
    {
      result := Serve(queue, count, entries);
    }

    method GetTransactionsBySender(address: string) returns (r: seq<string>)
      requires Valid()
      ensures r == Pick(entries, Sender(address))
    {
      assert ListIs(senders, address, entries, Sender(address));
      r := ListAt(senders, address);
    }

    method RemoveAll(hs: set<string>)
      requires Indexed()
      modifies this`txs, this`queue, this`senders, this`entries
      ensures Indexed() && entries == Minus(old(entries), hs)
    {
      ghost var a := entries;
      var rest := hs;
      ghost var gone: set<string> := {};
      NothingMinus(a);
      while rest != {}
        invariant gone + rest == hs && Indexed() && entries == Minus(a, gone)
        decreases |rest|
      {
        var h :| h in rest;
        var removed := RemoveTransaction(h);
        MinusTwice(a, gone, {h});
        gone := gone + {h};
        rest := rest - {h};
      }
      assert gone == hs;
    }

    /** Remove what is older than a day. */
    method RemoveExpired(now: nat) returns (count: nat)
      requires Valid()
      modifies this
      ensures Valid() && entries == Minus(old(entries), Expired(old(entries), now))
      ensures received == old(received) && accepted == old(accepted) && rejected == old(rejected)
      ensures count == |Expired(old(entries), now)| && expired == old(expired) + count
    {
      var stale := set h | h in txs && Monus(now, txs[h].receivedAt) > TX_EXPIRATION_SECS;
      StaleAreExpired(txs, entries, now);
      MinusIs(entries, stale);
      count := |stale|;
      RemoveAll(stale);
      expired := expired + count;
    }
  }
}
