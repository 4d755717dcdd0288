/**
 * The mempool as a list of transactions in order of arrival: what each call does to
 * that list, and what its three indexes then have to hold.
 */
module MempoolModel {
  import opened Words
  import opened LedgerModel

  const MAX_MEMPOOL_SIZE: nat := 10_000
  const TX_EXPIRATION_SECS: nat := 86_400

  datatype Tx = Tx(block: Block, receivedAt: nat, priority: nat, fee: nat)

  datatype Entry = Entry(hash: string, tx: Tx)

  /** What an index list is kept for. */
  datatype Key = Priority(priority: nat) | Sender(account: string)

  predicate Matches(e: Entry, k: Key) {
    match k
    case Priority(p) => e.tx.priority == p
    case Sender(a) => e.tx.block.account == a
  }

  /** The hashes filed under a key, by arrival. */
  ghost function Pick(a: seq<Entry>, k: Key): seq<string> {
    if a == [] then []
    else Pick(a[..|a| - 1], k) + (if Matches(a[|a| - 1], k) then [a[|a| - 1].hash] else [])
  }

  /** The places they come from. */
  ghost function Places(a: seq<Entry>, k: Key): seq<nat> {
    if a == [] then []
    else Places(a[..|a| - 1], k) + (if Matches(a[|a| - 1], k) then [|a| - 1] else [])
  }

  ghost function Hashes(a: seq<Entry>): set<string> {
    set i | 0 <= i < |a| :: a[i].hash
  }

  /** The list without some hashes. */
  ghost function Minus(a: seq<Entry>, hs: set<string>): seq<Entry> {
    if a == [] then []
    else Minus(a[..|a| - 1], hs) + (if a[|a| - 1].hash in hs then [] else [a[|a| - 1]])
  }

  /** No hash occurs twice. */
  ghost predicate Distinct(a: seq<Entry>) {
    a == [] || (Distinct(a[..|a| - 1]) && a[|a| - 1].hash !in Hashes(a[..|a| - 1]))
  }

  // ---------------------------------------------------------------- the pool and its calls

  datatype Pool = Pool(entries: seq<Entry>, received: nat, accepted: nat, rejected: nat)

  datatype Op =
    | Add(block: Block, fee: nat, priority: nat, now: nat)
    | Remove(hash: string)
    | Expire(now: nat)

  ghost predicate Full(p: Pool) {
    |p.entries| >= MAX_MEMPOOL_SIZE
  }

  /** `i` is the place of the entry to evict: none has a lower priority, and none as low came before. */
  ghost predicate Lowest(a: seq<Entry>, i: nat) {
    && i < |a|
    && (forall j :: 0 <= j < |a| ==> a[i].tx.priority <= a[j].tx.priority)
    && (forall j :: 0 <= j < i ==> a[i].tx.priority < a[j].tx.priority)
  }

  lemma {:induction false} LowestExists(a: seq<Entry>)
    requires a != []
    ensures exists i: nat :: Lowest(a, i)
  {
    var b := a[..|a| - 1];
    if b == [] {
      assert Lowest(a, 0);
    } else {
      LowestExists(b);
      var i: nat :| Lowest(b, i);
      assert forall j :: 0 <= j < |b| ==> b[j] == a[j];
      if a[|b|].tx.priority < a[i].tx.priority {
        assert Lowest(a, |b|);
      } else {
        assert Lowest(a, i);
      }
    }
  }

  ghost function LowestPlace(a: seq<Entry>): (i: nat)
    requires a != []
    ensures Lowest(a, i)
  {
    LowestExists(a);
    var i: nat :| Lowest(a, i);
    i
  }

  ghost function WithoutLowest(a: seq<Entry>): seq<Entry>
    requires a != []
  {
    Minus(a, {a[LowestPlace(a)].hash})
  }

  ghost predicate WellFormed(b: Block) {
    b.account != "" && b.signature != ""
  }

  /** Some entry has a lower priority. */
  ghost predicate Outbid(a: seq<Entry>, priority: nat)
    requires a != []
  {
    a[LowestPlace(a)].tx.priority < priority
  }

  /** The entries once there is room for one more. */
  ghost function Room(p: Pool): seq<Entry> {
    if Full(p) then WithoutLowest(p.entries) else p.entries
  }

  function Submitted(env: Env, b: Block, fee: nat, priority: nat, now: nat): Entry {
    Entry(env.hash(b), Tx(b, now, priority, fee))
  }

  /** Whether a new transaction is let in, and the pool afterwards. */
  ghost function AddEffect(env: Env, p: Pool, b: Block, fee: nat, priority: nat, now: nat): (bool, Pool) {
    if env.hash(b) in Hashes(p.entries) || (Full(p) && !Outbid(p.entries, priority)) then
      (false, Pool(p.entries, p.received + 1, p.accepted, p.rejected + 1))
    else if !WellFormed(b) then
      (false, Pool(Room(p), p.received + 1, p.accepted, p.rejected + 1))
    else
      (true, Pool(Room(p) + [Submitted(env, b, fee, priority, now)], p.received + 1, p.accepted + 1, p.rejected))
  }

  ghost function Expired(a: seq<Entry>, now: nat): set<string> {
    set i | 0 <= i < |a| && Monus(now, a[i].tx.receivedAt) > TX_EXPIRATION_SECS :: a[i].hash
  }

  ghost function Apply(env: Env, p: Pool, op: Op): Pool {
    match op
    case Add(b, fee, priority, now) => AddEffect(env, p, b, fee, priority, now).1
    case Remove(h) => p.(entries := Minus(p.entries, {h}))
    case Expire(now) => p.(entries := Minus(p.entries, Expired(p.entries, now)))
  }

  ghost function Run(env: Env, p: Pool, ops: seq<Op>): Pool
    decreases |ops|
  {
    if ops == [] then p else Run(env, Apply(env, p, ops[0]), ops[1..])
  }

  const EMPTY := Pool([], 0, 0, 0)

  // ---------------------------------------------------------------- facts about lists

  lemma PickAppend(a: seq<Entry>, e: Entry, k: Key)
    ensures Pick(a + [e], k) == Pick(a, k) + if Matches(e, k) then [e.hash] else []
  {
    assert (a + [e])[..|a + [e]| - 1] == a;
  }

  /** The listed places are places of matching entries, in order. */
  ghost predicate Filed(a: seq<Entry>, k: Key, hashes: seq<string>, places: seq<nat>) {
    && |hashes| == |places|
    && (forall i :: 0 <= i < |places| ==> places[i] < |a| && Matches(a[places[i]], k) && hashes[i] == a[places[i]].hash)
    && (forall i, j :: 0 <= i < j < |places| ==> places[i] < places[j])
  }

  lemma FiledNext(b: seq<Entry>, e: Entry, k: Key, hashes: seq<string>, places: seq<nat>)
    requires Filed(b, k, hashes, places)
    ensures Filed(b + [e], k, hashes, places)
    ensures Matches(e, k) ==> Filed(b + [e], k, hashes + [e.hash], places + [|b|])
  {
  }

  lemma {:induction false} PickIsFiled(a: seq<Entry>, k: Key)
    ensures Filed(a, k, Pick(a, k), Places(a, k))
  {
    if a != [] {
      var b, e := a[..|a| - 1], a[|a| - 1];
      PickIsFiled(b, k);
      FiledNext(b, e, k, Pick(b, k), Places(b, k));
      assert a == b + [e];
      if !Matches(e, k) {
        assert Pick(b, k) + [] == Pick(b, k) && Places(b, k) + [] == Places(b, k);
      }
    }
  }

  lemma {:induction false} PlacesComplete(a: seq<Entry>, k: Key, x: nat)
    requires x < |a| && Matches(a[x], k)
    ensures x in Places(a, k)
  {
    var b := a[..|a| - 1];
    if x < |b| {
      assert b[x] == a[x];
      PlacesComplete(b, k, x);
    }
  }

  lemma PickIs(a: seq<Entry>, k: Key)
    ensures Filed(a, k, Pick(a, k), Places(a, k))
    ensures forall x :: 0 <= x < |a| && Matches(a[x], k) ==> x in Places(a, k)
  {
    PickIsFiled(a, k);
    forall x | 0 <= x < |a| && Matches(a[x], k) ensures x in Places(a, k) {
      PlacesComplete(a, k, x);
    }
  }

  lemma MinusLast(b: seq<Entry>, e: Entry, hs: set<string>)
    ensures Minus(b + [e], hs) == Minus(b, hs) + if e.hash in hs then [] else [e]
  {
    assert (b + [e])[..|b + [e]| - 1] == b;
  }

  lemma {:induction false} MinusIs(a: seq<Entry>, hs: set<string>)
    ensures |Minus(a, hs)| <= |a|
    ensures forall e :: e in Minus(a, hs) <==> e in a && e.hash !in hs
  {
    if a != [] {
      MinusIs(a[..|a| - 1], hs);
      assert a == a[..|a| - 1] + [a[|a| - 1]];
    }
  }

  lemma {:induction false} MinusNothing(a: seq<Entry>, hs: set<string>)
    requires forall i :: 0 <= i < |a| ==> a[i].hash !in hs
    ensures Minus(a, hs) == a
  {
    if a != [] {
      MinusNothing(a[..|a| - 1], hs);
      assert a == a[..|a| - 1] + [a[|a| - 1]];
    }
  }

  /** Taking one out of a list without repetitions makes it shorter by one. */
  lemma {:induction false} MinusOne(a: seq<Entry>, h: string)
    requires Distinct(a) && h in Hashes(a)
    ensures |Minus(a, {h})| == |a| - 1
  {
    var b, e := a[..|a| - 1], a[|a| - 1];
    assert a == b + [e];
    HashesAppend(b, e);
    if e.hash == h {
      forall i | 0 <= i < |b| ensures b[i].hash !in {h} { assert b[i].hash in Hashes(b); }
      MinusNothing(b, {h});
    } else {
      MinusOne(b, h);
    }
  }

  lemma {:induction false} MinusTwice(a: seq<Entry>, s: set<string>, t: set<string>)
    ensures Minus(Minus(a, s), t) == Minus(a, s + t)
  {
    if a != [] {
      var b, e := a[..|a| - 1], a[|a| - 1];
      MinusTwice(b, s, t);
      var m := Minus(b, s);
      if e.hash in s {
        assert Minus(a, s) == m;
      } else {
        assert Minus(a, s) == m + [e] && (m + [e])[..|m + [e]| - 1] == m;
      }
    }
  }

  lemma HashesAppend(a: seq<Entry>, e: Entry)
    ensures Hashes(a + [e]) == Hashes(a) + {e.hash}
  {
    var c := a + [e];
    forall h ensures h in Hashes(c) <==> h in Hashes(a) + {e.hash} {
      if h in Hashes(a) {
        var i :| 0 <= i < |a| && a[i].hash == h;
        assert c[i].hash == h;
      }
      if h == e.hash { assert c[|a|].hash == h; }
    }
  }

  lemma HashesMinus(a: seq<Entry>, hs: set<string>)
    ensures Hashes(Minus(a, hs)) == Hashes(a) - hs
  {
    MinusIs(a, hs);
    var m := Minus(a, hs);
    forall h ensures h in Hashes(m) <==> h in Hashes(a) - hs {
      if h in Hashes(m) {
        var i :| 0 <= i < |m| && m[i].hash == h;
        assert m[i] in a;
      }
      if h in Hashes(a) - hs {
        var i :| 0 <= i < |a| && a[i].hash == h;
        assert a[i] in m;
      }
    }
  }

  lemma {:induction false} MinusDistinct(a: seq<Entry>, hs: set<string>)
    requires Distinct(a)
    ensures Distinct(Minus(a, hs))
  {
    if a != [] {
      var b, e := a[..|a| - 1], a[|a| - 1];
      MinusDistinct(b, hs);
      HashesMinus(b, hs);
      var m := Minus(b, hs);
      if e.hash in hs {
        assert Minus(a, hs) == m;
      } else {
        assert Minus(a, hs) == m + [e] && (m + [e])[..|m + [e]| - 1] == m;
      }
    }
  }

  lemma {:induction false} DistinctPairs(a: seq<Entry>)
    requires Distinct(a)
    ensures forall i, j :: 0 <= i < j < |a| ==> a[i].hash != a[j].hash
  {
    if a != [] {
      var b := a[..|a| - 1];
      DistinctPairs(b);
      forall i, j | 0 <= i < j < |a| ensures a[i].hash != a[j].hash {
        assert b[i] == a[i];
        if j < |b| {
          assert b[j] == a[j];
        } else {
          assert b[i].hash in Hashes(b);
        }
      }
    }
  }

  lemma {:induction false} CountIs(a: seq<Entry>)
    requires Distinct(a)
    ensures |Hashes(a)| == |a|
  {
    if a != [] {
      var b, e := a[..|a| - 1], a[|a| - 1];
      CountIs(b);
      HashesAppend(b, e);
      assert a == b + [e];
    } else {
      assert Hashes(a) == {};
    }
  }

  lemma LowestUnique(a: seq<Entry>, i: nat, j: nat)
    requires Lowest(a, i) && Lowest(a, j)
    ensures i == j
  {
    assert a[i].tx.priority == a[j].tx.priority;
  }

  // ---------------------------------------------------------------- what every run keeps

  ghost predicate Inv(p: Pool) {
    Distinct(p.entries) && |p.entries| <= MAX_MEMPOOL_SIZE && p.received == p.accepted + p.rejected
  }

  lemma EvictionMakesRoom(a: seq<Entry>)
    requires Distinct(a) && a != []
    ensures var w := WithoutLowest(a); Distinct(w) && |w| == |a| - 1 && Hashes(w) <= Hashes(a)
  {
    var i := LowestPlace(a);
    assert a[i].hash in Hashes(a);
    MinusDistinct(a, {a[i].hash});
    MinusOne(a, a[i].hash);
    HashesMinus(a, {a[i].hash});
  }

  lemma AppendDistinct(a: seq<Entry>, e: Entry)
    requires Distinct(a) && e.hash !in Hashes(a)
    ensures Distinct(a + [e])
  {
    assert (a + [e])[..|a + [e]| - 1] == a;
  }

  lemma RoomFits(p: Pool)
    requires Inv(p)
    ensures Distinct(Room(p)) && |Room(p)| < MAX_MEMPOOL_SIZE && Hashes(Room(p)) <= Hashes(p.entries)
  {
    if Full(p) { EvictionMakesRoom(p.entries); }
  }

  lemma AddKeepsInv(env: Env, p: Pool, b: Block, fee: nat, priority: nat, now: nat)
    requires Inv(p)
    ensures Inv(AddEffect(env, p, b, fee, priority, now).1)
  {
    RoomFits(p);
    if env.hash(b) !in Hashes(p.entries) { AppendDistinct(Room(p), Submitted(env, b, fee, priority, now)); }
  }

  lemma ApplyKeepsInv(env: Env, p: Pool, op: Op)
    requires Inv(p)
    ensures Inv(Apply(env, p, op))
  {
    match op
    case Add(b, fee, priority, now) => AddKeepsInv(env, p, b, fee, priority, now);
    case Remove(h) =>
      MinusIs(p.entries, {h});
      MinusDistinct(p.entries, {h});
    case Expire(now) =>
      MinusIs(p.entries, Expired(p.entries, now));
      MinusDistinct(p.entries, Expired(p.entries, now));
  }

  /** Over every run: no transaction twice, at most 10,000, and every submission counted as accepted or rejected. */
  lemma {:induction false} RunKeepsInv(env: Env, p: Pool, ops: seq<Op>)
    requires Inv(p)
    ensures Inv(Run(env, p, ops))
    decreases |ops|
  {
    if ops != [] {
      ApplyKeepsInv(env, p, ops[0]);
      RunKeepsInv(env, Apply(env, p, ops[0]), ops[1..]);
    }
  }

  /** The calls that are refused, as a caller can tell beforehand. */
  ghost predicate Refused(env: Env, p: Pool, b: Block, priority: nat) {
    env.hash(b) in Hashes(p.entries) || (Full(p) && !Outbid(p.entries, priority)) || !WellFormed(b)
  }

  /** A malformed newcomer that outbids an entry of a full pool. */
  ghost predicate EvictsForNothing(env: Env, p: Pool, b: Block, priority: nat) {
    !WellFormed(b) && env.hash(b) !in Hashes(p.entries) && Full(p) && Outbid(p.entries, priority)
  }

  /**
   * A refused transaction leaves the contents alone, except that one with an empty
   * account or signature evicts an entry if the pool is full and it outbids one.
   */
  lemma RefusalKeepsContents(env: Env, p: Pool, b: Block, fee: nat, priority: nat, now: nat)
    requires Inv(p)
    ensures var (ok, q) := AddEffect(env, p, b, fee, priority, now);
            && (!ok <==> Refused(env, p, b, priority))
            && (Refused(env, p, b, priority) ==>
                  (q.entries == p.entries <==> !EvictsForNothing(env, p, b, priority)))
  {
    RoomFits(p);
  }

  /** An accepted transaction comes last; the only one that goes has a lower priority, the lowest there is. */
  lemma AcceptanceAppends(env: Env, p: Pool, b: Block, fee: nat, priority: nat, now: nat)
    requires Inv(p)
    ensures var (ok, q) := AddEffect(env, p, b, fee, priority, now);
            ok ==>
              && q.entries == Room(p) + [Submitted(env, b, fee, priority, now)]
              && (forall i :: 0 <= i < |p.entries| && p.entries[i] !in q.entries ==>
                    Full(p) && i == LowestPlace(p.entries) && p.entries[i].tx.priority < priority)
  {
    var (ok, q) := AddEffect(env, p, b, fee, priority, now);
    if ok {
      DistinctPairs(p.entries);
      if Full(p) { MinusIs(p.entries, {p.entries[LowestPlace(p.entries)].hash}); }
      assert forall e :: e in Room(p) ==> e in q.entries;
    }
  }

  // ---------------------------------------------------------------- stored under their own hashes

  /** Every entry is a well-formed transaction, stored under its own hash. */
  ghost predicate Genuine(env: Env, a: seq<Entry>) {
    forall e :: e in a ==> e.hash == env.hash(e.tx.block) && WellFormed(e.tx.block)
  }

  lemma ApplyKeepsGenuine(env: Env, p: Pool, op: Op)
    requires Genuine(env, p.entries)
    ensures Genuine(env, Apply(env, p, op).entries)
  {
    match op
    case Add(_, _, _, _) => if Full(p) { MinusIs(p.entries, {p.entries[LowestPlace(p.entries)].hash}); }
    case Remove(h) => MinusIs(p.entries, {h});
    case Expire(now) => MinusIs(p.entries, Expired(p.entries, now));
  }

  /** Over every run a malformed transaction is never stored, nor one under the hash of another. */
  lemma {:induction false} RunKeepsGenuine(env: Env, p: Pool, ops: seq<Op>)
    requires Genuine(env, p.entries)
    ensures Genuine(env, Run(env, p, ops).entries)
    decreases |ops|
  {
    if ops != [] {
      ApplyKeepsGenuine(env, p, ops[0]);
      RunKeepsGenuine(env, Apply(env, p, ops[0]), ops[1..]);
    }
  }

  // ---------------------------------------------------------------- a refusal that evicts

  /** One submission of each block, all of priority 0. */
  function Adds(blocks: seq<Block>): seq<Op> {
    seq(|blocks|, i requires 0 <= i < |blocks| => Add(blocks[i], 0, 0, 0))
  }

  ghost predicate DifferentHashes(env: Env, blocks: seq<Block>) {
    forall i, j :: 0 <= i < j < |blocks| ==> env.hash(blocks[i]) != env.hash(blocks[j])
  }

  /** The pool holds the first `n` blocks, and nothing has been refused. */
  ghost predicate HoldsFirst(env: Env, p: Pool, blocks: seq<Block>, n: nat) {
    n <= |blocks| && p.entries == seq(n, i requires 0 <= i < n => Submitted(env, blocks[i], 0, 0, 0))
  }

  lemma HoldsNext(env: Env, p: Pool, blocks: seq<Block>, n: nat)
    requires HoldsFirst(env, p, blocks, n) && n < |blocks| <= MAX_MEMPOOL_SIZE
    requires DifferentHashes(env, blocks) && WellFormed(blocks[n])
    ensures HoldsFirst(env, AddEffect(env, p, blocks[n], 0, 0, 0).1, blocks, n + 1)
  {
    assert env.hash(blocks[n]) !in Hashes(p.entries);
  }

  lemma {:induction false} FillFrom(env: Env, p: Pool, blocks: seq<Block>, n: nat)
    requires HoldsFirst(env, p, blocks, n) && |blocks| <= MAX_MEMPOOL_SIZE
    requires DifferentHashes(env, blocks) && forall b :: b in blocks ==> WellFormed(b)
    ensures HoldsFirst(env, Run(env, p, Adds(blocks)[n..]), blocks, |blocks|)
    decreases |blocks| - n
  {
    if n < |blocks| {
      HoldsNext(env, p, blocks, n);
      FillFrom(env, Apply(env, p, Adds(blocks)[n]), blocks, n + 1);
      assert Adds(blocks)[n..][1..] == Adds(blocks)[n + 1..];
    }
  }

  /** Once 10,000 blocks of priority 0 are in, any malformed one of higher priority is refused and evicts. */
  lemma RefusalEvicts(env: Env, blocks: seq<Block>, b: Block, priority: nat)
    requires |blocks| == MAX_MEMPOOL_SIZE && (forall c :: c in blocks ==> WellFormed(c))
    requires DifferentHashes(env, blocks + [b]) && !WellFormed(b) && priority > 0
    ensures var p := Run(env, EMPTY, Adds(blocks));
            && EvictsForNothing(env, p, b, priority)
            && var (ok, q) := AddEffect(env, p, b, 0, priority, 0);
            !ok && q.entries != p.entries
  {
    assert forall i :: 0 <= i < |blocks| ==> (blocks + [b])[i] == blocks[i];
    FillFrom(env, EMPTY, blocks, 0);
    assert Adds(blocks)[0..] == Adds(blocks);
    var p := Run(env, EMPTY, Adds(blocks));
    RunKeepsInv(env, EMPTY, Adds(blocks));
    forall i | 0 <= i < |blocks| ensures p.entries[i].hash != env.hash(b) {
      assert (blocks + [b])[i] == blocks[i] && (blocks + [b])[|blocks|] == b;
    }
    RefusalKeepsContents(env, p, b, 0, priority, 0);
  }

  /** A block of an account named by `n + 1` letters. */
  function Unary(n: nat, signature: string): Block {
    Block(seq(n + 1, _ => 'a'), "0", Send, 1, "b", signature, "k", 1, 1, 1)
  }

  /** Such blocks there are: where the hash tells accounts apart, ten thousand accounts of one block each. */
  lemma SomeRefusalEvicts(env: Env, blocks: seq<Block>)
    requires forall b: Block :: env.hash(b) == "h" + b.account
    requires blocks == seq(MAX_MEMPOOL_SIZE, i requires 0 <= i < MAX_MEMPOOL_SIZE => Unary(i, "s"))
    ensures var p := Run(env, EMPTY, Adds(blocks));
            var (ok, q) := AddEffect(env, p, Unary(MAX_MEMPOOL_SIZE, ""), 0, 1, 0);
            env.Valid() && |p.entries| == MAX_MEMPOOL_SIZE && !ok && q.entries != p.entries
  {
    var b := Unary(MAX_MEMPOOL_SIZE, "");
    forall c: Block ensures env.hash(c) != "0" { assert env.hash(c)[0] == 'h'; }
    assert forall c :: c in blocks ==> WellFormed(c);
    forall i, j | 0 <= i < j < |blocks + [b]| ensures env.hash((blocks + [b])[i]) != env.hash((blocks + [b])[j]) {
      assert |env.hash((blocks + [b])[i])| == i + 2 && |env.hash((blocks + [b])[j])| == j + 2;
    }
    RefusalEvicts(env, blocks, b, 1);
    RunKeepsInv(env, EMPTY, Adds(blocks));
  }
}
