/**
 * The C implementation of the sponge: the one-shot, lane-wise functions and the incremental,
 * byte-wise ones. The specifications say what each call does to the context; `SpongeChunks`
 * says what they compute together.
 */
module Fips202 {
  import opened Lanes
  import opened Keccak

  // ---------------------------------------------------------------- incremental specification

  /** The 25 lanes, and the 26th word: bytes absorbed but not permuted, or not yet squeezed. */
  datatype Inc = Inc(s: KState, pending: nat)

  function AbsorbByte(f: Permutation, r: nat, c: Inc, b: Byte): (c': Inc)
    requires IsRate(r) && c.pending < r
    ensures c'.pending < r
  {
    var s := XorByte(c.s, c.pending, b);
    if c.pending + 1 == r then Inc(f(s), 0) else Inc(s, c.pending + 1)
  }

  ghost function Absorb(f: Permutation, r: nat, c: Inc, m: seq<Byte>): (c': Inc)
    requires IsRate(r) && c.pending < r
    ensures c'.pending < r
    decreases |m|
  {
    if m == [] then c
    else AbsorbByte(f, r, Absorb(f, r, c, m[..|m| - 1]), m[|m| - 1])
  }

  ghost function Finalize(r: nat, c: Inc, p: Byte): Inc
    requires IsRate(r) && c.pending < r
  {
    Inc(XorByte(XorByte(c.s, c.pending, p), r - 1, Byte(128)), 0)
  }

  function SqueezeByte(f: Permutation, r: nat, c: Inc): (res: (Inc, Byte))
    requires IsRate(r) && c.pending <= r
    ensures res.0.pending <= r
  {
    if c.pending == 0 then (Inc(f(c.s), r - 1), f(c.s)[0])
    else (Inc(c.s, c.pending - 1), c.s[r - c.pending])
  }

  ghost function Squeeze(f: Permutation, r: nat, c: Inc, n: nat): (res: (Inc, seq<Byte>))
    requires IsRate(r) && c.pending <= r
    ensures res.0.pending <= r && |res.1| == n
    decreases n
  {
    if n == 0 then (c, [])
    else
      var (c', out) := Squeeze(f, r, c, n - 1);
      var (c'', b) := SqueezeByte(f, r, c');
      (c'', out + [b])
  }

  // ---------------------------------------------------------------- splitting the input and the output

  lemma {:induction false} AbsorbConcat(f: Permutation, r: nat, c: Inc, m: seq<Byte>, n: seq<Byte>)
    requires IsRate(r) && c.pending < r
    ensures Absorb(f, r, c, m + n) == Absorb(f, r, Absorb(f, r, c, m), n)
    decreases |n|
  {
    if n == [] {
      assert m + n == m;
    } else {
      var k := |n| - 1;
      assert (m + n)[..|m + n| - 1] == m + n[..k];
      AbsorbConcat(f, r, c, m, n[..k]);
    }
  }

  lemma {:induction false} SqueezeConcat(f: Permutation, r: nat, c: Inc, m: nat, n: nat)
    requires IsRate(r) && c.pending <= r
    ensures
      var (c1, o1) := Squeeze(f, r, c, m);
      var (c2, o2) := Squeeze(f, r, c1, n);
      Squeeze(f, r, c, m + n) == (c2, o1 + o2)
    decreases n
  {
    if n == 0 {
      var (c1, o1) := Squeeze(f, r, c, m);
      assert o1 + [] == o1;
    } else {
      SqueezeConcat(f, r, c, m, n - 1);
      var (c1, o1) := Squeeze(f, r, c, m);
      var (c2, o2) := Squeeze(f, r, c1, n - 1);
      var (c3, b) := SqueezeByte(f, r, c2);
      assert o1 + (o2 + [b]) == o1 + o2 + [b];
    }
  }

  /** Bytes that do not fill the block are only XORed in; those that fill it exactly are permuted. */
  lemma {:induction false} AbsorbRun(f: Permutation, r: nat, c: Inc, bs: seq<Byte>)
    requires IsRate(r) && c.pending < r && c.pending + |bs| <= r
    ensures c.pending + |bs| < r ==> Absorb(f, r, c, bs) == Inc(XorBytes(c.s, c.pending, bs), c.pending + |bs|)
    ensures c.pending + |bs| == r ==> Absorb(f, r, c, bs) == Inc(f(XorBytes(c.s, c.pending, bs)), 0)
    decreases |bs|
  {
    if bs != [] {
      AbsorbRun(f, r, c, bs[..|bs| - 1]);
    }
  }

  /** Leftover bytes come straight from the state. */
  lemma {:induction false} SqueezeRun(f: Permutation, r: nat, c: Inc, n: nat)
    requires IsRate(r) && n <= c.pending <= r
    ensures Squeeze(f, r, c, n) == (Inc(c.s, c.pending - n), c.s[r - c.pending..r - c.pending + n])
    decreases n
  {
    if n > 0 {
      SqueezeRun(f, r, c, n - 1);
      var i := r - c.pending;
      assert c.s[i..i + n] == c.s[i..i + n - 1] + [c.s[i + n - 1]];
    } else {
      assert c.s[r - c.pending..r - c.pending] == [];
    }
  }

  /** With nothing left over, a squeeze of up to a block permutes once. */
  lemma SqueezeFresh(f: Permutation, r: nat, s: KState, n: nat)
    requires IsRate(r) && 0 < n <= r
    ensures Squeeze(f, r, Inc(s, 0), n) == (Inc(f(s), r - n), f(s)[..n])
  {
    var c1 := Inc(f(s), r - 1);
    assert Squeeze(f, r, Inc(s, 0), 1) == (c1, f(s)[..1]) by {
      assert Squeeze(f, r, Inc(s, 0), 0) == (Inc(s, 0), []);
      assert [] + [f(s)[0]] == f(s)[..1];
    }
    SqueezeConcat(f, r, Inc(s, 0), 1, n - 1);
    SqueezeRun(f, r, c1, n - 1);
    assert f(s)[..n] == f(s)[..1] + f(s)[1..n];
  }

  // ---------------------------------------------------------------- one-shot specification

  /** FIPS 202 absorbing of a whole message, stopping short of the last application of `f`. */
  ghost function Absorbed(f: Permutation, r: nat, s: KState, m: seq<Byte>, p: Byte): KState
    requires IsRate(r)
    decreases |m|
  {
    if |m| < r then Xored(s, LastBlock(r, m, p))
    else Absorbed(f, r, f(Xored(s, m[..r])), m[r..], p)
  }

  lemma {:induction false} AbsorbedIsFips(f: Permutation, r: nat, s: KState, m: seq<Byte>, p: Byte)
    requires IsRate(r)
    ensures f(Absorbed(f, r, s, m, p)) == FipsAbsorb(f, r, s, Padded(r, m, p))
    decreases |m|
  {
    var padded := Padded(r, m, p);
    if |m| < r {
      assert padded[..r] == padded;
      assert FipsAbsorb(f, r, f(Xored(s, padded)), padded[r..]) == f(Xored(s, padded));
    } else {
      AbsorbedIsFips(f, r, f(Xored(s, m[..r])), m[r..], p);
      assert padded[..r] == m[..r] && padded[r..] == Padded(r, m[r..], p);
    }
  }

  lemma XorBytesIsXored(s: KState, block: seq<Byte>)
    requires |block| <= 200
    ensures XorBytes(s, 0, block) == Xored(s, block)
  {
    forall k | 0 <= k < 200 { XorBytesAt(s, 0, block, k); }
  }

  /** The byte `Finalize` leaves XORed in at position `k` of a block whose message part is `m`. */
  lemma FinalizedAt(r: nat, s: KState, m: seq<Byte>, p: Byte, k: nat)
    requires IsRate(r) && |m| < r && k < 200
    ensures
      var t := Finalize(r, Inc(XorBytes(s, 0, m), |m|), p).s;
      t[k] == (if k < |m| then XorB(s[k], m[k])
               else if k == |m| == r - 1 then XorB(s[k], XorB(p, Byte(128)))
               else if k == |m| then XorB(s[k], p)
               else if k == r - 1 then XorB(s[k], Byte(128))
               else s[k])
  {
    XorBytesAt(s, 0, m, k);
    XorAssoc(s[k], p, Byte(128));
  }

  lemma XoredLastAt(r: nat, s: KState, m: seq<Byte>, p: Byte, k: nat)
    requires IsRate(r) && |m| < r && k < 200
    ensures
      var t := Xored(s, LastBlock(r, m, p));
      t[k] == (if k < |m| then XorB(s[k], m[k])
               else if k == |m| == r - 1 then XorB(s[k], OrB(p, Byte(128)))
               else if k == |m| then XorB(s[k], p)
               else if k == r - 1 then XorB(s[k], Byte(128))
               else s[k])
  {
    OrNone(Byte(128));
    XorZero(s[k]);
  }

  /** Finalizing XORs in the last block - but for the top bit of a domain byte that is set already. */
  lemma FinalizeIsLastBlock(r: nat, s: KState, m: seq<Byte>, p: Byte)
    requires IsRate(r) && |m| < r
    ensures Finalize(r, Inc(XorBytes(s, 0, m), |m|), p).s == Xored(s, LastBlock(r, m, p))
            <==> (p.v < 128 || |m| != r - 1)
  {
    var t := Finalize(r, Inc(XorBytes(s, 0, m), |m|), p).s;
    var t' := Xored(s, LastBlock(r, m, p));
    TopBit(p);
    if p.v < 128 || |m| != r - 1 {
      forall k | 0 <= k < 200 ensures t[k] == t'[k] {
        FinalizedAt(r, s, m, p, k);
        XoredLastAt(r, s, m, p, k);
      }
    } else {
      FinalizedAt(r, s, m, p, r - 1);
      XoredLastAt(r, s, m, p, r - 1);
      XorInjective(s[r - 1], XorB(p, Byte(128)), OrB(p, Byte(128)));
    }
  }

  lemma AbsorbFirstBlock(f: Permutation, r: nat, s: KState, m: seq<Byte>)
    requires IsRate(r) && r <= |m|
    ensures Absorb(f, r, Inc(s, 0), m) == Absorb(f, r, Inc(f(Xored(s, m[..r])), 0), m[r..])
  {
    AbsorbRun(f, r, Inc(s, 0), m[..r]);
    XorBytesIsXored(s, m[..r]);
    AbsorbConcat(f, r, Inc(s, 0), m[..r], m[r..]);
    assert m[..r] + m[r..] == m;
  }

  /**
   * Absorbing bytes one by one and finalizing is absorbing as FIPS 202 says, exactly when the
   * domain byte leaves its top bit clear or does not land in the last byte of the block.
   */
  lemma {:induction false} AbsorbThenFinalize(f: Permutation, r: nat, s: KState, m: seq<Byte>, p: Byte)
    requires IsRate(r)
    ensures
      var c := Absorb(f, r, Inc(s, 0), m);
      Finalize(r, c, p).s == Absorbed(f, r, s, m, p) <==> (p.v < 128 || c.pending != r - 1)
    decreases |m|
  {
    if |m| < r {
      AbsorbRun(f, r, Inc(s, 0), m);
      FinalizeIsLastBlock(r, s, m, p);
    } else {
      AbsorbFirstBlock(f, r, s, m);
      AbsorbThenFinalize(f, r, f(Xored(s, m[..r])), m[r..], p);
    }
  }

  lemma OneBlockMore(f: Permutation, r: nat, s: KState, n: nat)
    requires IsRate(r)
    ensures Squeeze(f, r, Inc(s, 0), r + n).1 == f(s)[..r] + Squeeze(f, r, Inc(f(s), 0), n).1
  {
    SqueezeFresh(f, r, s, r);
    SqueezeConcat(f, r, Inc(s, 0), r, n);
  }

  /** Squeezing whole blocks byte by byte is squeezing as FIPS 202 says. */
  lemma {:induction false} SqueezeBlocks(f: Permutation, r: nat, s: KState, nblocks: nat)
    requires IsRate(r)
    ensures nblocks * r >= 0 && Squeeze(f, r, Inc(s, 0), nblocks * r).1 == FipsSqueeze(f, r, f(s), nblocks)
    decreases nblocks
  {
    if nblocks > 0 {
      var rest := (nblocks - 1) * r;
      assert nblocks * r == r + rest;
      SqueezeBlocks(f, r, f(s), nblocks - 1);
      OneBlockMore(f, r, s, rest);
    }
  }

  lemma SqueezePrefix(f: Permutation, r: nat, c: Inc, m: nat, n: nat)
    requires IsRate(r) && c.pending <= r && m <= n
    ensures Squeeze(f, r, c, m).1 == Squeeze(f, r, c, n).1[..m]
  {
    SqueezeConcat(f, r, c, m, n - m);
  }

  // ---------------------------------------------------------------- whole runs

  ghost function AbsorbAll(f: Permutation, r: nat, c: Inc, ins: seq<seq<Byte>>): (c': Inc)
    requires IsRate(r) && c.pending < r
    ensures c'.pending < r
    decreases |ins|
  {
    if ins == [] then c else AbsorbAll(f, r, Absorb(f, r, c, ins[0]), ins[1..])
  }

  ghost function SqueezeAll(f: Permutation, r: nat, c: Inc, outs: seq<nat>): seq<Byte>
    requires IsRate(r) && c.pending <= r
    decreases |outs|
  {
    if outs == [] then []
    else
      Squeeze(f, r, c, outs[0]).1 + SqueezeAll(f, r, Squeeze(f, r, c, outs[0]).0, outs[1..])
  }

  ghost function Flatten(ins: seq<seq<Byte>>): seq<Byte> {
    if ins == [] then [] else ins[0] + Flatten(ins[1..])
  }

  ghost function SumOf(outs: seq<nat>): nat {
    if outs == [] then 0 else outs[0] + SumOf(outs[1..])
  }

  lemma {:induction false} AbsorbAllIsAbsorb(f: Permutation, r: nat, c: Inc, ins: seq<seq<Byte>>)
    requires IsRate(r) && c.pending < r
    ensures AbsorbAll(f, r, c, ins) == Absorb(f, r, c, Flatten(ins))
    decreases |ins|
  {
    if ins != [] {
      AbsorbAllIsAbsorb(f, r, Absorb(f, r, c, ins[0]), ins[1..]);
      AbsorbConcat(f, r, c, ins[0], Flatten(ins[1..]));
    }
  }

  lemma SqueezeTwice(f: Permutation, r: nat, c: Inc, m: nat, n: nat)
    requires IsRate(r) && c.pending <= r
    ensures Squeeze(f, r, c, m + n).1 == Squeeze(f, r, c, m).1 + Squeeze(f, r, Squeeze(f, r, c, m).0, n).1
  {
    SqueezeConcat(f, r, c, m, n);
  }

  lemma {:induction false} SqueezeAllIsSqueeze(f: Permutation, r: nat, c: Inc, outs: seq<nat>)
    requires IsRate(r) && c.pending <= r
    ensures SqueezeAll(f, r, c, outs) == Squeeze(f, r, c, SumOf(outs)).1
    decreases |outs|
  {
    if outs != [] {
      SqueezeAllIsSqueeze(f, r, Squeeze(f, r, c, outs[0]).0, outs[1..]);
      SqueezeTwice(f, r, c, outs[0], SumOf(outs[1..]));
    }
  }

  /** Everything an incremental context outputs over a run of absorb calls, a finalize, and squeeze calls. */
  ghost function IncrementalOutput(f: Permutation, r: nat, p: Byte, ins: seq<seq<Byte>>, outs: seq<nat>): seq<Byte>
    requires IsRate(r)
  {
    SqueezeAll(f, r, Finalize(r, AbsorbAll(f, r, Inc(ZeroState(), 0), ins), p), outs)
  }

  /**
   * Sponge refinement: however the input is split over absorb calls and the output over squeeze
   * calls, the incremental functions output the bytes of the FIPS 202 sponge on the whole message.
   */
  lemma SpongeChunks(f: Permutation, r: nat, p: Byte, ins: seq<seq<Byte>>, outs: seq<nat>, nblocks: nat)
    requires IsRate(r) && p.v < 128
    requires SumOf(outs) <= nblocks * r
    ensures IncrementalOutput(f, r, p, ins, outs) == Sponge(f, r, Flatten(ins), p, nblocks)[..SumOf(outs)]
  {
    var m := Flatten(ins);
    var s := ZeroState();
    AbsorbAllIsAbsorb(f, r, Inc(s, 0), ins);
    var c := Absorb(f, r, Inc(s, 0), m);
    AbsorbThenFinalize(f, r, s, m, p);
    AbsorbedIsFips(f, r, s, m, p);
    var c' := Finalize(r, c, p);
    SqueezeAllIsSqueeze(f, r, c', outs);
    SqueezeBlocks(f, r, c'.s, nblocks);
    SqueezePrefix(f, r, c', SumOf(outs), nblocks * r);
  }
}
