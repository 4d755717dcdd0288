/**
 * The C functions on their arrays. `Fips202` says what their contracts mean.
 * A `size_t` length is a `nat`: lengths of buffers in memory do not wrap.
 */
module Fips202Code {
  import opened Lanes
  import opened Keccak
  import opened Fips202

  const DELIMITER_SHAKE := Byte(0x1F)
  const DELIMITER_SHA3 := Byte(0x06)

  predicate IsState(s: array<Lane>) {
    s.Length == 25
  }

  /** The bytes of 25 lanes. */
  function Image(ls: seq<Lane>): KState
    requires |ls| == 25
  {
    seq(200, k requires 0 <= k < 200 => ls[k / 8][k % 8])
  }

  /** XORing a shifted byte into lane `p >> 3` XORs byte `p` of the state. */
  lemma ImageXorByte(ls: seq<Lane>, p: nat, b: Byte)
    requires |ls| == 25 && p < 200
    ensures Image(ls[p / 8 := XorL(ls[p / 8], Shifted(b, p % 8))]) == XorByte(Image(ls), p, b)
  {
    var ls' := ls[p / 8 := XorL(ls[p / 8], Shifted(b, p % 8))];
    forall k | 0 <= k < 200 ensures Image(ls')[k] == XorByte(Image(ls), p, b)[k] {
      XorZero(ls[k / 8][k % 8]);
    }
  }

  method Permute(f: Permutation, s: array<Lane>)
    requires IsState(s)
    modifies s
    ensures Image(s[..]) == f(old(Image(s[..])))
  {
    var t := f(Image(s[..]));
    forall i | 0 <= i < 25 {
      s[i] := t[8 * i..8 * i + 8];
    }
    assert Image(s[..]) == t;
  }

  /** XOR the whole lanes of `block` into the state: `s[i] ^= load64(block + 8 * i)`. */
  method XorBlock(s: array<Lane>, block: seq<Byte>)
    requires IsState(s) && IsRate(|block|)
    modifies s
    ensures Image(s[..]) == Xored(old(Image(s[..])), block)
  {
    ghost var s0 := s[..];
    for i := 0 to |block| / 8
      invariant forall k :: 0 <= k < 25 ==> s[k] == if k < i then XorL(s0[k], block[8 * k..8 * k + 8]) else s0[k]
    {
      s[i] := XorL(s[i], block[8 * i..8 * i + 8]);
    }
  }

  method Clear(s: array<Lane>)
    requires IsState(s)
    modifies s
    ensures Image(s[..]) == ZeroState()
  {
    for i := 0 to 25
      invariant forall k :: 0 <= k < i ==> s[k] == ZERO_LANE
    {
      s[i] := ZERO_LANE;
    }
  }

  method KeccakAbsorb(f: Permutation, s: array<Lane>, r: nat, m: seq<Byte>, p: Byte)
    requires IsState(s) && IsRate(r)
    modifies s
    ensures Image(s[..]) == Absorbed(f, r, ZeroState(), m, p)
  {
    Clear(s);
    var offset := 0;
    while |m| - offset >= r
      invariant offset <= |m|
      invariant Absorbed(f, r, Image(s[..]), m[offset..], p) == Absorbed(f, r, ZeroState(), m, p)
    {
      assert m[offset..][..r] == m[offset..offset + r];
      assert m[offset..][r..] == m[offset + r..];
      XorBlock(s, m[offset..offset + r]);
      Permute(f, s);
      offset := offset + r;
    }
    AbsorbLast(s, r, m[offset..], p);
  }

  /** The padded last block, built in a buffer. */
  method AbsorbLast(s: array<Lane>, r: nat, m: seq<Byte>, p: Byte)
    requires IsState(s) && IsRate(r) && |m| < r
    modifies s
    ensures Image(s[..]) == Xored(old(Image(s[..])), LastBlock(r, m, p))
  {
    var t := new Byte[r];
    for i := 0 to r
      invariant forall k :: 0 <= k < i ==> t[k] == NO_BYTE
      invariant s[..] == old(s[..])
    {
      t[i] := NO_BYTE;
    }
    for i := 0 to |m|
      invariant forall k :: 0 <= k < r ==> t[k] == if k < i then m[k] else NO_BYTE
      invariant s[..] == old(s[..])
    {
      t[i] := m[i];
    }
    t[|m|] := p;
    t[r - 1] := OrB(t[r - 1], Byte(128));
    assert t[..] == LastBlock(r, m, p);
    XorBlock(s, t[..]);
  }

  ghost function PermuteTimes(f: Permutation, s: KState, n: nat): KState
    decreases n
  {
    if n == 0 then s else PermuteTimes(f, f(s), n - 1)
  }

  method KeccakSqueezeBlocks(f: Permutation, h: array<Byte>, nblocks: nat, s: array<Lane>, r: nat)
    requires IsState(s) && IsRate(r)
    requires 0 <= nblocks * r <= h.Length
    modifies h, s
    ensures h[..nblocks * r] == FipsSqueeze(f, r, f(old(Image(s[..]))), nblocks)
    ensures Image(s[..]) == PermuteTimes(f, old(Image(s[..])), nblocks)
  {
    var n, pos := nblocks, 0;
    ghost var s0 := Image(s[..]);
    while n > 0
      invariant 0 <= n <= nblocks && 0 <= n * r && 0 <= pos && pos + n * r == nblocks * r
      invariant Image(s[..]) == PermuteTimes(f, s0, nblocks - n)
      invariant h[..pos] == FipsSqueeze(f, r, f(s0), nblocks - n)
    {
      BlockFits(n, r);
      FipsSqueezeMore(f, r, s0, nblocks - n);
      PermuteOnce(f, s0, nblocks - n);
      Permute(f, s);
      StoreBlock(h, pos, s, r);
      pos := pos + r;
      n := n - 1;
    }
  }

  lemma {:induction false} PermuteOnce(f: Permutation, s: KState, n: nat)
    ensures PermuteTimes(f, s, n + 1) == f(PermuteTimes(f, s, n))
    decreases n
  {
    if n > 0 {
      PermuteOnce(f, f(s), n - 1);
    }
  }

  lemma BlockFits(n: nat, r: nat)
    requires n > 0
    ensures n * r == r + (n - 1) * r && (n - 1) * r >= 0
  {
  }

  /** `store64(h + 8 * i, s[i])` for the lanes of the rate. */
  method StoreBlock(h: array<Byte>, pos: nat, s: array<Lane>, r: nat)
    requires IsState(s) && IsRate(r) && pos + r <= h.Length
    modifies h
    ensures h[..pos + r] == old(h[..pos]) + Image(s[..])[..r]
  {
    for i := 0 to r / 8
      invariant forall k :: 0 <= k < h.Length ==>
                  h[k] == if pos <= k < pos + 8 * i then s[(k - pos) / 8][(k - pos) % 8] else old(h[k])
    {
      for j := 0 to 8
        invariant forall k :: 0 <= k < h.Length ==>
                    h[k] == if pos <= k < pos + 8 * i + j then s[(k - pos) / 8][(k - pos) % 8] else old(h[k])
      {
        h[pos + 8 * i + j] := s[i][j];
      }
    }
  }

  lemma AbsorbNext(f: Permutation, r: nat, c: Inc, m: seq<Byte>, i: nat, j: nat)
    requires IsRate(r) && c.pending < r && i <= j <= |m|
    ensures Absorb(f, r, Absorb(f, r, c, m[..i]), m[i..j]) == Absorb(f, r, c, m[..j])
  {
    var a, b := m[..i], m[i..j];
    assert a + b == m[..j];
    AbsorbConcat(f, r, c, a, b);
  }

  /** Squeezing `n` bytes from `c0` outputs `out` and leaves `c`. */
  ghost predicate Squeezed(f: Permutation, r: nat, c0: Inc, n: nat, c: Inc, out: seq<Byte>)
    requires IsRate(r) && c0.pending <= r
  {
    Squeeze(f, r, c0, n) == (c, out)
  }

  lemma SqueezeNext(f: Permutation, r: nat, c: Inc, i: nat, n: nat, c': Inc, out: seq<Byte>)
    requires IsRate(r) && c.pending <= r && 0 < n <= r
    requires Squeeze(f, r, c, i).0 == c' && Squeeze(f, r, c, i).1 == out && c'.pending == 0
    ensures Squeeze(f, r, c, i + n).0 == Inc(f(c'.s), r - n)
    ensures Squeeze(f, r, c, i + n).1 == out + f(c'.s)[..n]
  {
    SqueezeConcat(f, r, c, i, n);
    SqueezeFresh(f, r, c'.s, n);
  }

  class IncContext {
    const lanes: array<Lane>
    var pending: nat

    ghost predicate Valid()
      reads this
    {
      IsState(lanes)
    }

    ghost function Value(): Inc
      requires Valid()
      reads this, lanes
    {
      Inc(Image(lanes[..]), pending)
    }

    /** `keccak_inc_init` */
    constructor ()
      ensures Valid() && fresh(lanes)
      ensures Value() == Inc(ZeroState(), 0)
    {
      lanes := new Lane[25](_ => ZERO_LANE);
      pending := 0;
      new;
      assert Image(lanes[..]) == ZeroState();
    }

    /** XOR a run of bytes into the state at the pending position, one byte after the other. */
    method XorRun(m: seq<Byte>)
      requires Valid() && pending + |m| <= 200
      modifies lanes
      ensures Value() == old(Inc(XorBytes(Image(lanes[..]), pending, m), pending))
    {
      ghost var s0 := Image(lanes[..]);
      for i := 0 to |m|
        invariant Image(lanes[..]) == XorBytes(s0, pending, m[..i])
      {
        var k := pending + i;
        ImageXorByte(lanes[..], k, m[i]);
        lanes[k / 8] := XorL(lanes[k / 8], Shifted(m[i], k % 8));
        assert m[..i + 1][..i] == m[..i];
      }
      assert m[..|m|] == m;
    }

    /** Fill the current block to the brim and permute. */
    method FillBlock(f: Permutation, r: nat, m: seq<Byte>)
      requires Valid() && IsRate(r) && pending < r && pending + |m| == r
      modifies this, lanes
      ensures Value() == Fips202.Absorb(f, r, old(Value()), m) && pending == 0
    {
      AbsorbRun(f, r, Value(), m);
      XorRun(m);
      pending := 0;
      Permute(f, lanes);
    }

    method Absorb(f: Permutation, r: nat, m: seq<Byte>)
      requires Valid() && IsRate(r) && pending < r
      modifies this, lanes
      ensures pending < r
      ensures Value() == Fips202.Absorb(f, r, old(Value()), m)
    {
      ghost var c0 := Value();
      var offset := 0;
      while |m| - offset + pending >= r
        invariant offset <= |m| && pending < r
        invariant Value() == Fips202.Absorb(f, r, c0, m[..offset])
        decreases |m| - offset
      {
        var next := offset + (r - pending);
        AbsorbNext(f, r, c0, m, offset, next);
        FillBlock(f, r, m[offset..next]);
        offset := next;
      }
      AbsorbNext(f, r, c0, m, offset, |m|);
      AbsorbRun(f, r, Value(), m[offset..|m|]);
      assert m[..|m|] == m;
      XorRun(m[offset..|m|]);
      pending := pending + (|m| - offset);
    }

    method Finalize(r: nat, p: Byte)
      requires Valid() && IsRate(r) && pending < r
      modifies this, lanes
      ensures Value() == Fips202.Finalize(r, old(Value()), p)
    {
      ImageXorByte(lanes[..], pending, p);
      lanes[pending / 8] := XorL(lanes[pending / 8], Shifted(p, pending % 8));
      ImageXorByte(lanes[..], r - 1, Byte(128));
      lanes[(r - 1) / 8] := XorL(lanes[(r - 1) / 8], Shifted(Byte(128), (r - 1) % 8));
      pending := 0;
    }

    /** The bytes a former squeeze left behind. */
    method TakeLeftover(r: nat, h: array<Byte>, n: nat)
      requires Valid() && IsRate(r) && n <= pending <= r && n <= h.Length
      modifies this`pending, h
      ensures Value() == old(Inc(Image(lanes[..]), pending - n))
      ensures h[..n] == old(Image(lanes[..])[r - pending..r - pending + n])
    {
      for i := 0 to n
        invariant pending == old(pending)
        invariant forall k :: 0 <= k < i ==> h[k] == Image(lanes[..])[r - pending + k]
      {
        var k := r - pending + i;
        h[i] := lanes[k / 8][k % 8];
      }
      pending := pending - n;
    }

    /** The first `n` bytes of the state. */
    method TakeBytes(h: array<Byte>, pos: nat, n: nat)
      requires Valid() && n <= 200 && pos + n <= h.Length
      modifies h
      ensures h[..pos + n] == old(h[..pos]) + Image(lanes[..])[..n]
    {
      for i := 0 to n
        invariant forall k :: 0 <= k < i ==> h[pos + k] == Image(lanes[..])[k]
        invariant h[..pos] == old(h[..pos])
      {
        h[pos + i] := lanes[i / 8][i % 8];
      }
    }

    /** Permute and take `n` bytes of the new block. */
    method TakeBlock(f: Permutation, r: nat, h: array<Byte>, pos: nat, n: nat)
      requires Valid() && IsRate(r) && n <= r && pos + n <= h.Length
      modifies this, lanes, h
      ensures Value() == Inc(f(old(Image(lanes[..]))), r - n)
      ensures h[..pos + n] == old(h[..pos]) + f(old(Image(lanes[..])))[..n]
    {
      Permute(f, lanes);
      TakeBytes(h, pos, n);
      pending := r - n;
    }

    /** One round of the squeezing loop; `c` and `out` are the context and the output so far. */
    method SqueezeBlock(f: Permutation, r: nat, h: array<Byte>, pos: nat, ghost c0: Inc, ghost c: Inc,
                        ghost out: seq<Byte>)
      returns (n: nat)
      requires Valid() && IsRate(r) && pending == 0 && pos < h.Length && c0.pending <= r
      requires Value() == c && h[..pos] == out && Squeezed(f, r, c0, pos, c, out)
      modifies this, lanes, h
      ensures 0 < n && pos + n <= h.Length && pending == r - n && (n == r || pos + n == h.Length)
      ensures Squeezed(f, r, c0, pos + n, Value(), h[..pos + n])
    {
      n := if h.Length - pos < r then h.Length - pos else r;
      TakeBlock(f, r, h, pos, n);
      SqueezeNext(f, r, c0, pos, n, c, out);
    }

    /** First consume any bytes still sitting around. */
    method SqueezePending(f: Permutation, r: nat, h: array<Byte>) returns (pos: nat)
      requires Valid() && IsRate(r) && pending <= r
      modifies this`pending, h
      ensures pos <= h.Length && pending <= r && (pos < h.Length ==> pending == 0)
      ensures Value() == Fips202.Squeeze(f, r, old(Value()), pos).0
      ensures h[..pos] == Fips202.Squeeze(f, r, old(Value()), pos).1
    {
      pos := if h.Length < pending then h.Length else pending;
      SqueezeRun(f, r, Value(), pos);
      TakeLeftover(r, h, pos);
    }

    method Squeeze(f: Permutation, r: nat, h: array<Byte>)
      requires Valid() && IsRate(r) && pending <= r
      modifies this, lanes, h
      ensures pending <= r
      ensures Value() == Fips202.Squeeze(f, r, old(Value()), h.Length).0
      ensures h[..] == Fips202.Squeeze(f, r, old(Value()), h.Length).1
    {
      ghost var c0 := Value();
      var pos := SqueezePending(f, r, h);
      ghost var c, out := Value(), h[..pos];
      // Then squeeze the remaining blocks
      while pos < h.Length
        invariant pos <= h.Length && pending <= r
        invariant pos < h.Length ==> pending == 0
        invariant Value() == c && h[..pos] == out
        invariant Squeezed(f, r, c0, pos, c, out)
      {
        var n := SqueezeBlock(f, r, h, pos, c0, c, out);
        pos := pos + n;
        c, out := Value(), h[..pos];
      }
      assert h[..pos] == h[..];
    }
  }

  lemma DivBounds(n: nat, r: nat)
    requires r > 0
    ensures (n / r) * r <= n < (n / r) * r + r
  {
  }

  /** One block more of output is what the permuted state shows next. */
  lemma {:induction false} FipsSqueezeMore(f: Permutation, r: nat, s: KState, n: nat)
    requires IsRate(r)
    ensures FipsSqueeze(f, r, f(s), n + 1) == FipsSqueeze(f, r, f(s), n) + f(PermuteTimes(f, s, n))[..r]
    decreases n
  {
    if n > 0 {
      FipsSqueezeMore(f, r, f(s), n - 1);
      var head, rest := f(s)[..r], FipsSqueeze(f, r, f(f(s)), n - 1);
      var last := f(PermuteTimes(f, s, n))[..r];
      assert head + (rest + last) == head + rest + last;
    } else {
      OneBlock(f, r, s);
      assert [] + f(s)[..r] == f(s)[..r];
    }
  }

  lemma OneBlock(f: Permutation, r: nat, s: KState)
    requires IsRate(r)
    ensures FipsSqueeze(f, r, f(s), 1) == f(s)[..r]
  {
    assert FipsSqueeze(f, r, f(f(s)), 0) == [];
  }

  /** Squeeze `h.Length` bytes: whole blocks straight into the output, the rest through a buffer. */
  method SqueezeOut(f: Permutation, r: nat, s: array<Lane>, h: array<Byte>)
    requires IsState(s) && IsRate(r)
    modifies s, h
    ensures h[..] == FipsSqueeze(f, r, f(old(Image(s[..]))), h.Length / r + 1)[..h.Length]
  {
    var nblocks := h.Length / r;
    DivBounds(h.Length, r);
    ghost var s0 := Image(s[..]);
    FipsSqueezeMore(f, r, s0, nblocks);
    KeccakSqueezeBlocks(f, h, nblocks, s, r);
    ghost var s1 := Image(s[..]);
    var done := nblocks * r;
    if done < h.Length {
      var t := new Byte[r](_ => NO_BYTE);
      OneBlock(f, r, s1);
      KeccakSqueezeBlocks(f, t, 1, s, r);
      CopyTail(h, done, t);
    } else {
      assert h[..done] == h[..];
    }
  }

  method CopyTail(h: array<Byte>, done: nat, t: array<Byte>)
    requires done <= h.Length <= done + t.Length && h != t
    modifies h
    ensures h[..] == old(h[..done]) + t[..h.Length - done]
  {
    for i := 0 to h.Length - done
      invariant forall k :: 0 <= k < i ==> h[done + k] == t[k]
      invariant h[..done] == old(h[..done])
    {
      h[done + i] := t[i];
    }
  }

  /** `shake128` and `shake256`: one-shot hashing to any output length. */
  method Shake(f: Permutation, r: nat, output: array<Byte>, input: seq<Byte>)
    requires IsRate(r)
    modifies output
    ensures output[..] == Sponge(f, r, input, DELIMITER_SHAKE, output.Length / r + 1)[..output.Length]
  {
    var s := new Lane[25](_ => ZERO_LANE);
    KeccakAbsorb(f, s, r, input, DELIMITER_SHAKE);
    AbsorbedIsFips(f, r, ZeroState(), input, DELIMITER_SHAKE);
    SqueezeOut(f, r, s, output);
  }

  /** `sha3_*_inc_finalize`: finalize an incremental context and take the digest from one block of output. */
  method Sha3Finish(f: Permutation, r: nat, context: IncContext, output: array<Byte>)
    requires context.Valid() && IsRate(r) && context.pending < r && output.Length <= r
    modifies context, context.lanes, output
    ensures output[..] ==
      FipsSqueeze(f, r, f(Fips202.Finalize(r, old(context.Value()), DELIMITER_SHA3).s), 1)[..output.Length]
  {
    context.Finalize(r, DELIMITER_SHA3);
    ghost var c := context.Value();
    var t := new Byte[r](_ => NO_BYTE);
    KeccakSqueezeBlocks(f, t, 1, context.lanes, r);
    CopyTail(output, 0, t);
  }
}
