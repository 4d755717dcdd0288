/**
 * Keccak states and the sponge construction as FIPS 202 defines it.
 * The permutation is a parameter: nothing here depends on what it computes.
 */
module Keccak {
  import opened Lanes

  /** A state as its 200 bytes: byte `k` is byte `k % 8` of lane `k / 8`. */
  type KState = s: seq<Byte> | |s| == 200 witness seq(200, _ => NO_BYTE)
  type Permutation = KState -> KState

  /** A rate in bytes: a whole number of lanes. */
  predicate IsRate(r: nat) {
    8 <= r <= 200 && r % 8 == 0
  }

  function ZeroState(): KState {
    seq(200, _ => NO_BYTE)
  }

  /** XOR one byte into the state. */
  function XorByte(s: KState, p: nat, b: Byte): KState
    requires p < 200
  {
    s[p := XorB(s[p], b)]
  }

  /** XOR a run of bytes into the state, starting at byte `p`. */
  function XorBytes(s: KState, p: nat, bs: seq<Byte>): KState
    requires p + |bs| <= 200
  {
    if bs == [] then s
    else XorByte(XorBytes(s, p, bs[..|bs| - 1]), p + |bs| - 1, bs[|bs| - 1])
  }

  lemma {:induction false} XorBytesAt(s: KState, p: nat, bs: seq<Byte>, k: nat)
    requires p + |bs| <= 200 && k < 200
    ensures XorBytes(s, p, bs)[k] == if p <= k < p + |bs| then XorB(s[k], bs[k - p]) else s[k]
  {
    if bs != [] {
      XorBytesAt(s, p, bs[..|bs| - 1], k);
    }
  }

  // ---------------------------------------------------------------- FIPS 202 sponge

  /** The state `s` XOR (block || 0^c). */
  ghost function Xored(s: KState, block: seq<Byte>): (t: KState)
    requires |block| <= 200
  {
    seq(200, k requires 0 <= k < 200 => if k < |block| then XorB(s[k], block[k]) else s[k])
  }

  /** Section 4 of FIPS 202: absorb whole blocks, applying the permutation after each. */
  ghost function FipsAbsorb(f: Permutation, r: nat, s: KState, padded: seq<Byte>): KState
    requires IsRate(r)
    decreases |padded|
  {
    if |padded| < r then s
    else FipsAbsorb(f, r, f(Xored(s, padded[..r])), padded[r..])
  }

  /** Section 4 of FIPS 202: read `r` bytes, apply the permutation, and so on. */
  ghost function FipsSqueeze(f: Permutation, r: nat, s: KState, nblocks: nat): (out: seq<Byte>)
    requires IsRate(r)
    ensures |out| == nblocks * r
    decreases nblocks
  {
    if nblocks == 0 then []
    else s[..r] + FipsSqueeze(f, r, f(s), nblocks - 1)
  }

  function Zeros(n: nat): (z: seq<Byte>)
    ensures |z| == n && forall i :: 0 <= i < n ==> z[i] == NO_BYTE
  {
    seq(n, _ => NO_BYTE)
  }

  /** The last block: the rest of the message, the domain byte, zeros, and the final 1 bit of pad10*1. */
  function LastBlock(r: nat, rest: seq<Byte>, p: Byte): (block: seq<Byte>)
    requires IsRate(r) && |rest| < r
    ensures |block| == r
  {
    var t := rest + [p] + Zeros(r - |rest| - 1);
    t[r - 1 := OrB(t[r - 1], Byte(128))]
  }

  /** Section 5.1 of FIPS 202; the byte `p` holds the domain bits and the first 1 bit of the padding. */
  function Padded(r: nat, m: seq<Byte>, p: Byte): seq<Byte>
    requires IsRate(r)
    decreases |m|
  {
    if |m| < r then LastBlock(r, m, p)
    else m[..r] + Padded(r, m[r..], p)
  }

  /** The first `nblocks` blocks of output of the sponge on message `m`. */
  ghost function Sponge(f: Permutation, r: nat, m: seq<Byte>, p: Byte, nblocks: nat): seq<Byte>
    requires IsRate(r)
  {
    FipsSqueeze(f, r, FipsAbsorb(f, r, ZeroState(), Padded(r, m, p)), nblocks)
  }
}
