/**
 * The padded byte string as FIPS 202 defines it on bits: the message, the bits that tell
 * the functions apart, and pad10*1.
 */
module Fips202Answers {
  import opened Words
  import opened Lanes
  import opened Keccak
  import opened Fips202
  import opened Fips202Code
  import opened Cshake

  /** The bits of a byte, lowest first (section B.1). */
  function BitOf(b: Byte, i: nat): bool
    requires i < 8
  {
    match i
    case 0 => b.v & 1 != 0
    case 1 => b.v & 2 != 0
    case 2 => b.v & 4 != 0
    case 3 => b.v & 8 != 0
    case 4 => b.v & 16 != 0
    case 5 => b.v & 32 != 0
    case 6 => b.v & 64 != 0
    case _ => b.v & 128 != 0
  }

  function Bits(m: seq<Byte>): (bits: seq<bool>)
    ensures |bits| == 8 * |m|
  {
    seq(8 * |m|, k requires 0 <= k < 8 * |m| => BitOf(m[k / 8], k % 8))
  }

  /** pad10*1 (section 5.1): a 1, as many 0s as bring the length to a multiple of `x`, and a 1. */
  function Pad101(x: nat, m: nat): seq<bool>
    requires x > 0
  {
    [true] + seq((0 - m - 2) % x, _ => false) + [true]
  }

  /** The byte that holds the suffix bits, and a 1 after them. */
  predicate Holds(p: Byte, suffix: seq<bool>) {
    |suffix| <= 6 && forall i: nat :: i < 8 ==> BitOf(p, i) == if i < |suffix| then suffix[i] else i == |suffix|
  }

  lemma TopBits(p: Byte, i: nat)
    requires i < 8
    ensures BitOf(NO_BYTE, i) == false && BitOf(Byte(128), i) == (i == 7)
    ensures BitOf(OrB(p, Byte(128)), i) == (BitOf(p, i) || i == 7)
  {
  }

  /** Byte `k` of the padded message, after the message itself. */
  ghost predicate EndsPadded(t: seq<Byte>, n: nat, p: Byte) {
    forall k :: n <= k < |t| ==>
      var b := if k == n then p else NO_BYTE;
      t[k] == if k == |t| - 1 then OrB(b, Byte(128)) else b
  }

  lemma LastBlockBytes(r: nat, m: seq<Byte>, p: Byte)
    requires IsRate(r) && |m| < r
    ensures m <= LastBlock(r, m, p) && EndsPadded(LastBlock(r, m, p), |m|, p)
  {
  }

  /** The padded message: `q` whole blocks, the last of which holds the end of the message. */
  lemma {:induction false} PaddedBytes(r: nat, m: seq<Byte>, p: Byte) returns (q: nat)
    requires IsRate(r)
    ensures |Padded(r, m, p)| == q * r && |m| < |Padded(r, m, p)| <= |m| + r
    ensures m <= Padded(r, m, p) && EndsPadded(Padded(r, m, p), |m|, p)
    decreases |m|
  {
    PaddedStep(r, m, p);
    hide Padded, LastBlock, EndsPadded;
    if |m| < r {
      LastBlockBytes(r, m, p);
      q := 1;
    } else {
      var rest := PaddedBytes(r, m[r..], p);
      q := rest + 1;
      NextMultiple(rest, r);
      OneMoreBlock(r, m, Padded(r, m[r..], p), p);
    }
  }

  lemma NextMultiple(q: nat, r: nat)
    ensures (q + 1) * r == r + q * r
  {
  }

  lemma PaddedStep(r: nat, m: seq<Byte>, p: Byte)
    requires IsRate(r)
    ensures |m| < r ==> Padded(r, m, p) == LastBlock(r, m, p)
    ensures |m| >= r ==> Padded(r, m, p) == m[..r] + Padded(r, m[r..], p)
  {
  }

  lemma OneMoreBlock(r: nat, m: seq<Byte>, t: seq<Byte>, p: Byte)
    requires r <= |m| && m[r..] <= t && EndsPadded(t, |m| - r, p)
    ensures m <= m[..r] + t && EndsPadded(m[..r] + t, |m|, p)
  {
    assert m == m[..r] + m[r..];
    var u := m[..r] + t;
    forall k | |m| <= k < |u| ensures u[k] == t[k - r] {}
  }

  lemma ByteBits(m: seq<Byte>, j: nat, i: nat)
    requires j < |m| && i < 8
    ensures Bits(m)[8 * j + i] == BitOf(m[j], i)
  {
    assert (8 * j + i) / 8 == j && (8 * j + i) % 8 == i;
  }

  lemma NoMultiple(d: int, x: nat)
    requires 0 - x < d * x < x
    ensures d == 0
  {
    Multiples(d, x);
  }

  lemma Multiples(d: int, x: nat)
    ensures d >= 1 ==> d * x >= x
    ensures d <= -1 ==> d * x <= 0 - x
  {
  }

  lemma RemainderIs(a: int, x: nat, q: int, j: nat)
    requires a == q * x + j && j < x
    ensures a % x == j
  {
    assert a == (a / x) * x + a % x;
    assert (a / x - q) * x == j - a % x;
    NoMultiple(a / x - q, x);
  }

  /** How many zeros the padding has. */
  lemma ZeroCount(x: nat, m: nat, q: nat)
    requires m + 2 <= q * x < m + 2 + x
    ensures (0 - m - 2) % x == q * x - m - 2
  {
    RemainderIs(0 - m - 2, x, 0 - q, q * x - m - 2);
  }

  /**
   * For a suffix of up to six bits, the padded bytes are, bit for bit, the message, the
   * suffix and pad10*1.
   */
  lemma PaddedIsStandard(r: nat, m: seq<Byte>, p: Byte, suffix: seq<bool>)
    requires IsRate(r) && Holds(p, suffix)
    ensures Bits(Padded(r, m, p)) == Bits(m) + suffix + Pad101(8 * r, 8 * |m| + |suffix|)
  {
    hide Bits, Padded, Holds, IsRate, LastBlock;
    var t := Padded(r, m, p);
    SuffixLength(p, suffix);
    PaddedZeros(r, m, p, |suffix|);
    PaddedBits(r, m, p, suffix);
    SameBits(Bits(t), Bits(m), suffix, 8 * |t| - 8 * |m| - |suffix| - 2);
  }

  lemma PaddedZeros(r: nat, m: seq<Byte>, p: Byte, s: nat)
    requires IsRate(r) && s <= 6
    ensures var zeros := 8 * |Padded(r, m, p)| - 8 * |m| - s - 2;
            zeros >= 0 && (0 - (8 * |m| + s) - 2) % (8 * r) == zeros
  {
    hide Padded;
    var q := PaddedBytes(r, m, p);
    assert q * (8 * r) == 8 * |Padded(r, m, p)|;
    ZeroCount(8 * r, 8 * |m| + s, q);
  }

  lemma PaddedBits(r: nat, m: seq<Byte>, p: Byte, suffix: seq<bool>)
    requires IsRate(r) && Holds(p, suffix)
    ensures forall k: nat :: k < 8 * |Padded(r, m, p)| ==>
              Bits(Padded(r, m, p))[k] ==
              if k < 8 * |m| then Bits(m)[k] else if k < 8 * |m| + |suffix| then suffix[k - 8 * |m|]
              else k == 8 * |m| + |suffix| || k == 8 * |Padded(r, m, p)| - 1
  {
    hide Padded, Bits;
    forall k: nat | k < 8 * |Padded(r, m, p)|
      ensures Bits(Padded(r, m, p))[k] ==
              if k < 8 * |m| then Bits(m)[k] else if k < 8 * |m| + |suffix| then suffix[k - 8 * |m|]
              else k == 8 * |m| + |suffix| || k == 8 * |Padded(r, m, p)| - 1
    {
      PaddedBit(r, m, p, suffix, k);
    }
  }

  lemma SuffixLength(p: Byte, suffix: seq<bool>)
    requires Holds(p, suffix)
    ensures |suffix| <= 6
  {
  }

  lemma SameBits(t: seq<bool>, m: seq<bool>, suffix: seq<bool>, zeros: nat)
    requires |t| == |m| + |suffix| + zeros + 2
    requires forall k: nat :: k < |t| ==>
               t[k] == if k < |m| then m[k] else if k < |m| + |suffix| then suffix[k - |m|]
                       else k == |m| + |suffix| || k == |t| - 1
    ensures t == m + suffix + ([true] + seq(zeros, _ => false) + [true])
  {
  }

  /** The padded message bit by bit. */
  lemma PaddedBit(r: nat, m: seq<Byte>, p: Byte, suffix: seq<bool>, k: nat)
    requires IsRate(r) && Holds(p, suffix) && k < 8 * |Padded(r, m, p)|
    ensures var n, e := 8 * |Padded(r, m, p)|, 8 * |m|;
            Bits(Padded(r, m, p))[k] ==
            if k < e then Bits(m)[k] else if k < e + |suffix| then suffix[k - e] else k == e + |suffix| || k == n - 1
  {
    var t, j, i := Padded(r, m, p), k / 8, k % 8;
    var q := PaddedBytes(r, m, p);
    ByteBits(t, j, i);
    TopBits(p, i);
    TopBits(NO_BYTE, i);
    if j < |m| {
      assert t[j] == m[j];
      ByteBits(m, j, i);
    }
    hide BitOf;
  }

  // ---------------------------------------------------------------- the three functions

  /** SHA-3 appends 01, SHAKE 1111 (sections 6.1 and 6.2), and cSHAKE 00 (section 3.3 of SP 800-185). */
  lemma Suffixes()
    ensures Holds(DELIMITER_SHA3, [false, true])
    ensures Holds(DELIMITER_SHAKE, [true, true, true, true])
    ensures Holds(DELIMITER_CSHAKE, [false, false])
  {
  }

  /** And no other byte would do. */
  lemma SuffixByteIsUnique(p: Byte, q: Byte, suffix: seq<bool>)
    requires Holds(p, suffix) && Holds(q, suffix)
    ensures p == q
  {
    assert forall i: nat :: i < 8 ==> BitOf(p, i) == BitOf(q, i);
    assert BitOf(p, 0) == BitOf(q, 0) && BitOf(p, 1) == BitOf(q, 1) && BitOf(p, 2) == BitOf(q, 2);
    assert BitOf(p, 3) == BitOf(q, 3) && BitOf(p, 4) == BitOf(q, 4) && BitOf(p, 5) == BitOf(q, 5);
    assert BitOf(p, 6) == BitOf(q, 6) && BitOf(p, 7) == BitOf(q, 7);
  }

  /** The sponge on a message in bits: `padded` is it, followed by the suffix and pad10*1. */
  ghost predicate IsSponge(f: Permutation, r: nat, m: seq<Byte>, suffix: seq<bool>, n: nat, out: seq<Byte>)
    requires IsRate(r)
  {
    exists padded: seq<Byte> ::
      && Bits(padded) == Bits(m) + suffix + Pad101(8 * r, 8 * |m| + |suffix|)
      && out == FipsSqueeze(f, r, FipsAbsorb(f, r, ZeroState(), padded), n)
  }

  /** The incremental SHA-3 is the sponge of section 6.1 on the whole message, with suffix 01. */
  lemma Sha3IsStandard(f: Permutation, r: nat, m: seq<Byte>)
    requires IsRate(r)
    ensures var c := Absorb(f, r, Inc(ZeroState(), 0), m);
            IsSponge(f, r, m, [false, true], 1, FipsSqueeze(f, r, f(Finalize(r, c, DELIMITER_SHA3).s), 1))
  {
    Suffixes();
    PaddedIsStandard(r, m, DELIMITER_SHA3, [false, true]);
    AbsorbThenFinalize(f, r, ZeroState(), m, DELIMITER_SHA3);
    AbsorbedIsFips(f, r, ZeroState(), m, DELIMITER_SHA3);
  }

  /** One-shot SHAKE is that of section 6.2, with suffix 1111. */
  lemma ShakeIsStandard(f: Permutation, r: nat, m: seq<Byte>, n: nat)
    requires IsRate(r)
    ensures IsSponge(f, r, m, [true, true, true, true], n, Sponge(f, r, m, DELIMITER_SHAKE, n))
  {
    Suffixes();
    PaddedIsStandard(r, m, DELIMITER_SHAKE, [true, true, true, true]);
  }

  /** And cSHAKE that of section 3.3 of SP 800-185, with suffix 00 after the padded prefix and the input. */
  lemma CshakeIsStandard(f: Permutation, r: nat, m: seq<Byte>, n: nat)
    requires IsRate(r)
    ensures IsSponge(f, r, m, [false, false], n, Sponge(f, r, m, DELIMITER_CSHAKE, n))
  {
    Suffixes();
    PaddedIsStandard(r, m, DELIMITER_CSHAKE, [false, false]);
  }

  // ---------------------------------------------------------------- encodings

  /** `x` is the length in bytes of `v`, and then `v` in as few bytes as hold it, the highest first. */
  ghost predicate IsLeftEncoded(x: seq<Byte>, v: nat) {
    && 2 <= |x| <= 9 && FromByte(x[0]) == |x| - 1
    && (forall i: nat :: i < |x| - 1 ==> FromByte(x[|x| - 1 - i]) == Shr(v, i) % 256)
    && v < Pow256(|x| - 1) && (|x| > 2 ==> v >= Pow256(|x| - 2))
  }

  lemma LeftEncodeIs(v: u64)
    ensures IsLeftEncoded(Encoded(v), v)
  {
    SizeTFits(v);
    var n, x := ByteLength(v), Encoded(v);
    ByteRoundTrip(n);
    ByteLengthMinimal(v, n);
    if n > 1 { ByteLengthMinimal(v, n - 1); }
    forall i: nat | i < n ensures FromByte(x[n - i]) == Shr(v, i) % 256 {
      DigitsAt(v, n, n - 1 - i);
      ByteRoundTrip(Shr(v, i) % 256);
    }
  }

  lemma FillIs(n: nat, w: nat)
    requires w > 0
    ensures Fill(n, w) < w && (n + Fill(n, w)) % w == 0
  {
    var q := n / w;
    if n % w != 0 {
      assert n + Fill(n, w) == q * w + w == (q + 1) * w;
      RemainderIs(n + Fill(n, w), w, q + 1, 0);
    }
  }

  /** The prefix: the rate, both strings after their lengths in bits, and zeros up to a whole block (section 2.3). */
  lemma PrefixIs(name: seq<Byte>, custom: seq<Byte>, w: nat)
    returns (rate: seq<Byte>, a: seq<Byte>, b: seq<Byte>, fill: nat)
    requires IsShakeRate(w) && FitsSizeT(name) && FitsSizeT(custom)
    ensures IsLeftEncoded(rate, w) && IsLeftEncoded(a, 8 * |name|) && IsLeftEncoded(b, 8 * |custom|)
    ensures Prefix(name, custom, w) == rate + ((a + name) + (b + custom)) + Zeros(fill)
    ensures fill < w && |Prefix(name, custom, w)| % w == 0
  {
    hide IsLeftEncoded, Encoded, Fill;
    rate, a, b := Encoded(w), Encoded(8 * |name|), Encoded(8 * |custom|);
    LeftEncodeIs(w);
    LeftEncodeIs(8 * |name|);
    LeftEncodeIs(8 * |custom|);
    var n := |rate + ((a + name) + (b + custom))|;
    fill := Fill(n, w);
    FillIs(n, w);
  }
}
