/** cSHAKE (SP 800-185): length encoding, the padded prefix, and the functions built on them. */
module Cshake {
  import opened Words
  import opened Lanes
  import opened Keccak
  import opened Fips202
  import opened Fips202Code

  const SHAKE128_RATE: nat := 168
  const SHAKE256_RATE: nat := 136
  const DELIMITER_CSHAKE := Byte(4)

  predicate IsShakeRate(r: nat) {
    r == SHAKE128_RATE || r == SHAKE256_RATE
  }

  // ---------------------------------------------------------------- bytes and numbers

  function ToByte(x: int): Byte
    requires 0 <= x < 256
  {
    Byte(x as bv8)
  }

  function FromByte(b: Byte): (x: int)
    ensures 0 <= x < 256
  {
    b.v as int
  }

  lemma ByteRoundTrip(x: int)
    requires 0 <= x < 256
    ensures FromByte(ToByte(x)) == x
  {
  }

  ghost function Pow256(n: nat): nat
    ensures Pow256(n) > 0
  {
    if n == 0 then 1 else 256 * Pow256(n - 1)
  }

  // ---------------------------------------------------------------- left_encode

  type Digit = d: int | 0 <= d < 256

  /** The last `n` base-256 digits of `v`, most significant first. */
  function Digits(v: nat, n: nat): (ds: seq<Digit>)
    ensures |ds| == n
    decreases n
  {
    if n == 0 then [] else Digits(v / 256, n - 1) + [v % 256]
  }

  function DigitsValue(ds: seq<Digit>): nat {
    if ds == [] then 0 else 256 * DigitsValue(ds[..|ds| - 1]) + ds[|ds| - 1]
  }

  function BigEndian(v: nat, n: nat): (x: seq<Byte>)
    ensures |x| == n
  {
    var ds := Digits(v, n);
    seq(n, i requires 0 <= i < n => ToByte(ds[i]))
  }

  function BigEndianValue(x: seq<Byte>): nat {
    DigitsValue(seq(|x|, i requires 0 <= i < |x| => FromByte(x[i])))
  }

  /** The number of bytes of `v`, at least one. */
  function ByteLength(v: nat): (n: nat)
    ensures n >= 1
  {
    if v < 256 then 1 else ByteLength(v / 256) + 1
  }

  function LeftEncode(v: u64): seq<Byte>
    requires ByteLength(v) < 256
  {
    [ToByte(ByteLength(v))] + BigEndian(v, ByteLength(v))
  }

  function LeftDecode(s: seq<Byte>): Option<(nat, seq<Byte>)> {
    if s == [] then None
    else
      var n := FromByte(s[0]);
      if |s| < n + 1 then None else Some((BigEndianValue(s[1..n + 1]), s[n + 1..]))
  }

  /** `ByteLength` is the least sufficient number of bytes. */
  lemma {:induction false} ByteLengthMinimal(v: nat, n: nat)
    requires n >= 1
    ensures v < Pow256(n) <==> ByteLength(v) <= n
    decreases v
  {
    if v >= 256 {
      if n > 1 {
        ByteLengthMinimal(v / 256, n - 1);
      } else {
        assert Pow256(1) == 256 * Pow256(0);
      }
    } else {
      assert Pow256(n) >= 256 by { assert Pow256(n) == 256 * Pow256(n - 1); }
    }
  }

  lemma SizeTFits(v: u64)
    ensures ByteLength(v) <= 8
  {
    assert Pow256(2) == 0x1_0000 by { assert Pow256(1) == 256; }
    assert Pow256(4) == 0x1_0000_0000 by { assert Pow256(3) == 0x100_0000; }
    assert Pow256(6) == 0x1_0000_0000_0000 by { assert Pow256(5) == 0x100_0000_0000; }
    assert Pow256(8) == 0x1_0000_0000_0000_0000 by { assert Pow256(7) == 0x100_0000_0000_0000; }
    ByteLengthMinimal(v, 8);
  }

  lemma {:induction false} DigitsZero(n: nat)
    ensures DigitsValue(Digits(0, n)) == 0
  {
    if n > 0 {
      DigitsZero(n - 1);
      assert Digits(0, n)[..n - 1] == Digits(0, n - 1);
    }
  }

  lemma {:induction false} DigitsRoundTrip(v: nat, n: nat)
    requires n >= ByteLength(v)
    ensures DigitsValue(Digits(v, n)) == v
    decreases n
  {
    assert Digits(v, n)[..n - 1] == Digits(v / 256, n - 1);
    if v >= 256 {
      DigitsRoundTrip(v / 256, n - 1);
    } else {
      DigitsZero(n - 1);
    }
  }

  lemma BigEndianRoundTrip(v: nat, n: nat)
    requires n >= ByteLength(v)
    ensures BigEndianValue(BigEndian(v, n)) == v
  {
    var ds, x := Digits(v, n), BigEndian(v, n);
    forall i | 0 <= i < n ensures FromByte(x[i]) == ds[i] {
      ByteRoundTrip(ds[i]);
    }
    assert seq(|x|, i requires 0 <= i < |x| => FromByte(x[i])) == ds;
    DigitsRoundTrip(v, n);
  }

  /** An encoded length can be read back from the front of any string. */
  lemma LeftEncodeDecodes(v: u64, rest: seq<Byte>)
    requires ByteLength(v) < 256
    ensures LeftDecode(LeftEncode(v) + rest) == Some((v, rest))
  {
    var n := ByteLength(v);
    var s := LeftEncode(v) + rest;
    ByteRoundTrip(n);
    BigEndianRoundTrip(v, n);
    assert s[1..n + 1] == BigEndian(v, n);
    assert s[n + 1..] == rest;
  }

  /** Shifting right by one byte. */
  ghost function Shr(v: nat, n: nat): nat {
    if n == 0 then v else Shr(v / 256, n - 1)
  }

  lemma {:induction false} ShrNext(v: nat, n: nat)
    ensures Shr(v, n + 1) == Shr(v, n) / 256
  {
    if n > 0 {
      ShrNext(v / 256, n - 1);
    }
  }

  lemma {:induction false} ByteLengthByShifts(v: nat, n: nat)
    ensures Shr(v, n) > 0 ==> ByteLength(v) > n
    ensures Shr(v, n) == 0 && n > 0 ==> ByteLength(v) <= n
    decreases n
  {
    if n > 0 {
      ByteLengthByShifts(v / 256, n - 1);
      if n > 1 { } else { assert Shr(v / 256, 0) == v / 256; }
    }
  }

  lemma {:induction false} DigitsAt(v: nat, n: nat, i: nat)
    requires i < n
    ensures Digits(v, n)[i] == Shr(v, n - 1 - i) % 256
    decreases n
  {
    if i < n - 1 {
      DigitsAt(v / 256, n - 1, i);
    }
  }

  function ShiftRight(v: nat, n: nat): (w: nat)
    ensures w == Shr(v, n)
  {
    if n == 0 then v else ShiftRight(v / 256, n - 1)
  }

  method CountBytes(value: u64) returns (n: nat)
    ensures n == ByteLength(value) <= 8
  {
    SizeTFits(value);
    var v := value;
    n := 0;
    while v != 0 && n < 8
      invariant 0 <= n <= 8 && v == Shr(value, n)
      invariant n > 0 ==> Shr(value, n - 1) > 0
    {
      ShrNext(value, n);
      v := v / 256;
      n := n + 1;
    }
    ByteLengthByShifts(value, n);
    if n == 0 {
      n := 1;
    } else {
      ByteLengthByShifts(value, n - 1);
    }
  }

  /** `left_encode` */
  method LeftEncodeInto(encbuf: array<Byte>, value: u64) returns (len: nat)
    requires encbuf.Length == 9
    modifies encbuf
    ensures ByteLength(value) <= 8
    ensures len <= 9 && encbuf[..len] == LeftEncode(value)
  {
    var n := CountBytes(value);
    ghost var digits := BigEndian(value, n);
    var i := 1;
    while i <= n
      invariant 1 <= i <= n + 1
      invariant forall k :: 1 <= k < i ==> encbuf[k] == digits[k - 1]
    {
      DigitsAt(value, n, i - 1);
      encbuf[i] := ToByte(ShiftRight(value, n - i) % 256);
      i := i + 1;
    }
    assert encbuf[1..n + 1] == digits;
    encbuf[0] := ToByte(n);
    assert encbuf[..n + 1] == [encbuf[0]] + encbuf[1..n + 1];
    len := n + 1;
  }

  // ---------------------------------------------------------------- encode_string and bytepad

  predicate FitsSizeT(s: seq<Byte>) {
    8 * |s| <= U64_MAX
  }

  ghost function Encoded(v: u64): seq<Byte> {
    SizeTFits(v);
    LeftEncode(v)
  }

  ghost function EncodeString(s: seq<Byte>): seq<Byte>
    requires FitsSizeT(s)
  {
    Encoded(8 * |s|) + s
  }

  /** The number of zeros that fill the last block. */
  function Fill(n: nat, w: nat): nat
    requires w > 0
  {
    if n % w == 0 then 0 else w - n % w
  }

  ghost function Bytepad(x: seq<Byte>, w: nat): seq<Byte>
    requires IsShakeRate(w)
  {
    var y := Encoded(w) + x;
    y + Zeros(Fill(|y|, w))
  }

  ghost function Prefix(name: seq<Byte>, custom: seq<Byte>, w: nat): seq<Byte>
    requires IsShakeRate(w) && FitsSizeT(name) && FitsSizeT(custom)
  {
    Bytepad(EncodeString(name) + EncodeString(custom), w)
  }

  lemma EncodeStringDecodes(s: seq<Byte>, rest: seq<Byte>)
    requires FitsSizeT(s)
    ensures LeftDecode(EncodeString(s) + rest) == Some((8 * |s|, s + rest))
  {
    SizeTFits(8 * |s|);
    LeftEncodeDecodes(8 * |s|, s + rest);
    assert EncodeString(s) + rest == Encoded(8 * |s|) + (s + rest);
  }

  lemma EncodedStringsDiffer(s: seq<Byte>, s': seq<Byte>, rest: seq<Byte>, rest': seq<Byte>)
    requires FitsSizeT(s) && FitsSizeT(s')
    requires EncodeString(s) + rest == EncodeString(s') + rest'
    ensures s == s' && rest == rest'
  {
    EncodeStringDecodes(s, rest);
    EncodeStringDecodes(s', rest');
    assert (s + rest)[..|s|] == (s' + rest')[..|s'|];
    assert (s + rest)[|s|..] == (s' + rest')[|s'|..];
  }

  /** Domain separation: different function names or customizations give different prefixes, whatever follows them. */
  lemma PrefixInjective(name: seq<Byte>, custom: seq<Byte>, name': seq<Byte>, custom': seq<Byte>, w: nat,
                        input: seq<Byte>, input': seq<Byte>)
    requires IsShakeRate(w)
    requires FitsSizeT(name) && FitsSizeT(custom) && FitsSizeT(name') && FitsSizeT(custom')
    requires Prefix(name, custom, w) + input == Prefix(name', custom', w) + input'
    ensures name == name' && custom == custom' && input == input'
  {
    var z := PrefixParts(name, custom, w, input);
    var z' := PrefixParts(name', custom', w, input');
    EncodedStringsDiffer(name, name', EncodeString(custom) + (z + input), EncodeString(custom') + (z' + input'));
    EncodedStringsDiffer(custom, custom', z + input, z' + input');
    assert (z + input)[|z|..] == input && (z' + input')[|z'|..] == input';
  }

  lemma PrefixParts(name: seq<Byte>, custom: seq<Byte>, w: nat, input: seq<Byte>) returns (z: seq<Byte>)
    requires IsShakeRate(w) && FitsSizeT(name) && FitsSizeT(custom)
    ensures z == Zeros(Fill(|Encoded(w) + (EncodeString(name) + EncodeString(custom))|, w))
    ensures (Prefix(name, custom, w) + input)[|Encoded(w)|..] ==
            EncodeString(name) + (EncodeString(custom) + (z + input))
  {
    var e, n, c := Encoded(w), EncodeString(name), EncodeString(custom);
    z := Zeros(Fill(|e + (n + c)|, w));
    Reassociate(e, n, c, z, input);
  }

  lemma Reassociate<T>(e: seq<T>, n: seq<T>, c: seq<T>, z: seq<T>, i: seq<T>)
    ensures e + (n + c) + z + i == e + (n + (c + (z + i)))
    ensures (e + (n + c) + z + i)[|e|..] == n + (c + (z + i))
  {
  }

  // ---------------------------------------------------------------- absorbing the prefix

  lemma NextRemainder(n: nat, r: nat)
    requires IsShakeRate(r)
    ensures (n + 1) % r == if n % r + 1 == r then 0 else n % r + 1
  {
  }

  lemma {:induction false} PendingIsLength(f: Permutation, r: nat, s: KState, m: seq<Byte>)
    requires IsShakeRate(r)
    ensures Absorb(f, r, Inc(s, 0), m).pending == |m| % r
    decreases |m|
  {
    if m != [] {
      var n := |m| - 1;
      PendingIsLength(f, r, s, m[..n]);
      NextRemainder(n, r);
    }
  }

  lemma {:induction false} XorZeros(s: KState, p: nat, n: nat)
    requires p + n <= 200
    ensures XorBytes(s, p, Zeros(n)) == s
  {
    forall k | 0 <= k < 200 ensures XorBytes(s, p, Zeros(n))[k] == s[k] {
      XorBytesAt(s, p, Zeros(n), k);
      XorZero(s[k]);
    }
  }

  /** Filling a started block with zeros only permutes; so does jumping to its last byte and absorbing one zero. */
  lemma ZeroFill(f: Permutation, r: nat, c: Inc)
    requires IsRate(r) && 0 < c.pending < r
    ensures Absorb(f, r, c, Zeros(r - c.pending)) == Inc(f(c.s), 0)
    ensures Absorb(f, r, Inc(c.s, r - 1), [NO_BYTE]) == Inc(f(c.s), 0)
  {
    AbsorbRun(f, r, c, Zeros(r - c.pending));
    XorZeros(c.s, c.pending, r - c.pending);
    AbsorbRun(f, r, Inc(c.s, r - 1), [NO_BYTE]);
    XorZeros(c.s, r - 1, 1);
    assert Zeros(1) == [NO_BYTE];
  }

  lemma AbsorbBytepad(f: Permutation, r: nat, x: seq<Byte>)
    requires IsShakeRate(r)
    ensures
      var c := Absorb(f, r, Inc(ZeroState(), 0), Encoded(r) + x);
      Absorb(f, r, Inc(ZeroState(), 0), Bytepad(x, r)) == if c.pending == 0 then c else Inc(f(c.s), 0)
  {
    var y := Encoded(r) + x;
    var c := Absorb(f, r, Inc(ZeroState(), 0), y);
    PendingIsLength(f, r, ZeroState(), y);
    AbsorbConcat(f, r, Inc(ZeroState(), 0), y, Zeros(Fill(|y|, r)));
    if c.pending != 0 {
      ZeroFill(f, r, c);
    }
  }

  method AbsorbLength(f: Permutation, r: nat, context: IncContext, encbuf: array<Byte>, value: u64)
    requires IsShakeRate(r) && context.Valid() && context.pending < r && encbuf.Length == 9
    modifies context, context.lanes, encbuf
    ensures context.pending < r
    ensures context.Value() == Absorb(f, r, old(context.Value()), Encoded(value))
  {
    var len := LeftEncodeInto(encbuf, value);
    context.Absorb(f, r, encbuf[..len]);
  }

  method AbsorbString(f: Permutation, r: nat, context: IncContext, encbuf: array<Byte>, s: seq<Byte>)
    requires IsShakeRate(r) && context.Valid() && context.pending < r && encbuf.Length == 9 && FitsSizeT(s)
    modifies context, context.lanes, encbuf
    ensures context.pending < r
    ensures context.Value() == Absorb(f, r, old(context.Value()), EncodeString(s))
  {
    AbsorbConcat(f, r, context.Value(), Encoded(8 * |s|), s);
    AbsorbLength(f, r, context, encbuf, 8 * |s|);
    context.Absorb(f, r, s);
  }

  /** Three chunks absorbed one after the other are their concatenation. */
  lemma AbsorbThree(f: Permutation, r: nat, c: Inc, x: seq<Byte>, y: seq<Byte>, z: seq<Byte>)
    requires IsRate(r) && c.pending < r
    ensures Absorb(f, r, Absorb(f, r, Absorb(f, r, c, x), y), z) == Absorb(f, r, c, x + (y + z))
  {
    AbsorbConcat(f, r, c, x, y + z);
    AbsorbConcat(f, r, Absorb(f, r, c, x), y, z);
  }

  /** The jump to the last byte of the block, and one zero byte. */
  method ZeroPad(f: Permutation, r: nat, context: IncContext)
    requires IsRate(r) && context.Valid() && context.pending < r
    modifies context, context.lanes
    ensures context.Value() == (var c := old(context.Value()); if c.pending == 0 then c else Inc(f(c.s), 0))
  {
    if context.pending != 0 {
      ZeroFill(f, r, context.Value());
      context.pending := r - 1;
      context.Absorb(f, r, [NO_BYTE]);
    }
  }

  /** `cshake128_inc_init` and `cshake256_inc_init`; the bit lengths fit `size_t`. */
  method CshakeInit(f: Permutation, r: nat, name: seq<Byte>, custom: seq<Byte>) returns (context: IncContext)
    requires IsShakeRate(r) && FitsSizeT(name) && FitsSizeT(custom)
    ensures fresh(context) && fresh(context.lanes) && context.Valid() && context.pending == 0
    ensures context.Value() == Absorb(f, r, Inc(ZeroState(), 0), Prefix(name, custom, r))
  {
    var encbuf := new Byte[9](_ => NO_BYTE);
    context := new IncContext();
    AbsorbLength(f, r, context, encbuf, r);
    AbsorbString(f, r, context, encbuf, name);
    AbsorbString(f, r, context, encbuf, custom);
    AbsorbThree(f, r, Inc(ZeroState(), 0), Encoded(r), EncodeString(name), EncodeString(custom));
    AbsorbBytepad(f, r, EncodeString(name) + EncodeString(custom));
    ZeroPad(f, r, context);
  }

  /** The output of the code: the sponge on the padded prefix followed by the input. */
  ghost function Output(f: Permutation, r: nat, name: seq<Byte>, custom: seq<Byte>, input: seq<Byte>, nblocks: nat)
    : seq<Byte>
    requires IsShakeRate(r) && FitsSizeT(name) && FitsSizeT(custom)
  {
    Sponge(f, r, Prefix(name, custom, r) + input, DELIMITER_CSHAKE, nblocks)
  }

  /** One-shot cSHAKE. */
  method CshakeHash(f: Permutation, r: nat, output: array<Byte>, name: seq<Byte>, custom: seq<Byte>, input: seq<Byte>,
                    ghost nblocks: nat)
    requires IsShakeRate(r) && FitsSizeT(name) && FitsSizeT(custom)
    requires output.Length <= nblocks * r
    modifies output
    ensures output[..] == Output(f, r, name, custom, input, nblocks)[..output.Length]
  {
    var context := CshakeInit(f, r, name, custom);
    context.Absorb(f, r, input);
    context.Finalize(r, DELIMITER_CSHAKE);
    context.Squeeze(f, r, output);
    TwoChunks(f, r, Prefix(name, custom, r), input, output.Length, nblocks);
  }

  lemma TwoChunks(f: Permutation, r: nat, m: seq<Byte>, n: seq<Byte>, len: nat, nblocks: nat)
    requires IsRate(r) && len <= nblocks * r
    ensures
      var c := Absorb(f, r, Absorb(f, r, Inc(ZeroState(), 0), m), n);
      Squeeze(f, r, Finalize(r, c, DELIMITER_CSHAKE), len).1 == Sponge(f, r, m + n, DELIMITER_CSHAKE, nblocks)[..len]
  {
    AbsorbConcat(f, r, Inc(ZeroState(), 0), m, n);
    var c := Absorb(f, r, Inc(ZeroState(), 0), m + n);
    AbsorbThenFinalize(f, r, ZeroState(), m + n, DELIMITER_CSHAKE);
    AbsorbedIsFips(f, r, ZeroState(), m + n, DELIMITER_CSHAKE);
    var c' := Finalize(r, c, DELIMITER_CSHAKE);
    SqueezeBlocks(f, r, c'.s, nblocks);
    SqueezePrefix(f, r, c', len, nblocks * r);
  }

  // ---------------------------------------------------------------- section 3.3 of SP 800-185

  /** cSHAKE as the standard defines it: with two empty strings it is SHAKE. */
  ghost function Standard(f: Permutation, r: nat, name: seq<Byte>, custom: seq<Byte>, input: seq<Byte>, nblocks: nat)
    : seq<Byte>
    requires IsShakeRate(r) && FitsSizeT(name) && FitsSizeT(custom)
  {
    if name == [] && custom == [] then Sponge(f, r, input, DELIMITER_SHAKE, nblocks)
    else Sponge(f, r, Prefix(name, custom, r) + input, DELIMITER_CSHAKE, nblocks)
  }

  ghost function Unpermuted(s: KState): KState {
    s
  }

  lemma EmptyPrefix(r: nat)
    requires IsShakeRate(r)
    ensures |Prefix([], [], r)| == r && Prefix([], [], r)[0] == Byte(1)
  {
    assert |Encoded(r)| == 2 && |EncodeString([])| == 2;
    assert |Encoded(r) + (EncodeString([]) + EncodeString([]))| == 6;
    assert Prefix([], [], r)[0] == Encoded(r)[0] == ToByte(1);
  }

  lemma XoredFirst(s: KState, block: seq<Byte>)
    requires 0 < |block| <= 200
    ensures Xored(s, block)[0] == XorB(s[0], block[0])
  {
  }

  /** Without a permutation the first byte out is the XOR of the first bytes of the blocks. */
  lemma FirstByteOfOne(r: nat, block: seq<Byte>)
    requires IsRate(r) && |block| == r
    ensures FipsSqueeze(Unpermuted, r, FipsAbsorb(Unpermuted, r, ZeroState(), block), 1)[0] == XorB(NO_BYTE, block[0])
  {
    var s := Xored(ZeroState(), block[..r]);
    assert block[..r] == block && block[r..] == [];
    assert FipsAbsorb(Unpermuted, r, ZeroState(), block) == FipsAbsorb(Unpermuted, r, s, []) == s;
    XoredFirst(ZeroState(), block);
    assert FipsSqueeze(Unpermuted, r, s, 1)[0] == s[0];
  }

  lemma FirstByteOfTwo(r: nat, block: seq<Byte>, last: seq<Byte>)
    requires IsRate(r) && |block| == r && |last| == r
    ensures FipsSqueeze(Unpermuted, r, FipsAbsorb(Unpermuted, r, ZeroState(), block + last), 1)[0]
            == XorB(XorB(NO_BYTE, block[0]), last[0])
  {
    var s := Xored(ZeroState(), block);
    var t := Xored(s, last);
    assert (block + last)[..r] == block && (block + last)[r..] == last;
    assert last[..r] == last && last[r..] == [];
    assert FipsAbsorb(Unpermuted, r, s, last) == FipsAbsorb(Unpermuted, r, t, []) == t;
    assert FipsAbsorb(Unpermuted, r, ZeroState(), block + last) == t;
    XoredFirst(ZeroState(), block);
    XoredFirst(s, last);
    assert FipsSqueeze(Unpermuted, r, t, 1)[0] == t[0];
  }

  lemma FirstBytes()
    ensures XorB(XorB(NO_BYTE, Byte(1)), DELIMITER_CSHAKE) == Byte(5)
    ensures XorB(NO_BYTE, DELIMITER_SHAKE) == Byte(0x1F)
  {
  }

  /** With two empty strings, no input and no permutation, the first byte is 5 where SHAKE has 0x1F. */
  lemma EmptyStringsDiffer(r: nat)
    requires IsShakeRate(r)
    ensures Output(Unpermuted, r, [], [], [], 1)[0] == Byte(5)
    ensures Standard(Unpermuted, r, [], [], [], 1)[0] == Byte(0x1F)
  {
    var prefix := Prefix([], [], r);
    var last, shake := LastBlock(r, [], DELIMITER_CSHAKE), LastBlock(r, [], DELIMITER_SHAKE);
    EmptyPrefix(r);
    assert prefix + [] == prefix && prefix[..r] == prefix && prefix[r..] == [];
    assert Padded(r, prefix, DELIMITER_CSHAKE) == prefix + Padded(r, [], DELIMITER_CSHAKE) == prefix + last;
    assert last[0] == DELIMITER_CSHAKE && shake[0] == DELIMITER_SHAKE;
    FirstByteOfTwo(r, prefix, last);
    FirstByteOfOne(r, shake);
    FirstBytes();
  }

  /** The code is the standard's cSHAKE, whatever the permutation, input and length, iff one string is not empty. */
  lemma StandardExactly(r: nat, name: seq<Byte>, custom: seq<Byte>)
    requires IsShakeRate(r) && FitsSizeT(name) && FitsSizeT(custom)
    ensures (forall f: Permutation, input: seq<Byte>, nblocks: nat ::
               Output(f, r, name, custom, input, nblocks) == Standard(f, r, name, custom, input, nblocks))
            <==> name != [] || custom != []
  {
    if name == [] && custom == [] {
      EmptyStringsDiffer(r);
      assert Output(Unpermuted, r, name, custom, [], 1) != Standard(Unpermuted, r, name, custom, [], 1);
    }
  }
}
