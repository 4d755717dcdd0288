/**
 * 64-bit lanes as their eight bytes, lowest first, and why that is a faithful picture:
 * `Word` maps a lane to the machine word it stands for, and takes each operation used by
 * the sponge to the machine operation of the C code.
 */
module Lanes {
  datatype Byte = Byte(v: bv8)
  type Lane = x: seq<Byte> | |x| == 8 witness [Byte(0), Byte(0), Byte(0), Byte(0), Byte(0), Byte(0), Byte(0), Byte(0)]
  type LaneIndex = j: nat | j < 8

  const NO_BYTE := Byte(0)
  const ZERO_LANE: Lane := [NO_BYTE, NO_BYTE, NO_BYTE, NO_BYTE, NO_BYTE, NO_BYTE, NO_BYTE, NO_BYTE]

  function XorB(a: Byte, b: Byte): Byte { Byte(a.v ^ b.v) }
  function OrB(a: Byte, b: Byte): Byte { Byte(a.v | b.v) }

  function XorL(x: Lane, y: Lane): Lane {
    seq(8, i requires 0 <= i < 8 => XorB(x[i], y[i]))
  }

  /** `(uint64_t)b << 8 * j` */
  function Shifted(b: Byte, j: LaneIndex): Lane {
    seq(8, i => if i == j then b else NO_BYTE)
  }

  lemma XorZero(a: Byte)
    ensures XorB(a, NO_BYTE) == a
  {
  }

  lemma OrNone(a: Byte)
    ensures OrB(NO_BYTE, a) == a
  {
  }

  lemma XorAssoc(a: Byte, b: Byte, c: Byte)
    ensures XorB(XorB(a, b), c) == XorB(a, XorB(b, c))
  {
  }

  /** Setting the top bit by OR and by XOR is the same exactly when it is clear. */
  lemma TopBit(p: Byte)
    ensures OrB(p, Byte(128)) == XorB(p, Byte(128)) <==> p.v < 128
  {
  }

  lemma XorInjective(a: Byte, b: Byte, c: Byte)
    ensures XorB(a, b) == XorB(a, c) <==> b == c
  {
    assert b.v == a.v ^ (a.v ^ b.v);
    assert c.v == a.v ^ (a.v ^ c.v);
  }

  // ---------------------------------------------------------------- machine words

  /** `load64`: the bytes ORed together, byte `j` shifted left by `8 * j`. */
  function Load64(b0: bv8, b1: bv8, b2: bv8, b3: bv8, b4: bv8, b5: bv8, b6: bv8, b7: bv8): bv64 {
    (b0 as bv64) | ((b1 as bv64) << 8) | ((b2 as bv64) << 16) | ((b3 as bv64) << 24)
    | ((b4 as bv64) << 32) | ((b5 as bv64) << 40) | ((b6 as bv64) << 48) | ((b7 as bv64) << 56)
  }

  /** `(uint8_t)(u >> 8 * j)`, the byte `store64` writes at position `j`. */
  function Store64(u: bv64, j: LaneIndex): bv8 {
    match j
    case 0 => (u & 0xFF) as bv8 case 1 => ((u >> 8) & 0xFF) as bv8
    case 2 => ((u >> 16) & 0xFF) as bv8 case 3 => ((u >> 24) & 0xFF) as bv8
    case 4 => ((u >> 32) & 0xFF) as bv8 case 5 => ((u >> 40) & 0xFF) as bv8
    case 6 => ((u >> 48) & 0xFF) as bv8 case _ => ((u >> 56) & 0xFF) as bv8
  }

  function Word(x: Lane): bv64 {
    Load64(x[0].v, x[1].v, x[2].v, x[3].v, x[4].v, x[5].v, x[6].v, x[7].v)
  }

  lemma StoreLoad(b0: bv8, b1: bv8, b2: bv8, b3: bv8, b4: bv8, b5: bv8, b6: bv8, b7: bv8)
    ensures
      var u := Load64(b0, b1, b2, b3, b4, b5, b6, b7);
      && Store64(u, 0) == b0 && Store64(u, 1) == b1 && Store64(u, 2) == b2 && Store64(u, 3) == b3
      && Store64(u, 4) == b4 && Store64(u, 5) == b5 && Store64(u, 6) == b6 && Store64(u, 7) == b7
  {
  }

  lemma LoadStore(u: bv64)
    ensures Load64(Store64(u, 0), Store64(u, 1), Store64(u, 2), Store64(u, 3),
                   Store64(u, 4), Store64(u, 5), Store64(u, 6), Store64(u, 7)) == u
  {
  }

  /** `store64` writes the bytes of the lane. */
  lemma StoreOfWord(x: Lane, j: LaneIndex)
    ensures Store64(Word(x), j) == x[j].v
  {
    StoreLoad(x[0].v, x[1].v, x[2].v, x[3].v, x[4].v, x[5].v, x[6].v, x[7].v);
  }

  /** Every machine word is the word of exactly one lane. */
  lemma WordBijective(x: Lane, y: Lane, u: bv64)
    ensures Word(x) == Word(y) ==> x == y
    ensures Word(seq(8, j requires 0 <= j < 8 => Byte(Store64(u, j)))) == u
  {
    LoadStore(u);
    if Word(x) == Word(y) {
      forall j: LaneIndex ensures x[j] == y[j] {
        StoreOfWord(x, j);
        StoreOfWord(y, j);
      }
    }
  }

  lemma LoadXor(a0: bv8, a1: bv8, a2: bv8, a3: bv8, a4: bv8, a5: bv8, a6: bv8, a7: bv8,
                b0: bv8, b1: bv8, b2: bv8, b3: bv8, b4: bv8, b5: bv8, b6: bv8, b7: bv8)
    ensures Load64(a0, a1, a2, a3, a4, a5, a6, a7) ^ Load64(b0, b1, b2, b3, b4, b5, b6, b7)
         == Load64(a0 ^ b0, a1 ^ b1, a2 ^ b2, a3 ^ b3, a4 ^ b4, a5 ^ b5, a6 ^ b6, a7 ^ b7)
  {
  }

  lemma WordOfXor(x: Lane, y: Lane)
    ensures Word(XorL(x, y)) == Word(x) ^ Word(y)
  {
    LoadXor(x[0].v, x[1].v, x[2].v, x[3].v, x[4].v, x[5].v, x[6].v, x[7].v,
            y[0].v, y[1].v, y[2].v, y[3].v, y[4].v, y[5].v, y[6].v, y[7].v);
  }

  lemma LoadOne(b: bv8)
    ensures
      var u := b as bv64;
      && Load64(b, 0, 0, 0, 0, 0, 0, 0) == u && Load64(0, b, 0, 0, 0, 0, 0, 0) == u << 8
      && Load64(0, 0, b, 0, 0, 0, 0, 0) == u << 16 && Load64(0, 0, 0, b, 0, 0, 0, 0) == u << 24
      && Load64(0, 0, 0, 0, b, 0, 0, 0) == u << 32 && Load64(0, 0, 0, 0, 0, b, 0, 0) == u << 40
      && Load64(0, 0, 0, 0, 0, 0, b, 0) == u << 48 && Load64(0, 0, 0, 0, 0, 0, 0, b) == u << 56
  {
  }

  lemma WordOfShifted(b: Byte, j: LaneIndex)
    ensures
      var u := b.v as bv64;
      Word(Shifted(b, j)) ==
        match j
        case 0 => u case 1 => u << 8 case 2 => u << 16 case 3 => u << 24
        case 4 => u << 32 case 5 => u << 40 case 6 => u << 48 case _ => u << 56
  {
    LoadOne(b.v);
    if j == 0 { } else if j == 1 { } else if j == 2 { } else if j == 3 { }
    else if j == 4 { } else if j == 5 { } else if j == 6 { } else { }
  }
}
