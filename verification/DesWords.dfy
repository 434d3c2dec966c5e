/**
 * The round function of DES on machine words, as `muggle/c/crypt/internal/internal_des.c` computes it: shifts of a 32-bit
 * word, bytes of which six bits count, and flat tables. It refines the bits of `DesRound`.
 */
module DesWords {
  import opened Feistel
  import opened DesRound
  import opened DesBoxes

  /** Bit `j` of a byte, the least significant first. */
  predicate BitOf(b: bv8, j: nat)
    requires j < 8
  {
    if j == 0 then b & 0x01 != 0 else if j == 1 then b & 0x02 != 0 else if j == 2 then b & 0x04 != 0
    else if j == 3 then b & 0x08 != 0 else if j == 4 then b & 0x10 != 0 else if j == 5 then b & 0x20 != 0
    else if j == 6 then b & 0x40 != 0 else b & 0x80 != 0
  }

  /** Byte `i` of a word in memory, the least significant first. */
  function ByteAt(w: bv32, i: nat): bv8
    requires i < 4
  {
    if i == 0 then (w & 0xff) as bv8 else if i == 1 then ((w >> 8) & 0xff) as bv8
    else if i == 2 then ((w >> 16) & 0xff) as bv8 else ((w >> 24) & 0xff) as bv8
  }

  /** Bit `t` of a word. */
  predicate Bit(w: bv32, t: nat)
    requires t < 32
  {
    BitOf(ByteAt(w, t / 8), t % 8)
  }

  /** The bits of a word, the least significant first. */
  function Word(w: bv32): Half { seq(32, t requires 0 <= t < 32 => Bit(w, t)) }

  function XorByte(a: bv8, b: bv8): bv8 { a ^ b }

  function XorWord(a: bv32, b: bv32): bv32 { a ^ b }

  lemma XorBitOf(a: bv8, b: bv8, j: nat)
    requires j < 8
    ensures BitOf(XorByte(a, b), j) == (BitOf(a, j) != BitOf(b, j))
  {
    hide XorByte, BitOf;
    XorLowBits(a, b);
    XorHighBits(a, b);
  }

  lemma XorLowBits(a: bv8, b: bv8)
    ensures BitOf(XorByte(a, b), 0) == (BitOf(a, 0) != BitOf(b, 0))
    ensures BitOf(XorByte(a, b), 1) == (BitOf(a, 1) != BitOf(b, 1))
    ensures BitOf(XorByte(a, b), 2) == (BitOf(a, 2) != BitOf(b, 2))
    ensures BitOf(XorByte(a, b), 3) == (BitOf(a, 3) != BitOf(b, 3))
  {
  }

  lemma XorHighBits(a: bv8, b: bv8)
    ensures BitOf(XorByte(a, b), 4) == (BitOf(a, 4) != BitOf(b, 4))
    ensures BitOf(XorByte(a, b), 5) == (BitOf(a, 5) != BitOf(b, 5))
    ensures BitOf(XorByte(a, b), 6) == (BitOf(a, 6) != BitOf(b, 6))
    ensures BitOf(XorByte(a, b), 7) == (BitOf(a, 7) != BitOf(b, 7))
  {
  }

  lemma XorByte0(a: bv32, b: bv32)
    ensures ByteAt(XorWord(a, b), 0) == XorByte(ByteAt(a, 0), ByteAt(b, 0))
  {
  }

  lemma XorByte1(a: bv32, b: bv32)
    ensures ByteAt(XorWord(a, b), 1) == XorByte(ByteAt(a, 1), ByteAt(b, 1))
  {
  }

  lemma XorByte2(a: bv32, b: bv32)
    ensures ByteAt(XorWord(a, b), 2) == XorByte(ByteAt(a, 2), ByteAt(b, 2))
  {
  }

  lemma XorByte3(a: bv32, b: bv32)
    ensures ByteAt(XorWord(a, b), 3) == XorByte(ByteAt(a, 3), ByteAt(b, 3))
  {
  }

  lemma XorByteAt(a: bv32, b: bv32, i: nat)
    requires i < 4
    ensures ByteAt(XorWord(a, b), i) == XorByte(ByteAt(a, i), ByteAt(b, i))
  {
    hide ByteAt, XorWord, XorByte;
    XorByte0(a, b);
    XorByte1(a, b);
    XorByte2(a, b);
    XorByte3(a, b);
  }

  lemma WordsXor(a: bv32, b: bv32)
    ensures Word(XorWord(a, b)) == XorBits(Word(a), Word(b))
  {
    hide BitOf, ByteAt, XorWord, XorByte;
    forall t | 0 <= t < 32 ensures Word(XorWord(a, b))[t] == XorBits(Word(a), Word(b))[t] {
      XorByteAt(a, b, t / 8);
      XorBitOf(ByteAt(a, t / 8), ByteAt(b, t / 8), t % 8);
    }
  }

  lemma NoBit(j: nat)
    requires j < 8
    ensures !BitOf(0, j)
  {
  }

  lemma NoByte(i: nat)
    requires i < 4
    ensures ByteAt(0, i) == 0
  {
  }

  lemma ZeroWord()
    ensures Word(0) == seq(32, i => false)
  {
    hide BitOf, ByteAt;
    forall t | 0 <= t < 32 ensures Word(0)[t] == false {
      NoByte(t / 8);
      NoBit(t % 8);
    }
  }

  /** The low six bits of a byte. */
  function SixBits(b: bv8): (g: Bits)
    ensures |g| == 6
  {
    seq(6, j requires 0 <= j < 6 => BitOf(b, j))
  }

  type Octet = k: seq<bv8> | |k| == 8 witness [0, 0, 0, 0, 0, 0, 0, 0]

  function GroupsOf(k: Octet): Groups { seq(8, i requires 0 <= i < 8 => SixBits(k[i])) }

  // ------------------------------------------------------------------------- expansion

  /** Byte `i` of `muggle_des_expand`. */
  function ExpandByte(u: bv32, i: nat): bv8
    requires i < 8
  {
    if i == 0 then ((((u >> 31) & 1) | (u << 1)) & 0xff) as bv8
    else if i == 1 then ((u >> 3) & 0xff) as bv8
    else if i == 2 then ((u >> 7) & 0xff) as bv8
    else if i == 3 then ((u >> 11) & 0xff) as bv8
    else if i == 4 then ((u >> 15) & 0xff) as bv8
    else if i == 5 then ((u >> 19) & 0xff) as bv8
    else if i == 6 then ((u >> 23) & 0xff) as bv8
    else ((((u >> 27) & 0x1f) | (u << 5)) & 0xff) as bv8
  }

  lemma Expanded0(u: bv32)
    ensures BitOf(ExpandByte(u, 0), 0) == Bit(u, 31) && BitOf(ExpandByte(u, 0), 1) == Bit(u, 0) && BitOf(ExpandByte(u, 0), 2) == Bit(u, 1)
    ensures BitOf(ExpandByte(u, 0), 3) == Bit(u, 2) && BitOf(ExpandByte(u, 0), 4) == Bit(u, 3) && BitOf(ExpandByte(u, 0), 5) == Bit(u, 4)
  {
  }

  lemma Expanded1(u: bv32)
    ensures BitOf(ExpandByte(u, 1), 0) == Bit(u, 3) && BitOf(ExpandByte(u, 1), 1) == Bit(u, 4) && BitOf(ExpandByte(u, 1), 2) == Bit(u, 5)
    ensures BitOf(ExpandByte(u, 1), 3) == Bit(u, 6) && BitOf(ExpandByte(u, 1), 4) == Bit(u, 7) && BitOf(ExpandByte(u, 1), 5) == Bit(u, 8)
  {
  }

  lemma Expanded2(u: bv32)
    ensures BitOf(ExpandByte(u, 2), 0) == Bit(u, 7) && BitOf(ExpandByte(u, 2), 1) == Bit(u, 8) && BitOf(ExpandByte(u, 2), 2) == Bit(u, 9)
    ensures BitOf(ExpandByte(u, 2), 3) == Bit(u, 10) && BitOf(ExpandByte(u, 2), 4) == Bit(u, 11) && BitOf(ExpandByte(u, 2), 5) == Bit(u, 12)
  {
  }

  lemma Expanded3(u: bv32)
    ensures BitOf(ExpandByte(u, 3), 0) == Bit(u, 11) && BitOf(ExpandByte(u, 3), 1) == Bit(u, 12) && BitOf(ExpandByte(u, 3), 2) == Bit(u, 13)
    ensures BitOf(ExpandByte(u, 3), 3) == Bit(u, 14) && BitOf(ExpandByte(u, 3), 4) == Bit(u, 15) && BitOf(ExpandByte(u, 3), 5) == Bit(u, 16)
  {
  }

  lemma Expanded4(u: bv32)
    ensures BitOf(ExpandByte(u, 4), 0) == Bit(u, 15) && BitOf(ExpandByte(u, 4), 1) == Bit(u, 16) && BitOf(ExpandByte(u, 4), 2) == Bit(u, 17)
    ensures BitOf(ExpandByte(u, 4), 3) == Bit(u, 18) && BitOf(ExpandByte(u, 4), 4) == Bit(u, 19) && BitOf(ExpandByte(u, 4), 5) == Bit(u, 20)
  {
  }

  lemma Expanded5(u: bv32)
    ensures BitOf(ExpandByte(u, 5), 0) == Bit(u, 19) && BitOf(ExpandByte(u, 5), 1) == Bit(u, 20) && BitOf(ExpandByte(u, 5), 2) == Bit(u, 21)
    ensures BitOf(ExpandByte(u, 5), 3) == Bit(u, 22) && BitOf(ExpandByte(u, 5), 4) == Bit(u, 23) && BitOf(ExpandByte(u, 5), 5) == Bit(u, 24)
  {
  }

  lemma Expanded6(u: bv32)
    ensures BitOf(ExpandByte(u, 6), 0) == Bit(u, 23) && BitOf(ExpandByte(u, 6), 1) == Bit(u, 24) && BitOf(ExpandByte(u, 6), 2) == Bit(u, 25)
    ensures BitOf(ExpandByte(u, 6), 3) == Bit(u, 26) && BitOf(ExpandByte(u, 6), 4) == Bit(u, 27) && BitOf(ExpandByte(u, 6), 5) == Bit(u, 28)
  {
  }

  lemma Expanded7(u: bv32)
    ensures BitOf(ExpandByte(u, 7), 0) == Bit(u, 27) && BitOf(ExpandByte(u, 7), 1) == Bit(u, 28) && BitOf(ExpandByte(u, 7), 2) == Bit(u, 29)
    ensures BitOf(ExpandByte(u, 7), 3) == Bit(u, 30) && BitOf(ExpandByte(u, 7), 4) == Bit(u, 31) && BitOf(ExpandByte(u, 7), 5) == Bit(u, 0)
  {
  }

  lemma ExpandBitOf(u: bv32, i: nat, j: nat)
    requires i < 8 && j < 6
    ensures BitOf(ExpandByte(u, i), j) == Bit(u, (4 * i + j + 31) % 32)
  {
    hide BitOf, ExpandByte, Bit;
    assert j == 0 || j == 1 || j == 2 || j == 3 || j == 4 || j == 5;
    if i == 0 {
      Expanded0(u);
    } else if i == 1 {
      Expanded1(u);
    } else if i == 2 {
      Expanded2(u);
    } else if i == 3 {
      Expanded3(u);
    } else if i == 4 {
      Expanded4(u);
    } else if i == 5 {
      Expanded5(u);
    } else if i == 6 {
      Expanded6(u);
    } else {
      Expanded7(u);
    }
  }

  /** The bytes hold the groups of the expansion; their two top bits are left over. */
  lemma ExpandWord(u: bv32, i: nat)
    requires i < 8
    ensures SixBits(ExpandByte(u, i)) == Expand(Word(u))[i]
  {
    hide BitOf, ExpandByte, Bit;
    forall j | 0 <= j < 6 ensures SixBits(ExpandByte(u, i))[j] == Expand(Word(u))[i][j] {
      ExpandBitOf(u, i, j);
    }
  }

  // ------------------------------------------------------------------------- the subkey and the boxes

  lemma XorSix(a: bv8, b: bv8)
    ensures SixBits(XorByte(a, b)) == XorGroup(SixBits(a), SixBits(b))
  {
    hide XorByte, BitOf;
    forall j | 0 <= j < 6 ensures SixBits(XorByte(a, b))[j] == XorGroup(SixBits(a), SixBits(b))[j] {
      XorBitOf(a, b, j);
    }
  }

  /** The entry of box `i` for a byte. */
  function Boxed(i: nat, b: bv8): bv64
    requires i < 8
  {
    LookUp(i, BitOf(b, 0), BitOf(b, 1), BitOf(b, 2), BitOf(b, 3), BitOf(b, 4), BitOf(b, 5))
  }

  lemma BoxedIs(i: nat, b: bv8)
    requires i < 8
    ensures Boxed(i, b) == Entry(i, SixBits(b))
  {
    hide LookUp, BitOf;
  }

  // ------------------------------------------------------------------------- gathering the nibbles

  /** The four bytes of the word, two entries each. */
  function Gathered(e0: bv64, e1: bv64, e2: bv64, e3: bv64, e4: bv64, e5: bv64, e6: bv64, e7: bv64): bv32 {
    ((e0 & 0xf) as bv32) | (((e1 & 0xf) as bv32) << 4) | (((e2 & 0xf) as bv32) << 8) | (((e3 & 0xf) as bv32) << 12)
    | (((e4 & 0xf) as bv32) << 16) | (((e5 & 0xf) as bv32) << 20) | (((e6 & 0xf) as bv32) << 24)
    | (((e7 & 0xf) as bv32) << 28)
  }

  lemma Gathered0(e0: bv64, e1: bv64, e2: bv64, e3: bv64, e4: bv64, e5: bv64, e6: bv64, e7: bv64)
    ensures var u := Gathered(e0, e1, e2, e3, e4, e5, e6, e7);
      && Bit(u, 0) == EntryBit(e0, 0) && Bit(u, 1) == EntryBit(e0, 1)
      && Bit(u, 2) == EntryBit(e0, 2) && Bit(u, 3) == EntryBit(e0, 3)
      && Bit(u, 4) == EntryBit(e1, 0) && Bit(u, 5) == EntryBit(e1, 1)
      && Bit(u, 6) == EntryBit(e1, 2) && Bit(u, 7) == EntryBit(e1, 3)
  {
  }

  lemma Gathered1(e0: bv64, e1: bv64, e2: bv64, e3: bv64, e4: bv64, e5: bv64, e6: bv64, e7: bv64)
    ensures var u := Gathered(e0, e1, e2, e3, e4, e5, e6, e7);
      && Bit(u, 8) == EntryBit(e2, 0) && Bit(u, 9) == EntryBit(e2, 1)
      && Bit(u, 10) == EntryBit(e2, 2) && Bit(u, 11) == EntryBit(e2, 3)
      && Bit(u, 12) == EntryBit(e3, 0) && Bit(u, 13) == EntryBit(e3, 1)
      && Bit(u, 14) == EntryBit(e3, 2) && Bit(u, 15) == EntryBit(e3, 3)
  {
  }

  lemma Gathered2(e0: bv64, e1: bv64, e2: bv64, e3: bv64, e4: bv64, e5: bv64, e6: bv64, e7: bv64)
    ensures var u := Gathered(e0, e1, e2, e3, e4, e5, e6, e7);
      && Bit(u, 16) == EntryBit(e4, 0) && Bit(u, 17) == EntryBit(e4, 1)
      && Bit(u, 18) == EntryBit(e4, 2) && Bit(u, 19) == EntryBit(e4, 3)
      && Bit(u, 20) == EntryBit(e5, 0) && Bit(u, 21) == EntryBit(e5, 1)
      && Bit(u, 22) == EntryBit(e5, 2) && Bit(u, 23) == EntryBit(e5, 3)
  {
  }

  lemma Gathered3(e0: bv64, e1: bv64, e2: bv64, e3: bv64, e4: bv64, e5: bv64, e6: bv64, e7: bv64)
    ensures var u := Gathered(e0, e1, e2, e3, e4, e5, e6, e7);
      && Bit(u, 24) == EntryBit(e6, 0) && Bit(u, 25) == EntryBit(e6, 1)
      && Bit(u, 26) == EntryBit(e6, 2) && Bit(u, 27) == EntryBit(e6, 3)
      && Bit(u, 28) == EntryBit(e7, 0) && Bit(u, 29) == EntryBit(e7, 1)
      && Bit(u, 30) == EntryBit(e7, 2) && Bit(u, 31) == EntryBit(e7, 3)
  {
  }

  /** `MUGGLE_MOVE_BIT`, for each bit of the word. */
  function Moved(u: bv32): bv32 {
    (((u >> 15) & 1) << 0) | (((u >> 6) & 1) << 1) | (((u >> 19) & 1) << 2) | (((u >> 20) & 1) << 3)
    | (((u >> 28) & 1) << 4) | (((u >> 11) & 1) << 5) | (((u >> 27) & 1) << 6) | (((u >> 16) & 1) << 7)
    | (((u >> 0) & 1) << 8) | (((u >> 14) & 1) << 9) | (((u >> 22) & 1) << 10) | (((u >> 25) & 1) << 11)
    | (((u >> 4) & 1) << 12) | (((u >> 17) & 1) << 13) | (((u >> 30) & 1) << 14) | (((u >> 9) & 1) << 15)
    | (((u >> 1) & 1) << 16) | (((u >> 7) & 1) << 17) | (((u >> 23) & 1) << 18) | (((u >> 13) & 1) << 19)
    | (((u >> 31) & 1) << 20) | (((u >> 26) & 1) << 21) | (((u >> 2) & 1) << 22) | (((u >> 8) & 1) << 23)
    | (((u >> 18) & 1) << 24) | (((u >> 12) & 1) << 25) | (((u >> 29) & 1) << 26) | (((u >> 5) & 1) << 27)
    | (((u >> 21) & 1) << 28) | (((u >> 10) & 1) << 29) | (((u >> 3) & 1) << 30) | (((u >> 24) & 1) << 31)
  }

  lemma Moved0(u: bv32)
    ensures Bit(Moved(u), 0) == Bit(u, 15) && Bit(Moved(u), 1) == Bit(u, 6)
    ensures Bit(Moved(u), 2) == Bit(u, 19) && Bit(Moved(u), 3) == Bit(u, 20)
    ensures Bit(Moved(u), 4) == Bit(u, 28) && Bit(Moved(u), 5) == Bit(u, 11)
    ensures Bit(Moved(u), 6) == Bit(u, 27) && Bit(Moved(u), 7) == Bit(u, 16)
  {
  }

  lemma Moved1(u: bv32)
    ensures Bit(Moved(u), 8) == Bit(u, 0) && Bit(Moved(u), 9) == Bit(u, 14)
    ensures Bit(Moved(u), 10) == Bit(u, 22) && Bit(Moved(u), 11) == Bit(u, 25)
    ensures Bit(Moved(u), 12) == Bit(u, 4) && Bit(Moved(u), 13) == Bit(u, 17)
    ensures Bit(Moved(u), 14) == Bit(u, 30) && Bit(Moved(u), 15) == Bit(u, 9)
  {
  }

  lemma Moved2(u: bv32)
    ensures Bit(Moved(u), 16) == Bit(u, 1) && Bit(Moved(u), 17) == Bit(u, 7)
    ensures Bit(Moved(u), 18) == Bit(u, 23) && Bit(Moved(u), 19) == Bit(u, 13)
    ensures Bit(Moved(u), 20) == Bit(u, 31) && Bit(Moved(u), 21) == Bit(u, 26)
    ensures Bit(Moved(u), 22) == Bit(u, 2) && Bit(Moved(u), 23) == Bit(u, 8)
  {
  }

  lemma Moved3(u: bv32)
    ensures Bit(Moved(u), 24) == Bit(u, 18) && Bit(Moved(u), 25) == Bit(u, 12)
    ensures Bit(Moved(u), 26) == Bit(u, 29) && Bit(Moved(u), 27) == Bit(u, 5)
    ensures Bit(Moved(u), 28) == Bit(u, 21) && Bit(Moved(u), 29) == Bit(u, 10)
    ensures Bit(Moved(u), 30) == Bit(u, 3) && Bit(Moved(u), 31) == Bit(u, 24)
  {
  }

  lemma PlacesAre(t: nat)
    requires t < 32
    ensures t == 0 ==> Places[t] == 15
    ensures t == 1 ==> Places[t] == 6
    ensures t == 2 ==> Places[t] == 19
    ensures t == 3 ==> Places[t] == 20
    ensures t == 4 ==> Places[t] == 28
    ensures t == 5 ==> Places[t] == 11
    ensures t == 6 ==> Places[t] == 27
    ensures t == 7 ==> Places[t] == 16
    ensures t == 8 ==> Places[t] == 0
    ensures t == 9 ==> Places[t] == 14
    ensures t == 10 ==> Places[t] == 22
    ensures t == 11 ==> Places[t] == 25
    ensures t == 12 ==> Places[t] == 4
    ensures t == 13 ==> Places[t] == 17
    ensures t == 14 ==> Places[t] == 30
    ensures t == 15 ==> Places[t] == 9
    ensures t == 16 ==> Places[t] == 1
    ensures t == 17 ==> Places[t] == 7
    ensures t == 18 ==> Places[t] == 23
    ensures t == 19 ==> Places[t] == 13
    ensures t == 20 ==> Places[t] == 31
    ensures t == 21 ==> Places[t] == 26
    ensures t == 22 ==> Places[t] == 2
    ensures t == 23 ==> Places[t] == 8
    ensures t == 24 ==> Places[t] == 18
    ensures t == 25 ==> Places[t] == 12
    ensures t == 26 ==> Places[t] == 29
    ensures t == 27 ==> Places[t] == 5
    ensures t == 28 ==> Places[t] == 21
    ensures t == 29 ==> Places[t] == 10
    ensures t == 30 ==> Places[t] == 3
    ensures t == 31 ==> Places[t] == 24
  {
  }

  /** The moves are the permutation P. */
  lemma MovedWord(u: bv32, t: nat)
    requires t < 32
    ensures Word(Moved(u))[t] == Placed(Word(u))[t]
  {
    hide Bit, BitOf, Moved;
    PlacesAre(t);
    Moved0(u);
    Moved1(u);
    Moved2(u);
    Moved3(u);
  }

  /** The whole round function on words: the half and the eight subkey bytes. */
  function F32(u: bv32, k: Octet): bv32 {
    Moved(Gathered(Boxed(0, XorByte(ExpandByte(u, 0), k[0])),
                   Boxed(1, XorByte(ExpandByte(u, 1), k[1])),
                   Boxed(2, XorByte(ExpandByte(u, 2), k[2])),
                   Boxed(3, XorByte(ExpandByte(u, 3), k[3])),
                   Boxed(4, XorByte(ExpandByte(u, 4), k[4])),
                   Boxed(5, XorByte(ExpandByte(u, 5), k[5])),
                   Boxed(6, XorByte(ExpandByte(u, 6), k[6])),
                   Boxed(7, XorByte(ExpandByte(u, 7), k[7]))))
  }

  function Keyed8(u: bv32, k: Octet): Octet {
    seq(8, i requires 0 <= i < 8 => XorByte(ExpandByte(u, i), k[i]))
  }

  lemma KeyedWord(u: bv32, k: Octet)
    ensures GroupsOf(Keyed8(u, k)) == Keyed(Expand(Word(u)), GroupsOf(k))
  {
    hide SixBits, XorByte, ExpandByte, Expand, Word, XorGroup;
    forall i | 0 <= i < 8 ensures GroupsOf(Keyed8(u, k))[i] == Keyed(Expand(Word(u)), GroupsOf(k))[i] {
      ExpandWord(u, i);
      XorSix(ExpandByte(u, i), k[i]);
    }
  }

  function Gather(p: Octet): bv32 {
    Gathered(Boxed(0, p[0]), Boxed(1, p[1]), Boxed(2, p[2]), Boxed(3, p[3]),
             Boxed(4, p[4]), Boxed(5, p[5]), Boxed(6, p[6]), Boxed(7, p[7]))
  }

  lemma GatherAt(p: Octet, i: nat, j: nat)
    requires i < 8 && j < 4
    ensures Bit(Gather(p), 4 * i + j) == EntryBit(Boxed(i, p[i]), j)
  {
    hide Bit, BitOf, Gathered, EntryBit, Boxed;
    var e0, e1, e2, e3 := Boxed(0, p[0]), Boxed(1, p[1]), Boxed(2, p[2]), Boxed(3, p[3]);
    var e4, e5, e6, e7 := Boxed(4, p[4]), Boxed(5, p[5]), Boxed(6, p[6]), Boxed(7, p[7]);
    assert j == 0 || j == 1 || j == 2 || j == 3;
    if i < 2 {
      Gathered0(e0, e1, e2, e3, e4, e5, e6, e7);
    } else if i < 4 {
      Gathered1(e0, e1, e2, e3, e4, e5, e6, e7);
    } else if i < 6 {
      Gathered2(e0, e1, e2, e3, e4, e5, e6, e7);
    } else {
      Gathered3(e0, e1, e2, e3, e4, e5, e6, e7);
    }
  }

  lemma GatherWord(p: Octet)
    ensures Word(Gather(p)) == Substituted(GroupsOf(p))
  {
    hide Bit, BitOf, Gather, EntryBit, Boxed, Entry, SixBits;
    forall t | 0 <= t < 32 ensures Word(Gather(p))[t] == Substituted(GroupsOf(p))[t] {
      GatherAt(p, t / 4, t % 4);
      BoxedIs(t / 4, p[t / 4]);
    }
  }

  /** On words the code computes the round function of the bits. */
  lemma FWord(u: bv32, k: Octet)
    ensures F(Word(u), GroupsOf(k)) == Word(F32(u, k))
  {
    hide Word, GroupsOf, Expand, Keyed, Substituted, Placed, Gathered, Boxed, XorByte, ExpandByte, Moved;
    var p := Keyed8(u, k);
    KeyedWord(u, k);
    GatherWord(p);
    assert F32(u, k) == Moved(Gather(p));
    MovedAll(Gather(p));
  }

  lemma MovedAll(u: bv32)
    ensures Word(Moved(u)) == Placed(Word(u))
  {
    hide Word, Moved, Placed;
    forall t | 0 <= t < 32 ensures Word(Moved(u))[t] == Placed(Word(u))[t] {
      MovedWord(u, t);
    }
  }

  // ------------------------------------------------------------------------- as the source runs it

  /** The index of `muggle_des_sbox`. */
  function SourceIndex(b: bv8): bv8 { (b & 0x20) | ((b & 1) << 4) | ((b >> 1) & 0xf) }

  function Places64(b0: bool, b1: bool, b2: bool, b3: bool, b4: bool, b5: bool): bv8 {
    (if b5 then 32 else 0) + (if b0 then 16 else 0) + (if b4 then 8 else 0) + (if b3 then 4 else 0)
    + (if b2 then 2 else 0) + (if b1 then 1 else 0)
  }

  lemma SourceIndexBits(b: bv8)
    ensures SourceIndex(b) == Places64(BitOf(b, 0), BitOf(b, 1), BitOf(b, 2), BitOf(b, 3), BitOf(b, 4), BitOf(b, 5))
  {
  }

  lemma Places64Value(b0: bool, b1: bool, b2: bool, b3: bool, b4: bool, b5: bool)
    ensures Places64(b0, b1, b2, b3, b4, b5) as nat == Index(b0, b1, b2, b3, b4, b5)
  {
  }

  /** The entry that the source reads: the two top bits of the byte play no part. */
  lemma TableEntry(i: nat, b: bv8)
    requires i < 8
    ensures SourceIndex(b) < 64 && Table(i)[SourceIndex(b) as nat] == Boxed(i, b)
  {
    hide SourceIndex, Places64, BitOf, LookUp, Table, Index;
    SourceIndexBits(b);
    Places64Value(BitOf(b, 0), BitOf(b, 1), BitOf(b, 2), BitOf(b, 3), BitOf(b, 4), BitOf(b, 5));
    LookUpIsTable(i, BitOf(b, 0), BitOf(b, 1), BitOf(b, 2), BitOf(b, 3), BitOf(b, 4), BitOf(b, 5));
    SmallIndex(b);
  }

  lemma SmallIndex(b: bv8)
    ensures SourceIndex(b) < 64
  {
  }

  /** `muggle_des_f`. */
  method RoundF(u: bv32, sk: Octet) returns (out: bv32)
    ensures out == F32(u, sk) && Word(out) == F(Word(u), GroupsOf(sk))
  {
    hide ExpandByte, XorByte, SourceIndex, Table, Boxed, Gathered, Moved, F, Word, GroupsOf;
    var p := new bv8[8](i requires 0 <= i < 8 => ExpandByte(u, i));
    for i := 0 to 8
      invariant forall j | 0 <= j < i :: p[j] == XorByte(ExpandByte(u, j), sk[j])
      invariant forall j | i <= j < 8 :: p[j] == ExpandByte(u, j)
    {
      p[i] := XorByte(p[i], sk[i]);
    }
    var e := new bv64[8];
    for i := 0 to 8
      invariant forall j | 0 <= j < i :: e[j] == Boxed(j, p[j])
      invariant forall j | 0 <= j < 8 :: p[j] == XorByte(ExpandByte(u, j), sk[j])
    {
      TableEntry(i, p[i]);
      e[i] := Table(i)[SourceIndex(p[i]) as nat];
    }
    out := Moved(Gathered(e[0], e[1], e[2], e[3], e[4], e[5], e[6], e[7]));
    FWord(u, sk);
  }
}
