/**
 * The key schedule of DES on machine words: `muggle_des_pc1`, the shifts of `muggle/c/crypt/des.c` and `muggle_des_pc2`
 * as they move bits. A block is its two 32-bit words, the low one first. It refines the bits of `DesKey`.
 */
module DesKeyWords {
  import opened Feistel
  import opened DesRound
  import opened DesWords
  import opened Des
  import opened DesKey

  /** The 64 bits of a block. */
  function Bits64(lo: bv32, hi: bv32): Block { Word(lo) + Word(hi) }

  lemma Bits64At(lo: bv32, hi: bv32, t: nat)
    requires t < 64
    ensures Bits64(lo, hi)[t] == if t < 32 then Bit(lo, t) else Bit(hi, t - 32)
  {
    hide Bit;
  }

  // ------------------------------------------------------------------------- PC-1

  function Left(lo: bv32, hi: bv32): bv32 {
    (((hi >> 24) & 1) << 0) | (((hi >> 16) & 1) << 1) | (((hi >> 8) & 1) << 2) | (((hi >> 0) & 1) << 3)
    | (((lo >> 24) & 1) << 4) | (((lo >> 16) & 1) << 5) | (((lo >> 8) & 1) << 6) | (((lo >> 0) & 1) << 7)
    | (((hi >> 25) & 1) << 8) | (((hi >> 17) & 1) << 9) | (((hi >> 9) & 1) << 10) | (((hi >> 1) & 1) << 11)
    | (((lo >> 25) & 1) << 12) | (((lo >> 17) & 1) << 13) | (((lo >> 9) & 1) << 14) | (((lo >> 1) & 1) << 15)
    | (((hi >> 26) & 1) << 16) | (((hi >> 18) & 1) << 17) | (((hi >> 10) & 1) << 18) | (((hi >> 2) & 1) << 19)
    | (((lo >> 26) & 1) << 20) | (((lo >> 18) & 1) << 21) | (((lo >> 10) & 1) << 22) | (((lo >> 2) & 1) << 23)
    | (((hi >> 27) & 1) << 24) | (((hi >> 19) & 1) << 25) | (((hi >> 11) & 1) << 26) | (((hi >> 3) & 1) << 27)
  }

  function Right(lo: bv32, hi: bv32): bv32 {
    (((hi >> 30) & 1) << 0) | (((hi >> 22) & 1) << 1) | (((hi >> 14) & 1) << 2) | (((hi >> 6) & 1) << 3)
    | (((lo >> 30) & 1) << 4) | (((lo >> 22) & 1) << 5) | (((lo >> 14) & 1) << 6) | (((lo >> 6) & 1) << 7)
    | (((hi >> 29) & 1) << 8) | (((hi >> 21) & 1) << 9) | (((hi >> 13) & 1) << 10) | (((hi >> 5) & 1) << 11)
    | (((lo >> 29) & 1) << 12) | (((lo >> 21) & 1) << 13) | (((lo >> 13) & 1) << 14) | (((lo >> 5) & 1) << 15)
    | (((hi >> 28) & 1) << 16) | (((hi >> 20) & 1) << 17) | (((hi >> 12) & 1) << 18) | (((hi >> 4) & 1) << 19)
    | (((lo >> 28) & 1) << 20) | (((lo >> 20) & 1) << 21) | (((lo >> 12) & 1) << 22) | (((lo >> 4) & 1) << 23)
    | (((lo >> 27) & 1) << 24) | (((lo >> 19) & 1) << 25) | (((lo >> 11) & 1) << 26) | (((lo >> 3) & 1) << 27)
  }

  lemma Left0(lo: bv32, hi: bv32)
    ensures Bit(Left(lo, hi), 0) == Bit(hi, 24) && Bit(Left(lo, hi), 1) == Bit(hi, 16)
    ensures Bit(Left(lo, hi), 2) == Bit(hi, 8) && Bit(Left(lo, hi), 3) == Bit(hi, 0)
    ensures Bit(Left(lo, hi), 4) == Bit(lo, 24) && Bit(Left(lo, hi), 5) == Bit(lo, 16)
    ensures Bit(Left(lo, hi), 6) == Bit(lo, 8) && Bit(Left(lo, hi), 7) == Bit(lo, 0)
  {
  }

  lemma Left1(lo: bv32, hi: bv32)
    ensures Bit(Left(lo, hi), 8) == Bit(hi, 25) && Bit(Left(lo, hi), 9) == Bit(hi, 17)
    ensures Bit(Left(lo, hi), 10) == Bit(hi, 9) && Bit(Left(lo, hi), 11) == Bit(hi, 1)
    ensures Bit(Left(lo, hi), 12) == Bit(lo, 25) && Bit(Left(lo, hi), 13) == Bit(lo, 17)
    ensures Bit(Left(lo, hi), 14) == Bit(lo, 9) && Bit(Left(lo, hi), 15) == Bit(lo, 1)
  {
  }

  lemma Left2(lo: bv32, hi: bv32)
    ensures Bit(Left(lo, hi), 16) == Bit(hi, 26) && Bit(Left(lo, hi), 17) == Bit(hi, 18)
    ensures Bit(Left(lo, hi), 18) == Bit(hi, 10) && Bit(Left(lo, hi), 19) == Bit(hi, 2)
    ensures Bit(Left(lo, hi), 20) == Bit(lo, 26) && Bit(Left(lo, hi), 21) == Bit(lo, 18)
    ensures Bit(Left(lo, hi), 22) == Bit(lo, 10) && Bit(Left(lo, hi), 23) == Bit(lo, 2)
  {
  }

  lemma Left3(lo: bv32, hi: bv32)
    ensures Bit(Left(lo, hi), 24) == Bit(hi, 27) && Bit(Left(lo, hi), 25) == Bit(hi, 19)
    ensures Bit(Left(lo, hi), 26) == Bit(hi, 11) && Bit(Left(lo, hi), 27) == Bit(hi, 3)
    ensures !Bit(Left(lo, hi), 28) && !Bit(Left(lo, hi), 29) && !Bit(Left(lo, hi), 30) && !Bit(Left(lo, hi), 31)
  {
  }

  lemma Right0(lo: bv32, hi: bv32)
    ensures Bit(Right(lo, hi), 0) == Bit(hi, 30) && Bit(Right(lo, hi), 1) == Bit(hi, 22)
    ensures Bit(Right(lo, hi), 2) == Bit(hi, 14) && Bit(Right(lo, hi), 3) == Bit(hi, 6)
    ensures Bit(Right(lo, hi), 4) == Bit(lo, 30) && Bit(Right(lo, hi), 5) == Bit(lo, 22)
    ensures Bit(Right(lo, hi), 6) == Bit(lo, 14) && Bit(Right(lo, hi), 7) == Bit(lo, 6)
  {
  }

  lemma Right1(lo: bv32, hi: bv32)
    ensures Bit(Right(lo, hi), 8) == Bit(hi, 29) && Bit(Right(lo, hi), 9) == Bit(hi, 21)
    ensures Bit(Right(lo, hi), 10) == Bit(hi, 13) && Bit(Right(lo, hi), 11) == Bit(hi, 5)
    ensures Bit(Right(lo, hi), 12) == Bit(lo, 29) && Bit(Right(lo, hi), 13) == Bit(lo, 21)
    ensures Bit(Right(lo, hi), 14) == Bit(lo, 13) && Bit(Right(lo, hi), 15) == Bit(lo, 5)
  {
  }

  lemma Right2(lo: bv32, hi: bv32)
    ensures Bit(Right(lo, hi), 16) == Bit(hi, 28) && Bit(Right(lo, hi), 17) == Bit(hi, 20)
    ensures Bit(Right(lo, hi), 18) == Bit(hi, 12) && Bit(Right(lo, hi), 19) == Bit(hi, 4)
    ensures Bit(Right(lo, hi), 20) == Bit(lo, 28) && Bit(Right(lo, hi), 21) == Bit(lo, 20)
    ensures Bit(Right(lo, hi), 22) == Bit(lo, 12) && Bit(Right(lo, hi), 23) == Bit(lo, 4)
  {
  }

  lemma Right3(lo: bv32, hi: bv32)
    ensures Bit(Right(lo, hi), 24) == Bit(lo, 27) && Bit(Right(lo, hi), 25) == Bit(lo, 19)
    ensures Bit(Right(lo, hi), 26) == Bit(lo, 11) && Bit(Right(lo, hi), 27) == Bit(lo, 3)
    ensures !Bit(Right(lo, hi), 28) && !Bit(Right(lo, hi), 29) && !Bit(Right(lo, hi), 30) && !Bit(Right(lo, hi), 31)
  {
  }

  lemma LeftWord(lo: bv32, hi: bv32)
    ensures Word(Left(lo, hi)) == Pc1(Bits64(lo, hi)).c
  {
    hide Bit, Left, Bits64;
    BitsInRange();
    forall t | 0 <= t < 32 ensures Word(Left(lo, hi))[t] == Picked(Bits64(lo, hi), LeftBits)[t] {
      if t < 28 {
        LeftAt(lo, hi, t);
      } else {
        Left3(lo, hi);
      }
    }
  }

  lemma LeftTable(t: nat)
    requires t < 28
    ensures (t == 0 ==> LeftBits[t] == 56) && (t == 1 ==> LeftBits[t] == 48) && (t == 2 ==> LeftBits[t] == 40) && (t == 3 ==> LeftBits[t] == 32)
    ensures (t == 4 ==> LeftBits[t] == 24) && (t == 5 ==> LeftBits[t] == 16) && (t == 6 ==> LeftBits[t] == 8) && (t == 7 ==> LeftBits[t] == 0)
    ensures (t == 8 ==> LeftBits[t] == 57) && (t == 9 ==> LeftBits[t] == 49) && (t == 10 ==> LeftBits[t] == 41) && (t == 11 ==> LeftBits[t] == 33)
    ensures (t == 12 ==> LeftBits[t] == 25) && (t == 13 ==> LeftBits[t] == 17) && (t == 14 ==> LeftBits[t] == 9) && (t == 15 ==> LeftBits[t] == 1)
    ensures (t == 16 ==> LeftBits[t] == 58) && (t == 17 ==> LeftBits[t] == 50) && (t == 18 ==> LeftBits[t] == 42) && (t == 19 ==> LeftBits[t] == 34)
    ensures (t == 20 ==> LeftBits[t] == 26) && (t == 21 ==> LeftBits[t] == 18) && (t == 22 ==> LeftBits[t] == 10) && (t == 23 ==> LeftBits[t] == 2)
    ensures (t == 24 ==> LeftBits[t] == 59) && (t == 25 ==> LeftBits[t] == 51) && (t == 26 ==> LeftBits[t] == 43) && (t == 27 ==> LeftBits[t] == 35)
  {
  }

  lemma LeftAt(lo: bv32, hi: bv32, t: nat)
    requires t < 28
    ensures LeftBits[t] < 64 && Bit(Left(lo, hi), t) == Bits64(lo, hi)[LeftBits[t]]
  {
    hide Bit, Left, Bits64;
    LeftTable(t);
    Bits64At(lo, hi, LeftBits[t]);
    if t < 8 {
      Left0(lo, hi);
    } else if t < 16 {
      Left1(lo, hi);
    } else if t < 24 {
      Left2(lo, hi);
    } else {
      Left3(lo, hi);
    }
  }

  lemma RightWord(lo: bv32, hi: bv32)
    ensures Word(Right(lo, hi)) == Pc1(Bits64(lo, hi)).d
  {
    hide Bit, Right, Bits64;
    BitsInRange();
    forall t | 0 <= t < 32 ensures Word(Right(lo, hi))[t] == Picked(Bits64(lo, hi), RightBits)[t] {
      if t < 28 {
        RightAt(lo, hi, t);
      } else {
        Right3(lo, hi);
      }
    }
  }

  lemma RightTable(t: nat)
    requires t < 28
    ensures (t == 0 ==> RightBits[t] == 62) && (t == 1 ==> RightBits[t] == 54) && (t == 2 ==> RightBits[t] == 46) && (t == 3 ==> RightBits[t] == 38)
    ensures (t == 4 ==> RightBits[t] == 30) && (t == 5 ==> RightBits[t] == 22) && (t == 6 ==> RightBits[t] == 14) && (t == 7 ==> RightBits[t] == 6)
    ensures (t == 8 ==> RightBits[t] == 61) && (t == 9 ==> RightBits[t] == 53) && (t == 10 ==> RightBits[t] == 45) && (t == 11 ==> RightBits[t] == 37)
    ensures (t == 12 ==> RightBits[t] == 29) && (t == 13 ==> RightBits[t] == 21) && (t == 14 ==> RightBits[t] == 13) && (t == 15 ==> RightBits[t] == 5)
    ensures (t == 16 ==> RightBits[t] == 60) && (t == 17 ==> RightBits[t] == 52) && (t == 18 ==> RightBits[t] == 44) && (t == 19 ==> RightBits[t] == 36)
    ensures (t == 20 ==> RightBits[t] == 28) && (t == 21 ==> RightBits[t] == 20) && (t == 22 ==> RightBits[t] == 12) && (t == 23 ==> RightBits[t] == 4)
    ensures (t == 24 ==> RightBits[t] == 27) && (t == 25 ==> RightBits[t] == 19) && (t == 26 ==> RightBits[t] == 11) && (t == 27 ==> RightBits[t] == 3)
  {
  }

  lemma RightAt(lo: bv32, hi: bv32, t: nat)
    requires t < 28
    ensures RightBits[t] < 64 && Bit(Right(lo, hi), t) == Bits64(lo, hi)[RightBits[t]]
  {
    hide Bit, Right, Bits64;
    RightTable(t);
    Bits64At(lo, hi, RightBits[t]);
    if t < 8 {
      Right0(lo, hi);
    } else if t < 16 {
      Right1(lo, hi);
    } else if t < 24 {
      Right2(lo, hi);
    } else {
      Right3(lo, hi);
    }
  }

  // ------------------------------------------------------------------------- the turns

  /** `MUGGLE_DES_KEY_SHIFT`, by one or two places. */
  function KeyShift(x: bv32, s: nat): bv32 { if s == 1 then (x << 1) | ((x >> 27) & 1) else (x << 2) | ((x >> 26) & 3) }

  lemma Shift10(x: bv32)
    ensures Bit(KeyShift(x, 1), 0) == Bit(x, 27) && Bit(KeyShift(x, 1), 1) == Bit(x, 0)
    ensures Bit(KeyShift(x, 1), 2) == Bit(x, 1) && Bit(KeyShift(x, 1), 3) == Bit(x, 2)
    ensures Bit(KeyShift(x, 1), 4) == Bit(x, 3) && Bit(KeyShift(x, 1), 5) == Bit(x, 4)
    ensures Bit(KeyShift(x, 1), 6) == Bit(x, 5) && Bit(KeyShift(x, 1), 7) == Bit(x, 6)
  {
  }

  lemma Shift11(x: bv32)
    ensures Bit(KeyShift(x, 1), 8) == Bit(x, 7) && Bit(KeyShift(x, 1), 9) == Bit(x, 8)
    ensures Bit(KeyShift(x, 1), 10) == Bit(x, 9) && Bit(KeyShift(x, 1), 11) == Bit(x, 10)
    ensures Bit(KeyShift(x, 1), 12) == Bit(x, 11) && Bit(KeyShift(x, 1), 13) == Bit(x, 12)
    ensures Bit(KeyShift(x, 1), 14) == Bit(x, 13) && Bit(KeyShift(x, 1), 15) == Bit(x, 14)
  {
  }

  lemma Shift12(x: bv32)
    ensures Bit(KeyShift(x, 1), 16) == Bit(x, 15) && Bit(KeyShift(x, 1), 17) == Bit(x, 16)
    ensures Bit(KeyShift(x, 1), 18) == Bit(x, 17) && Bit(KeyShift(x, 1), 19) == Bit(x, 18)
    ensures Bit(KeyShift(x, 1), 20) == Bit(x, 19) && Bit(KeyShift(x, 1), 21) == Bit(x, 20)
    ensures Bit(KeyShift(x, 1), 22) == Bit(x, 21) && Bit(KeyShift(x, 1), 23) == Bit(x, 22)
  {
  }

  lemma Shift13(x: bv32)
    ensures Bit(KeyShift(x, 1), 24) == Bit(x, 23) && Bit(KeyShift(x, 1), 25) == Bit(x, 24)
    ensures Bit(KeyShift(x, 1), 26) == Bit(x, 25) && Bit(KeyShift(x, 1), 27) == Bit(x, 26)
    ensures Bit(KeyShift(x, 1), 28) == Bit(x, 27) && Bit(KeyShift(x, 1), 29) == Bit(x, 28)
    ensures Bit(KeyShift(x, 1), 30) == Bit(x, 29) && Bit(KeyShift(x, 1), 31) == Bit(x, 30)
  {
  }

  lemma Shift20(x: bv32)
    ensures Bit(KeyShift(x, 2), 0) == Bit(x, 26) && Bit(KeyShift(x, 2), 1) == Bit(x, 27)
    ensures Bit(KeyShift(x, 2), 2) == Bit(x, 0) && Bit(KeyShift(x, 2), 3) == Bit(x, 1)
    ensures Bit(KeyShift(x, 2), 4) == Bit(x, 2) && Bit(KeyShift(x, 2), 5) == Bit(x, 3)
    ensures Bit(KeyShift(x, 2), 6) == Bit(x, 4) && Bit(KeyShift(x, 2), 7) == Bit(x, 5)
  {
  }

  lemma Shift21(x: bv32)
    ensures Bit(KeyShift(x, 2), 8) == Bit(x, 6) && Bit(KeyShift(x, 2), 9) == Bit(x, 7)
    ensures Bit(KeyShift(x, 2), 10) == Bit(x, 8) && Bit(KeyShift(x, 2), 11) == Bit(x, 9)
    ensures Bit(KeyShift(x, 2), 12) == Bit(x, 10) && Bit(KeyShift(x, 2), 13) == Bit(x, 11)
    ensures Bit(KeyShift(x, 2), 14) == Bit(x, 12) && Bit(KeyShift(x, 2), 15) == Bit(x, 13)
  {
  }

  lemma Shift22(x: bv32)
    ensures Bit(KeyShift(x, 2), 16) == Bit(x, 14) && Bit(KeyShift(x, 2), 17) == Bit(x, 15)
    ensures Bit(KeyShift(x, 2), 18) == Bit(x, 16) && Bit(KeyShift(x, 2), 19) == Bit(x, 17)
    ensures Bit(KeyShift(x, 2), 20) == Bit(x, 18) && Bit(KeyShift(x, 2), 21) == Bit(x, 19)
    ensures Bit(KeyShift(x, 2), 22) == Bit(x, 20) && Bit(KeyShift(x, 2), 23) == Bit(x, 21)
  {
  }

  lemma Shift23(x: bv32)
    ensures Bit(KeyShift(x, 2), 24) == Bit(x, 22) && Bit(KeyShift(x, 2), 25) == Bit(x, 23)
    ensures Bit(KeyShift(x, 2), 26) == Bit(x, 24) && Bit(KeyShift(x, 2), 27) == Bit(x, 25)
    ensures Bit(KeyShift(x, 2), 28) == Bit(x, 26) && Bit(KeyShift(x, 2), 29) == Bit(x, 27)
    ensures Bit(KeyShift(x, 2), 30) == Bit(x, 28) && Bit(KeyShift(x, 2), 31) == Bit(x, 29)
  {
  }

  lemma ShiftAt(x: bv32, s: nat, t: nat)
    requires 1 <= s <= 2 && t < 32
    ensures Bit(KeyShift(x, s), t) == if t < s then Bit(x, 28 - s + t) else Bit(x, t - s)
  {
    hide Bit, KeyShift;
    if s == 1 {
      Shift10(x);
      Shift11(x);
      Shift12(x);
      Shift13(x);
    } else {
      Shift20(x);
      Shift21(x);
      Shift22(x);
      Shift23(x);
    }
  }

  lemma ShiftWord(x: bv32, s: nat)
    requires 1 <= s <= 2
    ensures Word(KeyShift(x, s)) == Shifted(Word(x), s)
  {
    hide Bit, KeyShift;
    forall t | 0 <= t < 32 ensures Word(KeyShift(x, s))[t] == Shifted(Word(x), s)[t] {
      ShiftAt(x, s, t);
    }
  }

  // ------------------------------------------------------------------------- PC-2

  /** Byte `i` of `muggle_des_pc2`, from the half it belongs to. */
  function Pc2Byte(x: bv32, i: nat): bv8
    requires i < 8
  {
    if i == 0 then ((((x >> 13) & 1) << 0) | (((x >> 16) & 1) << 1) | (((x >> 10) & 1) << 2) | (((x >> 23) & 1) << 3) | (((x >> 0) & 1) << 4) | (((x >> 4) & 1) << 5)) as bv8
    else if i == 1 then ((((x >> 2) & 1) << 0) | (((x >> 27) & 1) << 1) | (((x >> 14) & 1) << 2) | (((x >> 5) & 1) << 3) | (((x >> 20) & 1) << 4) | (((x >> 9) & 1) << 5)) as bv8
    else if i == 2 then ((((x >> 22) & 1) << 0) | (((x >> 18) & 1) << 1) | (((x >> 11) & 1) << 2) | (((x >> 3) & 1) << 3) | (((x >> 25) & 1) << 4) | (((x >> 7) & 1) << 5)) as bv8
    else if i == 3 then ((((x >> 15) & 1) << 0) | (((x >> 6) & 1) << 1) | (((x >> 26) & 1) << 2) | (((x >> 19) & 1) << 3) | (((x >> 12) & 1) << 4) | (((x >> 1) & 1) << 5)) as bv8
    else if i == 4 then ((((x >> 12) & 1) << 0) | (((x >> 23) & 1) << 1) | (((x >> 2) & 1) << 2) | (((x >> 8) & 1) << 3) | (((x >> 18) & 1) << 4) | (((x >> 26) & 1) << 4)) as bv8
    else if i == 5 then ((((x >> 1) & 1) << 0) | (((x >> 11) & 1) << 1) | (((x >> 22) & 1) << 2) | (((x >> 16) & 1) << 3) | (((x >> 4) & 1) << 4) | (((x >> 19) & 1) << 4)) as bv8
    else if i == 6 then ((((x >> 15) & 1) << 0) | (((x >> 20) & 1) << 1) | (((x >> 10) & 1) << 2) | (((x >> 27) & 1) << 3) | (((x >> 5) & 1) << 4) | (((x >> 24) & 1) << 4)) as bv8
    else ((((x >> 17) & 1) << 0) | (((x >> 13) & 1) << 1) | (((x >> 21) & 1) << 2) | (((x >> 7) & 1) << 3) | (((x >> 0) & 1) << 4) | (((x >> 3) & 1) << 4)) as bv8
  }

  lemma Pc2Byte0(x: bv32)
    ensures BitOf(Pc2Byte(x, 0), 0) == Bit(x, 13) && BitOf(Pc2Byte(x, 0), 1) == Bit(x, 16)
    ensures BitOf(Pc2Byte(x, 0), 2) == Bit(x, 10) && BitOf(Pc2Byte(x, 0), 3) == Bit(x, 23)
    ensures BitOf(Pc2Byte(x, 0), 4) == Bit(x, 0) && BitOf(Pc2Byte(x, 0), 5) == Bit(x, 4)
  {
  }

  lemma Pc2Byte1(x: bv32)
    ensures BitOf(Pc2Byte(x, 1), 0) == Bit(x, 2) && BitOf(Pc2Byte(x, 1), 1) == Bit(x, 27)
    ensures BitOf(Pc2Byte(x, 1), 2) == Bit(x, 14) && BitOf(Pc2Byte(x, 1), 3) == Bit(x, 5)
    ensures BitOf(Pc2Byte(x, 1), 4) == Bit(x, 20) && BitOf(Pc2Byte(x, 1), 5) == Bit(x, 9)
  {
  }

  lemma Pc2Byte2(x: bv32)
    ensures BitOf(Pc2Byte(x, 2), 0) == Bit(x, 22) && BitOf(Pc2Byte(x, 2), 1) == Bit(x, 18)
    ensures BitOf(Pc2Byte(x, 2), 2) == Bit(x, 11) && BitOf(Pc2Byte(x, 2), 3) == Bit(x, 3)
    ensures BitOf(Pc2Byte(x, 2), 4) == Bit(x, 25) && BitOf(Pc2Byte(x, 2), 5) == Bit(x, 7)
  {
  }

  lemma Pc2Byte3(x: bv32)
    ensures BitOf(Pc2Byte(x, 3), 0) == Bit(x, 15) && BitOf(Pc2Byte(x, 3), 1) == Bit(x, 6)
    ensures BitOf(Pc2Byte(x, 3), 2) == Bit(x, 26) && BitOf(Pc2Byte(x, 3), 3) == Bit(x, 19)
    ensures BitOf(Pc2Byte(x, 3), 4) == Bit(x, 12) && BitOf(Pc2Byte(x, 3), 5) == Bit(x, 1)
  {
  }

  lemma Pc2Byte4(x: bv32)
    ensures BitOf(Pc2Byte(x, 4), 0) == Bit(x, 12) && BitOf(Pc2Byte(x, 4), 1) == Bit(x, 23)
    ensures BitOf(Pc2Byte(x, 4), 2) == Bit(x, 2) && BitOf(Pc2Byte(x, 4), 3) == Bit(x, 8)
    ensures BitOf(Pc2Byte(x, 4), 4) == (Bit(x, 18) || Bit(x, 26)) && !BitOf(Pc2Byte(x, 4), 5)
  {
  }

  lemma Pc2Byte5(x: bv32)
    ensures BitOf(Pc2Byte(x, 5), 0) == Bit(x, 1) && BitOf(Pc2Byte(x, 5), 1) == Bit(x, 11)
    ensures BitOf(Pc2Byte(x, 5), 2) == Bit(x, 22) && BitOf(Pc2Byte(x, 5), 3) == Bit(x, 16)
    ensures BitOf(Pc2Byte(x, 5), 4) == (Bit(x, 4) || Bit(x, 19)) && !BitOf(Pc2Byte(x, 5), 5)
  {
  }

  lemma Pc2Byte6(x: bv32)
    ensures BitOf(Pc2Byte(x, 6), 0) == Bit(x, 15) && BitOf(Pc2Byte(x, 6), 1) == Bit(x, 20)
    ensures BitOf(Pc2Byte(x, 6), 2) == Bit(x, 10) && BitOf(Pc2Byte(x, 6), 3) == Bit(x, 27)
    ensures BitOf(Pc2Byte(x, 6), 4) == (Bit(x, 5) || Bit(x, 24)) && !BitOf(Pc2Byte(x, 6), 5)
  {
  }

  lemma Pc2Byte7(x: bv32)
    ensures BitOf(Pc2Byte(x, 7), 0) == Bit(x, 17) && BitOf(Pc2Byte(x, 7), 1) == Bit(x, 13)
    ensures BitOf(Pc2Byte(x, 7), 2) == Bit(x, 21) && BitOf(Pc2Byte(x, 7), 3) == Bit(x, 7)
    ensures BitOf(Pc2Byte(x, 7), 4) == (Bit(x, 0) || Bit(x, 3)) && !BitOf(Pc2Byte(x, 7), 5)
  {
  }

  lemma Chosen0(x: Half)
    ensures Choose(x, 0) == [x[13], x[16], x[10], x[23], x[0], x[4]]
  {
  }

  lemma Group0(x: bv32)
    ensures SixBits(Pc2Byte(x, 0)) == Choose(Word(x), 0)
  {
    hide Bit, BitOf, Pc2Byte, Choose, SixBits;
    Chosen0(Word(x));
    SixAt(Pc2Byte(x, 0));
    Pc2Byte0(x);
    SixEqual(SixBits(Pc2Byte(x, 0)), Choose(Word(x), 0));
  }

  lemma Chosen1(x: Half)
    ensures Choose(x, 1) == [x[2], x[27], x[14], x[5], x[20], x[9]]
  {
  }

  lemma Group1(x: bv32)
    ensures SixBits(Pc2Byte(x, 1)) == Choose(Word(x), 1)
  {
    hide Bit, BitOf, Pc2Byte, Choose, SixBits;
    Chosen1(Word(x));
    SixAt(Pc2Byte(x, 1));
    Pc2Byte1(x);
    SixEqual(SixBits(Pc2Byte(x, 1)), Choose(Word(x), 1));
  }

  lemma Chosen2(x: Half)
    ensures Choose(x, 2) == [x[22], x[18], x[11], x[3], x[25], x[7]]
  {
  }

  lemma Group2(x: bv32)
    ensures SixBits(Pc2Byte(x, 2)) == Choose(Word(x), 2)
  {
    hide Bit, BitOf, Pc2Byte, Choose, SixBits;
    Chosen2(Word(x));
    SixAt(Pc2Byte(x, 2));
    Pc2Byte2(x);
    SixEqual(SixBits(Pc2Byte(x, 2)), Choose(Word(x), 2));
  }

  lemma Chosen3(x: Half)
    ensures Choose(x, 3) == [x[15], x[6], x[26], x[19], x[12], x[1]]
  {
  }

  lemma Group3(x: bv32)
    ensures SixBits(Pc2Byte(x, 3)) == Choose(Word(x), 3)
  {
    hide Bit, BitOf, Pc2Byte, Choose, SixBits;
    Chosen3(Word(x));
    SixAt(Pc2Byte(x, 3));
    Pc2Byte3(x);
    SixEqual(SixBits(Pc2Byte(x, 3)), Choose(Word(x), 3));
  }

  lemma Chosen4(x: Half)
    ensures Choose(x, 4) == [x[12], x[23], x[2], x[8], x[18], x[26]]
  {
  }

  lemma Group4(x: bv32)
    ensures SixBits(Pc2Byte(x, 4)) == Crowded(Choose(Word(x), 4))
  {
    hide Bit, BitOf, Pc2Byte, Choose, SixBits;
    Chosen4(Word(x));
    SixAt(Pc2Byte(x, 4));
    Pc2Byte4(x);
    SixEqual(SixBits(Pc2Byte(x, 4)), Crowded(Choose(Word(x), 4)));
  }

  lemma Chosen5(x: Half)
    ensures Choose(x, 5) == [x[1], x[11], x[22], x[16], x[4], x[19]]
  {
  }

  lemma Group5(x: bv32)
    ensures SixBits(Pc2Byte(x, 5)) == Crowded(Choose(Word(x), 5))
  {
    hide Bit, BitOf, Pc2Byte, Choose, SixBits;
    Chosen5(Word(x));
    SixAt(Pc2Byte(x, 5));
    Pc2Byte5(x);
    SixEqual(SixBits(Pc2Byte(x, 5)), Crowded(Choose(Word(x), 5)));
  }

  lemma Chosen6(x: Half)
    ensures Choose(x, 6) == [x[15], x[20], x[10], x[27], x[5], x[24]]
  {
  }

  lemma Group6(x: bv32)
    ensures SixBits(Pc2Byte(x, 6)) == Crowded(Choose(Word(x), 6))
  {
    hide Bit, BitOf, Pc2Byte, Choose, SixBits;
    Chosen6(Word(x));
    SixAt(Pc2Byte(x, 6));
    Pc2Byte6(x);
    SixEqual(SixBits(Pc2Byte(x, 6)), Crowded(Choose(Word(x), 6)));
  }

  lemma Chosen7(x: Half)
    ensures Choose(x, 7) == [x[17], x[13], x[21], x[7], x[0], x[3]]
  {
  }

  lemma Group7(x: bv32)
    ensures SixBits(Pc2Byte(x, 7)) == Crowded(Choose(Word(x), 7))
  {
    hide Bit, BitOf, Pc2Byte, Choose, SixBits;
    Chosen7(Word(x));
    SixAt(Pc2Byte(x, 7));
    Pc2Byte7(x);
    SixEqual(SixBits(Pc2Byte(x, 7)), Crowded(Choose(Word(x), 7)));
  }

  lemma Pc2ByteWord(x: bv32, i: nat)
    requires i < 8
    ensures SixBits(Pc2Byte(x, i)) == if i < 4 then Choose(Word(x), i) else Crowded(Choose(Word(x), i))
  {
    hide Word, Pc2Byte, Choose, SixBits, Crowded;
    if i == 0 {
      Group0(x);
    } else if i == 1 {
      Group1(x);
    } else if i == 2 {
      Group2(x);
    } else if i == 3 {
      Group3(x);
    } else if i == 4 {
      Group4(x);
    } else if i == 5 {
      Group5(x);
    } else if i == 6 {
      Group6(x);
    } else {
      Group7(x);
    }
  }

  lemma SixAt(b: bv8)
    ensures SixBits(b)[0] == BitOf(b, 0) && SixBits(b)[1] == BitOf(b, 1) && SixBits(b)[2] == BitOf(b, 2)
    ensures SixBits(b)[3] == BitOf(b, 3) && SixBits(b)[4] == BitOf(b, 4) && SixBits(b)[5] == BitOf(b, 5)
  {
    hide BitOf;
  }

  lemma SixEqual(g: Bits, h: Bits)
    requires |g| == |h| == 6 && g[0] == h[0] && g[1] == h[1] && g[2] == h[2] && g[3] == h[3] && g[4] == h[4] && g[5] == h[5]
    ensures g == h
  {
  }

  /** The eight bytes of a subkey. */
  function Pc2Bytes(c: bv32, d: bv32): Octet {
    [Pc2Byte(c, 0), Pc2Byte(c, 1), Pc2Byte(c, 2), Pc2Byte(c, 3), Pc2Byte(d, 4), Pc2Byte(d, 5), Pc2Byte(d, 6), Pc2Byte(d, 7)]
  }

  lemma Pc2Word(c: bv32, d: bv32)
    ensures GroupsOf(Pc2Bytes(c, d)) == Pc2(Halved(Word(c), Word(d)))
  {
    hide SixBits, Pc2Byte, Choose, Crowded, Word;
    forall i | 0 <= i < 8 ensures GroupsOf(Pc2Bytes(c, d))[i] == Pc2(Halved(Word(c), Word(d)))[i] {
      Pc2ByteWord(c, i);
      Pc2ByteWord(d, i);
    }
  }
}
