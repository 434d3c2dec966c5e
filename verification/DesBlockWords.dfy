/**
 * The block functions of `muggle/c/crypt/des.c` on machine words: the permutations as they move bits, the sixteen rounds
 * and the subkeys of a key. They refine `Des.Crypt` and `DesKey.Subkeys`.
 */
module DesBlockWords {
  import opened Feistel
  import opened DesRound
  import opened DesWords
  import opened Des
  import opened DesKey
  import opened DesKeyWords

  /** The two words of a block, the low one first. */
  datatype Words = Words(lo: bv32, hi: bv32)

  // ------------------------------------------------------------------------- the permutations

  function IpLow(lo: bv32, hi: bv32): bv32 {
    (((hi >> 25) & 1) << 0) | (((hi >> 17) & 1) << 1) | (((hi >> 9) & 1) << 2) | (((hi >> 1) & 1) << 3)
    | (((lo >> 25) & 1) << 4) | (((lo >> 17) & 1) << 5) | (((lo >> 9) & 1) << 6) | (((lo >> 1) & 1) << 7)
    | (((hi >> 27) & 1) << 8) | (((hi >> 19) & 1) << 9) | (((hi >> 11) & 1) << 10) | (((hi >> 3) & 1) << 11)
    | (((lo >> 27) & 1) << 12) | (((lo >> 19) & 1) << 13) | (((lo >> 11) & 1) << 14) | (((lo >> 3) & 1) << 15)
    | (((hi >> 29) & 1) << 16) | (((hi >> 21) & 1) << 17) | (((hi >> 13) & 1) << 18) | (((hi >> 5) & 1) << 19)
    | (((lo >> 29) & 1) << 20) | (((lo >> 21) & 1) << 21) | (((lo >> 13) & 1) << 22) | (((lo >> 5) & 1) << 23)
    | (((hi >> 31) & 1) << 24) | (((hi >> 23) & 1) << 25) | (((hi >> 15) & 1) << 26) | (((hi >> 7) & 1) << 27)
    | (((lo >> 31) & 1) << 28) | (((lo >> 23) & 1) << 29) | (((lo >> 15) & 1) << 30) | (((lo >> 7) & 1) << 31)
  }

  function IpHigh(lo: bv32, hi: bv32): bv32 {
    (((hi >> 24) & 1) << 0) | (((hi >> 16) & 1) << 1) | (((hi >> 8) & 1) << 2) | (((hi >> 0) & 1) << 3)
    | (((lo >> 24) & 1) << 4) | (((lo >> 16) & 1) << 5) | (((lo >> 8) & 1) << 6) | (((lo >> 0) & 1) << 7)
    | (((hi >> 26) & 1) << 8) | (((hi >> 18) & 1) << 9) | (((hi >> 10) & 1) << 10) | (((hi >> 2) & 1) << 11)
    | (((lo >> 26) & 1) << 12) | (((lo >> 18) & 1) << 13) | (((lo >> 10) & 1) << 14) | (((lo >> 2) & 1) << 15)
    | (((hi >> 28) & 1) << 16) | (((hi >> 20) & 1) << 17) | (((hi >> 12) & 1) << 18) | (((hi >> 4) & 1) << 19)
    | (((lo >> 28) & 1) << 20) | (((lo >> 20) & 1) << 21) | (((lo >> 12) & 1) << 22) | (((lo >> 4) & 1) << 23)
    | (((hi >> 30) & 1) << 24) | (((hi >> 22) & 1) << 25) | (((hi >> 14) & 1) << 26) | (((hi >> 6) & 1) << 27)
    | (((lo >> 30) & 1) << 28) | (((lo >> 22) & 1) << 29) | (((lo >> 14) & 1) << 30) | (((lo >> 6) & 1) << 31)
  }

  function FpLow(lo: bv32, hi: bv32): bv32 {
    (((hi >> 7) & 1) << 0) | (((lo >> 7) & 1) << 1) | (((hi >> 15) & 1) << 2) | (((lo >> 15) & 1) << 3)
    | (((hi >> 23) & 1) << 4) | (((lo >> 23) & 1) << 5) | (((hi >> 31) & 1) << 6) | (((lo >> 31) & 1) << 7)
    | (((hi >> 6) & 1) << 8) | (((lo >> 6) & 1) << 9) | (((hi >> 14) & 1) << 10) | (((lo >> 14) & 1) << 11)
    | (((hi >> 22) & 1) << 12) | (((lo >> 22) & 1) << 13) | (((hi >> 30) & 1) << 14) | (((lo >> 30) & 1) << 15)
    | (((hi >> 5) & 1) << 16) | (((lo >> 5) & 1) << 17) | (((hi >> 13) & 1) << 18) | (((lo >> 13) & 1) << 19)
    | (((hi >> 21) & 1) << 20) | (((lo >> 21) & 1) << 21) | (((hi >> 29) & 1) << 22) | (((lo >> 29) & 1) << 23)
    | (((hi >> 4) & 1) << 24) | (((lo >> 4) & 1) << 25) | (((hi >> 12) & 1) << 26) | (((lo >> 12) & 1) << 27)
    | (((hi >> 20) & 1) << 28) | (((lo >> 20) & 1) << 29) | (((hi >> 28) & 1) << 30) | (((lo >> 28) & 1) << 31)
  }

  function FpHigh(lo: bv32, hi: bv32): bv32 {
    (((hi >> 3) & 1) << 0) | (((lo >> 3) & 1) << 1) | (((hi >> 11) & 1) << 2) | (((lo >> 11) & 1) << 3)
    | (((hi >> 19) & 1) << 4) | (((lo >> 19) & 1) << 5) | (((hi >> 27) & 1) << 6) | (((lo >> 27) & 1) << 7)
    | (((hi >> 2) & 1) << 8) | (((lo >> 2) & 1) << 9) | (((hi >> 10) & 1) << 10) | (((lo >> 10) & 1) << 11)
    | (((hi >> 18) & 1) << 12) | (((lo >> 18) & 1) << 13) | (((hi >> 26) & 1) << 14) | (((lo >> 26) & 1) << 15)
    | (((hi >> 1) & 1) << 16) | (((lo >> 1) & 1) << 17) | (((hi >> 9) & 1) << 18) | (((lo >> 9) & 1) << 19)
    | (((hi >> 17) & 1) << 20) | (((lo >> 17) & 1) << 21) | (((hi >> 25) & 1) << 22) | (((lo >> 25) & 1) << 23)
    | (((hi >> 0) & 1) << 24) | (((lo >> 0) & 1) << 25) | (((hi >> 8) & 1) << 26) | (((lo >> 8) & 1) << 27)
    | (((hi >> 16) & 1) << 28) | (((lo >> 16) & 1) << 29) | (((hi >> 24) & 1) << 30) | (((lo >> 24) & 1) << 31)
  }

  lemma IpLow0(lo: bv32, hi: bv32)
    ensures Bit(IpLow(lo, hi), 0) == Bit(hi, 25) && Bit(IpLow(lo, hi), 1) == Bit(hi, 17)
    ensures Bit(IpLow(lo, hi), 2) == Bit(hi, 9) && Bit(IpLow(lo, hi), 3) == Bit(hi, 1)
    ensures Bit(IpLow(lo, hi), 4) == Bit(lo, 25) && Bit(IpLow(lo, hi), 5) == Bit(lo, 17)
    ensures Bit(IpLow(lo, hi), 6) == Bit(lo, 9) && Bit(IpLow(lo, hi), 7) == Bit(lo, 1)
  {
  }

  lemma IpLow1(lo: bv32, hi: bv32)
    ensures Bit(IpLow(lo, hi), 8) == Bit(hi, 27) && Bit(IpLow(lo, hi), 9) == Bit(hi, 19)
    ensures Bit(IpLow(lo, hi), 10) == Bit(hi, 11) && Bit(IpLow(lo, hi), 11) == Bit(hi, 3)
    ensures Bit(IpLow(lo, hi), 12) == Bit(lo, 27) && Bit(IpLow(lo, hi), 13) == Bit(lo, 19)
    ensures Bit(IpLow(lo, hi), 14) == Bit(lo, 11) && Bit(IpLow(lo, hi), 15) == Bit(lo, 3)
  {
  }

  lemma IpLow2(lo: bv32, hi: bv32)
    ensures Bit(IpLow(lo, hi), 16) == Bit(hi, 29) && Bit(IpLow(lo, hi), 17) == Bit(hi, 21)
    ensures Bit(IpLow(lo, hi), 18) == Bit(hi, 13) && Bit(IpLow(lo, hi), 19) == Bit(hi, 5)
    ensures Bit(IpLow(lo, hi), 20) == Bit(lo, 29) && Bit(IpLow(lo, hi), 21) == Bit(lo, 21)
    ensures Bit(IpLow(lo, hi), 22) == Bit(lo, 13) && Bit(IpLow(lo, hi), 23) == Bit(lo, 5)
  {
  }

  lemma IpLow3(lo: bv32, hi: bv32)
    ensures Bit(IpLow(lo, hi), 24) == Bit(hi, 31) && Bit(IpLow(lo, hi), 25) == Bit(hi, 23)
    ensures Bit(IpLow(lo, hi), 26) == Bit(hi, 15) && Bit(IpLow(lo, hi), 27) == Bit(hi, 7)
    ensures Bit(IpLow(lo, hi), 28) == Bit(lo, 31) && Bit(IpLow(lo, hi), 29) == Bit(lo, 23)
    ensures Bit(IpLow(lo, hi), 30) == Bit(lo, 15) && Bit(IpLow(lo, hi), 31) == Bit(lo, 7)
  {
  }

  lemma IpHigh0(lo: bv32, hi: bv32)
    ensures Bit(IpHigh(lo, hi), 0) == Bit(hi, 24) && Bit(IpHigh(lo, hi), 1) == Bit(hi, 16)
    ensures Bit(IpHigh(lo, hi), 2) == Bit(hi, 8) && Bit(IpHigh(lo, hi), 3) == Bit(hi, 0)
    ensures Bit(IpHigh(lo, hi), 4) == Bit(lo, 24) && Bit(IpHigh(lo, hi), 5) == Bit(lo, 16)
    ensures Bit(IpHigh(lo, hi), 6) == Bit(lo, 8) && Bit(IpHigh(lo, hi), 7) == Bit(lo, 0)
  {
  }

  lemma IpHigh1(lo: bv32, hi: bv32)
    ensures Bit(IpHigh(lo, hi), 8) == Bit(hi, 26) && Bit(IpHigh(lo, hi), 9) == Bit(hi, 18)
    ensures Bit(IpHigh(lo, hi), 10) == Bit(hi, 10) && Bit(IpHigh(lo, hi), 11) == Bit(hi, 2)
    ensures Bit(IpHigh(lo, hi), 12) == Bit(lo, 26) && Bit(IpHigh(lo, hi), 13) == Bit(lo, 18)
    ensures Bit(IpHigh(lo, hi), 14) == Bit(lo, 10) && Bit(IpHigh(lo, hi), 15) == Bit(lo, 2)
  {
  }

  lemma IpHigh2(lo: bv32, hi: bv32)
    ensures Bit(IpHigh(lo, hi), 16) == Bit(hi, 28) && Bit(IpHigh(lo, hi), 17) == Bit(hi, 20)
    ensures Bit(IpHigh(lo, hi), 18) == Bit(hi, 12) && Bit(IpHigh(lo, hi), 19) == Bit(hi, 4)
    ensures Bit(IpHigh(lo, hi), 20) == Bit(lo, 28) && Bit(IpHigh(lo, hi), 21) == Bit(lo, 20)
    ensures Bit(IpHigh(lo, hi), 22) == Bit(lo, 12) && Bit(IpHigh(lo, hi), 23) == Bit(lo, 4)
  {
  }

  lemma IpHigh3(lo: bv32, hi: bv32)
    ensures Bit(IpHigh(lo, hi), 24) == Bit(hi, 30) && Bit(IpHigh(lo, hi), 25) == Bit(hi, 22)
    ensures Bit(IpHigh(lo, hi), 26) == Bit(hi, 14) && Bit(IpHigh(lo, hi), 27) == Bit(hi, 6)
    ensures Bit(IpHigh(lo, hi), 28) == Bit(lo, 30) && Bit(IpHigh(lo, hi), 29) == Bit(lo, 22)
    ensures Bit(IpHigh(lo, hi), 30) == Bit(lo, 14) && Bit(IpHigh(lo, hi), 31) == Bit(lo, 6)
  {
  }

  lemma FpLow0(lo: bv32, hi: bv32)
    ensures Bit(FpLow(lo, hi), 0) == Bit(hi, 7) && Bit(FpLow(lo, hi), 1) == Bit(lo, 7)
    ensures Bit(FpLow(lo, hi), 2) == Bit(hi, 15) && Bit(FpLow(lo, hi), 3) == Bit(lo, 15)
    ensures Bit(FpLow(lo, hi), 4) == Bit(hi, 23) && Bit(FpLow(lo, hi), 5) == Bit(lo, 23)
    ensures Bit(FpLow(lo, hi), 6) == Bit(hi, 31) && Bit(FpLow(lo, hi), 7) == Bit(lo, 31)
  {
  }

  lemma FpLow1(lo: bv32, hi: bv32)
    ensures Bit(FpLow(lo, hi), 8) == Bit(hi, 6) && Bit(FpLow(lo, hi), 9) == Bit(lo, 6)
    ensures Bit(FpLow(lo, hi), 10) == Bit(hi, 14) && Bit(FpLow(lo, hi), 11) == Bit(lo, 14)
    ensures Bit(FpLow(lo, hi), 12) == Bit(hi, 22) && Bit(FpLow(lo, hi), 13) == Bit(lo, 22)
    ensures Bit(FpLow(lo, hi), 14) == Bit(hi, 30) && Bit(FpLow(lo, hi), 15) == Bit(lo, 30)
  {
  }

  lemma FpLow2(lo: bv32, hi: bv32)
    ensures Bit(FpLow(lo, hi), 16) == Bit(hi, 5) && Bit(FpLow(lo, hi), 17) == Bit(lo, 5)
    ensures Bit(FpLow(lo, hi), 18) == Bit(hi, 13) && Bit(FpLow(lo, hi), 19) == Bit(lo, 13)
    ensures Bit(FpLow(lo, hi), 20) == Bit(hi, 21) && Bit(FpLow(lo, hi), 21) == Bit(lo, 21)
    ensures Bit(FpLow(lo, hi), 22) == Bit(hi, 29) && Bit(FpLow(lo, hi), 23) == Bit(lo, 29)
  {
  }

  lemma FpLow3(lo: bv32, hi: bv32)
    ensures Bit(FpLow(lo, hi), 24) == Bit(hi, 4) && Bit(FpLow(lo, hi), 25) == Bit(lo, 4)
    ensures Bit(FpLow(lo, hi), 26) == Bit(hi, 12) && Bit(FpLow(lo, hi), 27) == Bit(lo, 12)
    ensures Bit(FpLow(lo, hi), 28) == Bit(hi, 20) && Bit(FpLow(lo, hi), 29) == Bit(lo, 20)
    ensures Bit(FpLow(lo, hi), 30) == Bit(hi, 28) && Bit(FpLow(lo, hi), 31) == Bit(lo, 28)
  {
  }

  lemma FpHigh0(lo: bv32, hi: bv32)
    ensures Bit(FpHigh(lo, hi), 0) == Bit(hi, 3) && Bit(FpHigh(lo, hi), 1) == Bit(lo, 3)
    ensures Bit(FpHigh(lo, hi), 2) == Bit(hi, 11) && Bit(FpHigh(lo, hi), 3) == Bit(lo, 11)
    ensures Bit(FpHigh(lo, hi), 4) == Bit(hi, 19) && Bit(FpHigh(lo, hi), 5) == Bit(lo, 19)
    ensures Bit(FpHigh(lo, hi), 6) == Bit(hi, 27) && Bit(FpHigh(lo, hi), 7) == Bit(lo, 27)
  {
  }

  lemma FpHigh1(lo: bv32, hi: bv32)
    ensures Bit(FpHigh(lo, hi), 8) == Bit(hi, 2) && Bit(FpHigh(lo, hi), 9) == Bit(lo, 2)
    ensures Bit(FpHigh(lo, hi), 10) == Bit(hi, 10) && Bit(FpHigh(lo, hi), 11) == Bit(lo, 10)
    ensures Bit(FpHigh(lo, hi), 12) == Bit(hi, 18) && Bit(FpHigh(lo, hi), 13) == Bit(lo, 18)
    ensures Bit(FpHigh(lo, hi), 14) == Bit(hi, 26) && Bit(FpHigh(lo, hi), 15) == Bit(lo, 26)
  {
  }

  lemma FpHigh2(lo: bv32, hi: bv32)
    ensures Bit(FpHigh(lo, hi), 16) == Bit(hi, 1) && Bit(FpHigh(lo, hi), 17) == Bit(lo, 1)
    ensures Bit(FpHigh(lo, hi), 18) == Bit(hi, 9) && Bit(FpHigh(lo, hi), 19) == Bit(lo, 9)
    ensures Bit(FpHigh(lo, hi), 20) == Bit(hi, 17) && Bit(FpHigh(lo, hi), 21) == Bit(lo, 17)
    ensures Bit(FpHigh(lo, hi), 22) == Bit(hi, 25) && Bit(FpHigh(lo, hi), 23) == Bit(lo, 25)
  {
  }

  lemma FpHigh3(lo: bv32, hi: bv32)
    ensures Bit(FpHigh(lo, hi), 24) == Bit(hi, 0) && Bit(FpHigh(lo, hi), 25) == Bit(lo, 0)
    ensures Bit(FpHigh(lo, hi), 26) == Bit(hi, 8) && Bit(FpHigh(lo, hi), 27) == Bit(lo, 8)
    ensures Bit(FpHigh(lo, hi), 28) == Bit(hi, 16) && Bit(FpHigh(lo, hi), 29) == Bit(lo, 16)
    ensures Bit(FpHigh(lo, hi), 30) == Bit(hi, 24) && Bit(FpHigh(lo, hi), 31) == Bit(lo, 24)
  {
  }

  lemma IpLowTable0(t: nat)
    requires 0 <= t < 8
    ensures (t == 0 ==> IpSource(t) == 57) && (t == 1 ==> IpSource(t) == 49) && (t == 2 ==> IpSource(t) == 41) && (t == 3 ==> IpSource(t) == 33)
    ensures (t == 4 ==> IpSource(t) == 25) && (t == 5 ==> IpSource(t) == 17) && (t == 6 ==> IpSource(t) == 9) && (t == 7 ==> IpSource(t) == 1)
  {
  }

  lemma IpLowTable1(t: nat)
    requires 8 <= t < 16
    ensures (t == 8 ==> IpSource(t) == 59) && (t == 9 ==> IpSource(t) == 51) && (t == 10 ==> IpSource(t) == 43) && (t == 11 ==> IpSource(t) == 35)
    ensures (t == 12 ==> IpSource(t) == 27) && (t == 13 ==> IpSource(t) == 19) && (t == 14 ==> IpSource(t) == 11) && (t == 15 ==> IpSource(t) == 3)
  {
  }

  lemma IpLowTable2(t: nat)
    requires 16 <= t < 24
    ensures (t == 16 ==> IpSource(t) == 61) && (t == 17 ==> IpSource(t) == 53) && (t == 18 ==> IpSource(t) == 45) && (t == 19 ==> IpSource(t) == 37)
    ensures (t == 20 ==> IpSource(t) == 29) && (t == 21 ==> IpSource(t) == 21) && (t == 22 ==> IpSource(t) == 13) && (t == 23 ==> IpSource(t) == 5)
  {
  }

  lemma IpLowTable3(t: nat)
    requires 24 <= t < 32
    ensures (t == 24 ==> IpSource(t) == 63) && (t == 25 ==> IpSource(t) == 55) && (t == 26 ==> IpSource(t) == 47) && (t == 27 ==> IpSource(t) == 39)
    ensures (t == 28 ==> IpSource(t) == 31) && (t == 29 ==> IpSource(t) == 23) && (t == 30 ==> IpSource(t) == 15) && (t == 31 ==> IpSource(t) == 7)
  {
  }

  lemma IpLowAt(lo: bv32, hi: bv32, t: nat)
    requires t < 32
    ensures Bit(IpLow(lo, hi), t) == Bits64(lo, hi)[IpSource(t)]
  {
    hide Bit, IpLow, Bits64, IpSource;
    Bits64At(lo, hi, IpSource(t));
    if t < 8 {
      IpLowTable0(t);
      IpLow0(lo, hi);
    } else if t < 16 {
      IpLowTable1(t);
      IpLow1(lo, hi);
    } else if t < 24 {
      IpLowTable2(t);
      IpLow2(lo, hi);
    } else {
      IpLowTable3(t);
      IpLow3(lo, hi);
    }
  }

  lemma IpHighTable0(t: nat)
    requires 0 <= t < 8
    ensures (t == 0 ==> IpSource(32 + t) == 56) && (t == 1 ==> IpSource(32 + t) == 48) && (t == 2 ==> IpSource(32 + t) == 40) && (t == 3 ==> IpSource(32 + t) == 32)
    ensures (t == 4 ==> IpSource(32 + t) == 24) && (t == 5 ==> IpSource(32 + t) == 16) && (t == 6 ==> IpSource(32 + t) == 8) && (t == 7 ==> IpSource(32 + t) == 0)
  {
  }

  lemma IpHighTable1(t: nat)
    requires 8 <= t < 16
    ensures (t == 8 ==> IpSource(32 + t) == 58) && (t == 9 ==> IpSource(32 + t) == 50) && (t == 10 ==> IpSource(32 + t) == 42) && (t == 11 ==> IpSource(32 + t) == 34)
    ensures (t == 12 ==> IpSource(32 + t) == 26) && (t == 13 ==> IpSource(32 + t) == 18) && (t == 14 ==> IpSource(32 + t) == 10) && (t == 15 ==> IpSource(32 + t) == 2)
  {
  }

  lemma IpHighTable2(t: nat)
    requires 16 <= t < 24
    ensures (t == 16 ==> IpSource(32 + t) == 60) && (t == 17 ==> IpSource(32 + t) == 52) && (t == 18 ==> IpSource(32 + t) == 44) && (t == 19 ==> IpSource(32 + t) == 36)
    ensures (t == 20 ==> IpSource(32 + t) == 28) && (t == 21 ==> IpSource(32 + t) == 20) && (t == 22 ==> IpSource(32 + t) == 12) && (t == 23 ==> IpSource(32 + t) == 4)
  {
  }

  lemma IpHighTable3(t: nat)
    requires 24 <= t < 32
    ensures (t == 24 ==> IpSource(32 + t) == 62) && (t == 25 ==> IpSource(32 + t) == 54) && (t == 26 ==> IpSource(32 + t) == 46) && (t == 27 ==> IpSource(32 + t) == 38)
    ensures (t == 28 ==> IpSource(32 + t) == 30) && (t == 29 ==> IpSource(32 + t) == 22) && (t == 30 ==> IpSource(32 + t) == 14) && (t == 31 ==> IpSource(32 + t) == 6)
  {
  }

  lemma IpHighAt(lo: bv32, hi: bv32, t: nat)
    requires t < 32
    ensures Bit(IpHigh(lo, hi), t) == Bits64(lo, hi)[IpSource(32 + t)]
  {
    hide Bit, IpHigh, Bits64, IpSource;
    Bits64At(lo, hi, IpSource(32 + t));
    if t < 8 {
      IpHighTable0(t);
      IpHigh0(lo, hi);
    } else if t < 16 {
      IpHighTable1(t);
      IpHigh1(lo, hi);
    } else if t < 24 {
      IpHighTable2(t);
      IpHigh2(lo, hi);
    } else {
      IpHighTable3(t);
      IpHigh3(lo, hi);
    }
  }

  lemma FpLowTable0(t: nat)
    requires 0 <= t < 8
    ensures (t == 0 ==> FpSource(t) == 39) && (t == 1 ==> FpSource(t) == 7) && (t == 2 ==> FpSource(t) == 47) && (t == 3 ==> FpSource(t) == 15)
    ensures (t == 4 ==> FpSource(t) == 55) && (t == 5 ==> FpSource(t) == 23) && (t == 6 ==> FpSource(t) == 63) && (t == 7 ==> FpSource(t) == 31)
  {
  }

  lemma FpLowTable1(t: nat)
    requires 8 <= t < 16
    ensures (t == 8 ==> FpSource(t) == 38) && (t == 9 ==> FpSource(t) == 6) && (t == 10 ==> FpSource(t) == 46) && (t == 11 ==> FpSource(t) == 14)
    ensures (t == 12 ==> FpSource(t) == 54) && (t == 13 ==> FpSource(t) == 22) && (t == 14 ==> FpSource(t) == 62) && (t == 15 ==> FpSource(t) == 30)
  {
  }

  lemma FpLowTable2(t: nat)
    requires 16 <= t < 24
    ensures (t == 16 ==> FpSource(t) == 37) && (t == 17 ==> FpSource(t) == 5) && (t == 18 ==> FpSource(t) == 45) && (t == 19 ==> FpSource(t) == 13)
    ensures (t == 20 ==> FpSource(t) == 53) && (t == 21 ==> FpSource(t) == 21) && (t == 22 ==> FpSource(t) == 61) && (t == 23 ==> FpSource(t) == 29)
  {
  }

  lemma FpLowTable3(t: nat)
    requires 24 <= t < 32
    ensures (t == 24 ==> FpSource(t) == 36) && (t == 25 ==> FpSource(t) == 4) && (t == 26 ==> FpSource(t) == 44) && (t == 27 ==> FpSource(t) == 12)
    ensures (t == 28 ==> FpSource(t) == 52) && (t == 29 ==> FpSource(t) == 20) && (t == 30 ==> FpSource(t) == 60) && (t == 31 ==> FpSource(t) == 28)
  {
  }

  lemma FpLowAt(lo: bv32, hi: bv32, t: nat)
    requires t < 32
    ensures Bit(FpLow(lo, hi), t) == Bits64(lo, hi)[FpSource(t)]
  {
    hide Bit, FpLow, Bits64, FpSource;
    Bits64At(lo, hi, FpSource(t));
    if t < 8 {
      FpLowTable0(t);
      FpLow0(lo, hi);
    } else if t < 16 {
      FpLowTable1(t);
      FpLow1(lo, hi);
    } else if t < 24 {
      FpLowTable2(t);
      FpLow2(lo, hi);
    } else {
      FpLowTable3(t);
      FpLow3(lo, hi);
    }
  }

  lemma FpHighTable0(t: nat)
    requires 0 <= t < 8
    ensures (t == 0 ==> FpSource(32 + t) == 35) && (t == 1 ==> FpSource(32 + t) == 3) && (t == 2 ==> FpSource(32 + t) == 43) && (t == 3 ==> FpSource(32 + t) == 11)
    ensures (t == 4 ==> FpSource(32 + t) == 51) && (t == 5 ==> FpSource(32 + t) == 19) && (t == 6 ==> FpSource(32 + t) == 59) && (t == 7 ==> FpSource(32 + t) == 27)
  {
  }

  lemma FpHighTable1(t: nat)
    requires 8 <= t < 16
    ensures (t == 8 ==> FpSource(32 + t) == 34) && (t == 9 ==> FpSource(32 + t) == 2) && (t == 10 ==> FpSource(32 + t) == 42) && (t == 11 ==> FpSource(32 + t) == 10)
    ensures (t == 12 ==> FpSource(32 + t) == 50) && (t == 13 ==> FpSource(32 + t) == 18) && (t == 14 ==> FpSource(32 + t) == 58) && (t == 15 ==> FpSource(32 + t) == 26)
  {
  }

  lemma FpHighTable2(t: nat)
    requires 16 <= t < 24
    ensures (t == 16 ==> FpSource(32 + t) == 33) && (t == 17 ==> FpSource(32 + t) == 1) && (t == 18 ==> FpSource(32 + t) == 41) && (t == 19 ==> FpSource(32 + t) == 9)
    ensures (t == 20 ==> FpSource(32 + t) == 49) && (t == 21 ==> FpSource(32 + t) == 17) && (t == 22 ==> FpSource(32 + t) == 57) && (t == 23 ==> FpSource(32 + t) == 25)
  {
  }

  lemma FpHighTable3(t: nat)
    requires 24 <= t < 32
    ensures (t == 24 ==> FpSource(32 + t) == 32) && (t == 25 ==> FpSource(32 + t) == 0) && (t == 26 ==> FpSource(32 + t) == 40) && (t == 27 ==> FpSource(32 + t) == 8)
    ensures (t == 28 ==> FpSource(32 + t) == 48) && (t == 29 ==> FpSource(32 + t) == 16) && (t == 30 ==> FpSource(32 + t) == 56) && (t == 31 ==> FpSource(32 + t) == 24)
  {
  }

  lemma FpHighAt(lo: bv32, hi: bv32, t: nat)
    requires t < 32
    ensures Bit(FpHigh(lo, hi), t) == Bits64(lo, hi)[FpSource(32 + t)]
  {
    hide Bit, FpHigh, Bits64, FpSource;
    Bits64At(lo, hi, FpSource(32 + t));
    if t < 8 {
      FpHighTable0(t);
      FpHigh0(lo, hi);
    } else if t < 16 {
      FpHighTable1(t);
      FpHigh1(lo, hi);
    } else if t < 24 {
      FpHighTable2(t);
      FpHigh2(lo, hi);
    } else {
      FpHighTable3(t);
      FpHigh3(lo, hi);
    }
  }

  lemma IpWord(lo: bv32, hi: bv32)
    ensures Ip(Bits64(lo, hi)) == Bits64(IpLow(lo, hi), IpHigh(lo, hi))
  {
    hide Bit, Bits64, IpLow, IpHigh, IpSource;
    forall t | 0 <= t < 64 ensures Ip(Bits64(lo, hi))[t] == Bits64(IpLow(lo, hi), IpHigh(lo, hi))[t] {
      Bits64At(IpLow(lo, hi), IpHigh(lo, hi), t);
      if t < 32 {
        IpLowAt(lo, hi, t);
      } else {
        IpHighAt(lo, hi, t - 32);
      }
    }
  }

  lemma FpWord(lo: bv32, hi: bv32)
    ensures Fp(Bits64(lo, hi)) == Bits64(FpLow(lo, hi), FpHigh(lo, hi))
  {
    hide Bit, Bits64, FpLow, FpHigh, FpSource;
    forall t | 0 <= t < 64 ensures Fp(Bits64(lo, hi))[t] == Bits64(FpLow(lo, hi), FpHigh(lo, hi))[t] {
      Bits64At(FpLow(lo, hi), FpHigh(lo, hi), t);
      if t < 32 {
        FpLowAt(lo, hi, t);
      } else {
        FpHighAt(lo, hi, t - 32);
      }
    }
  }

  // ------------------------------------------------------------------------- the rounds

  function GroupsAll(ks: seq<Octet>): (g: seq<Groups>)
    ensures |g| == |ks|
  {
    seq(|ks|, i requires 0 <= i < |ks| => GroupsOf(ks[i]))
  }

  function Rounds32(ks: seq<Octet>, l: bv32, h: bv32): Words
    decreases |ks|
  {
    if ks == [] then Words(l, h) else Rounds32(ks[1..], h, XorWord(l, F32(h, ks[0])))
  }

  lemma RoundWord(k: Octet, l: bv32, h: bv32)
    ensures Proper(F) && Round(F, GroupsOf(k), Pair(Word(l), Word(h))) == Pair(Word(h), Word(XorWord(l, F32(h, k))))
  {
    hide F, Word, GroupsOf, F32, XorWord;
    ProperF();
    FWord(h, k);
    WordsXor(l, F32(h, k));
  }

  lemma {:induction false} RoundsWord(ks: seq<Octet>, l: bv32, h: bv32)
    ensures Proper(F)
    ensures var r := Rounds32(ks, l, h);
      Rounds(F, GroupsAll(ks), Pair(Word(l), Word(h))) == Pair(Word(r.lo), Word(r.hi))
    decreases |ks|
  {
    hide F, Word, GroupsOf, F32, XorWord, Proper, Round;
    ProperF();
    if ks != [] {
      assert GroupsAll(ks)[0] == GroupsOf(ks[0]) && GroupsAll(ks)[1..] == GroupsAll(ks[1..]);
      RoundWord(ks[0], l, h);
      RoundsWord(ks[1..], h, XorWord(l, F32(h, ks[0])));
    }
  }

  /** `muggle_des_crypt`: the halves change places before the final permutation. */
  function Crypt32(ks: seq<Octet>, b: Words): Words {
    var r := Rounds32(ks, IpLow(b.lo, b.hi), IpHigh(b.lo, b.hi));
    Words(FpLow(r.hi, r.lo), FpHigh(r.hi, r.lo))
  }

  lemma HalvesWord(lo: bv32, hi: bv32)
    ensures Halves(Bits64(lo, hi)) == Pair(Word(lo), Word(hi)) && Join(Pair(Word(lo), Word(hi))) == Bits64(lo, hi)
  {
    hide Bit;
  }

  /** The block function on words is the one on bits. */
  lemma CryptWord(ks: seq<Octet>, b: Words)
    ensures Proper(F)
    ensures var c := Crypt32(ks, b); Crypt(F, GroupsAll(ks), Bits64(b.lo, b.hi)) == Bits64(c.lo, c.hi)
  {
    hide F, Word, Rounds32, Rounds, Bits64, IpLow, IpHigh, FpLow, FpHigh, Ip, Fp, Halves, Join, Proper, GroupsAll;
    ProperF();
    var l, h := IpLow(b.lo, b.hi), IpHigh(b.lo, b.hi);
    IpWord(b.lo, b.hi);
    HalvesWord(l, h);
    RoundsWord(ks, l, h);
    var r := Rounds32(ks, l, h);
    HalvesWord(r.hi, r.lo);
    FpWord(r.hi, r.lo);
  }

  // ------------------------------------------------------------------------- the subkeys

  /** The subkeys from turn `i` on, of two halves. */
  function Schedule32(c: bv32, d: bv32, i: nat): (ks: seq<Octet>)
    requires i <= 16
    ensures |ks| == 16 - i
    decreases 16 - i
  {
    if i == 16 then []
    else
      var c', d' := KeyShift(c, Turns[i]), KeyShift(d, Turns[i]);
      [Pc2Bytes(c', d')] + Schedule32(c', d', i + 1)
  }

  lemma TurnWord(c: bv32, d: bv32, i: nat)
    requires i < 16
    ensures Turn(Halved(Word(c), Word(d)), i) == Halved(Word(KeyShift(c, Turns[i])), Word(KeyShift(d, Turns[i])))
  {
    hide Word, KeyShift, Shifted;
    ShiftWord(c, Turns[i]);
    ShiftWord(d, Turns[i]);
  }

  lemma {:induction false} ScheduleWord(c: bv32, d: bv32, i: nat)
    requires i <= 16
    ensures GroupsAll(Schedule32(c, d, i)) == Schedule(Turn, Pc2, Halved(Word(c), Word(d)), i, 16)
    decreases 16 - i
  {
    ScheduleFirst(c, d, i);
    hide Word, KeyShift, Turn, Pc2, Pc2Bytes, GroupsOf, GroupsAll, Schedule32;
    if i < 16 {
      var c', d' := KeyShift(c, Turns[i]), KeyShift(d, Turns[i]);
      TurnWord(c, d, i);
      Pc2Word(c', d');
      ScheduleWord(c', d', i + 1);
      GroupsFirst(Pc2Bytes(c', d'), Schedule32(c', d', i + 1));
    } else {
      GroupsNone();
    }
  }

  lemma ScheduleFirst(c: bv32, d: bv32, i: nat)
    requires i <= 16
    ensures i == 16 ==> Schedule32(c, d, i) == []
    ensures i < 16 ==>
      var c', d' := KeyShift(c, Turns[i]), KeyShift(d, Turns[i]);
      Schedule32(c, d, i) == [Pc2Bytes(c', d')] + Schedule32(c', d', i + 1)
  {
    hide KeyShift, Pc2Bytes;
  }

  lemma GroupsNone()
    ensures GroupsAll([]) == []
  {
  }

  lemma GroupsFirst(k: Octet, rest: seq<Octet>)
    ensures GroupsAll([k] + rest) == [GroupsOf(k)] + GroupsAll(rest)
  {
    hide GroupsOf;
  }

  function Subkeys32(key: Words): (ks: seq<Octet>)
    ensures |ks| == 16
  {
    Schedule32(Left(key.lo, key.hi), Right(key.lo, key.hi), 0)
  }

  /** The subkeys on words are those on bits. */
  lemma SubkeysWord(key: Words)
    ensures GroupsAll(Subkeys32(key)) == Subkeys(Bits64(key.lo, key.hi))
  {
    hide Word, Left, Right, Schedule32, Schedule, Bits64, Turn, Pc2, GroupsAll, Pc1;
    LeftWord(key.lo, key.hi);
    RightWord(key.lo, key.hi);
    ScheduleWord(Left(key.lo, key.hi), Right(key.lo, key.hi), 0);
  }
}
