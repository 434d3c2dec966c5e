/**
 * One block through the whole of DES, with the key and the plaintext of the unit test: what the build without
 * MUGGLE_CRYPT_OPTIMIZATION makes of it. It is not the ciphertext of FIPS 46-3.
 */
module DesAnswer {
  import opened DesRound
  import opened DesWords
  import opened Des
  import opened DesKey
  import opened DesKeyWords
  import opened DesBlockWords
  import opened DesBytes

  const KEY: Octets := [0x01, 0x23, 0x45, 0x67, 0x89, 0xab, 0xcd, 0xef]
  const PLAIN: Octets := [0x01, 0x23, 0x45, 0x67, 0x89, 0xab, 0xcd, 0xe7]
  const CIPHER: Octets := [0x59, 0x96, 0x4a, 0xe7, 0xf9, 0x60, 0x28, 0x6f]

  /** The halves of the key and of the block between two rounds. */
  datatype State = State(c: bv32, d: bv32, l: bv32, h: bv32)

  /** A turn of the key and a round. */
  function Next(s: State, i: nat): State
    requires i < 16
  {
    var c, d := KeyShift(s.c, Turns[i]), KeyShift(s.d, Turns[i]);
    State(c, d, s.h, XorWord(s.l, F32(s.h, Pc2Bytes(c, d))))
  }

  /** The block from turn `i` on. */
  function Rest(s: State, i: nat): Words
    requires i <= 16
  {
    Rounds32(Schedule32(s.c, s.d, i), s.l, s.h)
  }

  lemma RestNext(s: State, i: nat)
    requires i < 16
    ensures Rest(s, i) == Rest(Next(s, i), i + 1)
  {
    ScheduleFirst(s.c, s.d, i);
    hide KeyShift, Pc2Bytes, F32, XorWord, Schedule32;
    var n := Next(s, i);
    var k, rest := Pc2Bytes(n.c, n.d), Schedule32(n.c, n.d, i + 1);
    assert ([k] + rest)[0] == k && ([k] + rest)[1..] == rest;
  }

  lemma RestNone(s: State)
    ensures Rest(s, 16) == Words(s.l, s.h)
  {
    ScheduleFirst(s.c, s.d, 16);
    hide Schedule32;
  }

  // ------------------------------------------------------------------------- sixteen rounds

  /** A turn of the key and a round, with the subkey spelled out. */
  predicate Moves(i: nat, s: State, k: Octet, n: State)
    requires i < 16
  {
    && n.c == KeyShift(s.c, Turns[i]) && n.d == KeyShift(s.d, Turns[i]) && k == Pc2Bytes(n.c, n.d)
    && n.l == s.h && n.h == XorWord(s.l, F32(s.h, k))
  }

  lemma Keyed(i: nat, s: State, k: Octet, n: State)
    requires i < 16 && Moves(i, s, k, n)
    ensures Next(s, i) == n
  {
    hide KeyShift, Pc2Bytes, F32, XorWord;
  }

  function Trace(i: nat): State {
    if i == 0 then State(0x0f3355ff, 0x00005533, 0x0f550e55, 0x330033ff) else
    if i == 1 then State(0x1e66abff, 0x0000aa66, 0x330033ff, 0x94fdc73d) else
    if i == 2 then State(0x3ccd57ff, 0x000154cc, 0x94fdc73d, 0x08dd5e99) else
    if i == 3 then State(0xf3355fff, 0x00055330, 0x08dd5e99, 0x62195271) else
    if i == 4 then State(0xccd57ffc, 0x00154cc0, 0x62195271, 0xf09f23d0) else
    if i == 5 then State(0x3355fff3, 0x00553300, 0xf09f23d0, 0xabcfb892) else
    if i == 6 then State(0xcd57ffcc, 0x0154cc00, 0xabcfb892, 0xfcb16679) else
    if i == 7 then State(0x355fff33, 0x05533000, 0xfcb16679, 0xd2afdf0c) else
    if i == 8 then State(0xd57ffccd, 0x154cc001, 0xd2afdf0c, 0xaa87aeea) else
    if i == 9 then State(0xaafff99a, 0x2a998002, 0xaa87aeea, 0x6daf1b81) else
    if i == 10 then State(0xabffe66a, 0xaa66000a, 0x6daf1b81, 0x7f5743f0) else
    if i == 11 then State(0xafff99aa, 0xa998002a, 0x7f5743f0, 0xc0662343) else
    if i == 12 then State(0xbffe66ab, 0xa66000aa, 0xc0662343, 0xae55bcff) else
    if i == 13 then State(0xfff99aaf, 0x998002a9, 0xae55bcff, 0x98fe39e1) else
    if i == 14 then State(0xffe66abf, 0x66000aa6, 0x98fe39e1, 0xccfc52c2) else
    if i == 15 then State(0xff99aaff, 0x98002a99, 0xccfc52c2, 0xbdc85199) else
    State(0xff3355ff, 0x30005533, 0xbdc85199, 0x581fab71)
  }

  lemma Step0(s: State, n: State)
    requires s == State(0x0f3355ff, 0x00005533, 0x0f550e55, 0x330033ff)
    requires n == State(0x1e66abff, 0x0000aa66, 0x330033ff, 0x94fdc73d)
    ensures Next(s, 0) == n
  {
    hide Next;
    Keyed(0, s, [0x31, 0x2b, 0x3f, 0x27, 0x04, 0x03, 0x11, 0x02], n);
  }

  lemma Step1(s: State, n: State)
    requires s == State(0x1e66abff, 0x0000aa66, 0x330033ff, 0x94fdc73d)
    requires n == State(0x3ccd57ff, 0x000154cc, 0x94fdc73d, 0x08dd5e99)
    ensures Next(s, 1) == n
  {
    hide Next;
    Keyed(1, s, [0x3e, 0x2f, 0x2b, 0x3e, 0x05, 0x08, 0x04, 0x18], n);
  }

  lemma Step2(s: State, n: State)
    requires s == State(0x3ccd57ff, 0x000154cc, 0x94fdc73d, 0x08dd5e99)
    requires n == State(0xf3355fff, 0x00055330, 0x08dd5e99, 0x62195271)
    ensures Next(s, 2) == n
  {
    hide Next;
    Keyed(2, s, [0x36, 0x3d, 0x3e, 0x32, 0x19, 0x18, 0x10, 0x00], n);
  }

  lemma Step3(s: State, n: State)
    requires s == State(0xf3355fff, 0x00055330, 0x08dd5e99, 0x62195271)
    requires n == State(0xccd57ffc, 0x00154cc0, 0x62195271, 0xf09f23d0)
    ensures Next(s, 3) == n
  {
    hide Next;
    Keyed(3, s, [0x2f, 0x3f, 0x2f, 0x16, 0x10, 0x0a, 0x06, 0x08], n);
  }

  lemma Step4(s: State, n: State)
    requires s == State(0xccd57ffc, 0x00154cc0, 0x62195271, 0xf09f23d0)
    requires n == State(0x3355fff3, 0x00553300, 0xf09f23d0, 0xabcfb892)
    ensures Next(s, 4) == n
  {
    hide Next;
    Keyed(4, s, [0x37, 0x3c, 0x37, 0x33, 0x19, 0x0c, 0x02, 0x02], n);
  }

  lemma Step5(s: State, n: State)
    requires s == State(0x3355fff3, 0x00553300, 0xf09f23d0, 0xabcfb892)
    requires n == State(0xcd57ffcc, 0x0154cc00, 0xabcfb892, 0xfcb16679)
    ensures Next(s, 5) == n
  {
    hide Next;
    Keyed(5, s, [0x07, 0x37, 0x2f, 0x17, 0x10, 0x06, 0x17, 0x00], n);
  }

  lemma Step6(s: State, n: State)
    requires s == State(0xcd57ffcc, 0x0154cc00, 0xabcfb892, 0xfcb16679)
    requires n == State(0x355fff33, 0x05533000, 0xfcb16679, 0xd2afdf0c)
    ensures Next(s, 6) == n
  {
    hide Next;
    Keyed(6, s, [0x37, 0x3c, 0x07, 0x3d, 0x11, 0x0c, 0x12, 0x03], n);
  }

  lemma Step7(s: State, n: State)
    requires s == State(0x355fff33, 0x05533000, 0xfcb16679, 0xd2afdf0c)
    requires n == State(0xd57ffccd, 0x154cc001, 0xd2afdf0c, 0xaa87aeea)
    ensures Next(s, 7) == n
  {
    hide Next;
    Keyed(7, s, [0x17, 0x15, 0x2f, 0x1f, 0x10, 0x14, 0x11, 0x10], n);
  }

  lemma Step8(s: State, n: State)
    requires s == State(0xd57ffccd, 0x154cc001, 0xd2afdf0c, 0xaa87aeea)
    requires n == State(0xaafff99a, 0x2a998002, 0xaa87aeea, 0x6daf1b81)
    ensures Next(s, 8) == n
  {
    hide Next;
    Keyed(8, s, [0x2b, 0x16, 0x3f, 0x39, 0x02, 0x19, 0x0b, 0x00], n);
  }

  lemma Step9(s: State, n: State)
    requires s == State(0xaafff99a, 0x2a998002, 0xaa87aeea, 0x6daf1b81)
    requires n == State(0xabffe66a, 0xaa66000a, 0x6daf1b81, 0x7f5743f0)
    ensures Next(s, 9) == n
  {
    hide Next;
    Keyed(9, s, [0x0f, 0x3e, 0x1b, 0x2b, 0x10, 0x05, 0x08, 0x15], n);
  }

  lemma Step10(s: State, n: State)
    requires s == State(0xabffe66a, 0xaa66000a, 0x6daf1b81, 0x7f5743f0)
    requires n == State(0xafff99aa, 0xa998002a, 0x7f5743f0, 0xc0662343)
    ensures Next(s, 10) == n
  {
    hide Next;
    Keyed(10, s, [0x0a, 0x1a, 0x3f, 0x3d, 0x02, 0x11, 0x1a, 0x10], n);
  }

  lemma Step11(s: State, n: State)
    requires s == State(0xafff99aa, 0xa998002a, 0x7f5743f0, 0xc0662343)
    requires n == State(0xbffe66ab, 0xa66000aa, 0xc0662343, 0xae55bcff)
    ensures Next(s, 11) == n
  {
    hide Next;
    Keyed(11, s, [0x1d, 0x3e, 0x3b, 0x2c, 0x10, 0x05, 0x10, 0x1c], n);
  }

  lemma Step12(s: State, n: State)
    requires s == State(0xbffe66ab, 0xa66000aa, 0xc0662343, 0xae55bcff)
    requires n == State(0xfff99aaf, 0x998002a9, 0xae55bcff, 0x98fe39e1)
    ensures Next(s, 12) == n
  {
    hide Next;
    Keyed(12, s, [0x1a, 0x3b, 0x3d, 0x3d, 0x02, 0x00, 0x18, 0x18], n);
  }

  lemma Step13(s: State, n: State)
    requires s == State(0xfff99aaf, 0x998002a9, 0xae55bcff, 0x98fe39e1)
    requires n == State(0xffe66abf, 0x66000aa6, 0x98fe39e1, 0xccfc52c2)
    ensures Next(s, 13) == n
  {
    hide Next;
    Keyed(13, s, [0x39, 0x2f, 0x3f, 0x24, 0x14, 0x03, 0x10, 0x08], n);
  }

  lemma Step14(s: State, n: State)
    requires s == State(0xffe66abf, 0x66000aa6, 0x98fe39e1, 0xccfc52c2)
    requires n == State(0xff99aaff, 0x98002a99, 0xccfc52c2, 0xbdc85199)
    ensures Next(s, 14) == n
  {
    hide Next;
    Keyed(14, s, [0x3b, 0x3b, 0x3c, 0x2f, 0x00, 0x12, 0x08, 0x1a], n);
  }

  lemma Step15(s: State, n: State)
    requires s == State(0xff99aaff, 0x98002a99, 0xccfc52c2, 0xbdc85199)
    requires n == State(0xff3355ff, 0x30005533, 0xbdc85199, 0x581fab71)
    ensures Next(s, 15) == n
  {
    hide Next;
    Keyed(15, s, [0x36, 0x1f, 0x38, 0x36, 0x09, 0x11, 0x14, 0x10], n);
  }

  lemma TraceNext(i: nat)
    requires i < 16
    ensures Next(Trace(i), i) == Trace(i + 1)
  {
    hide Next;
    var s, n := Trace(i), Trace(i + 1);
    if i == 0 {
      Step0(s, n);
    } else if i == 1 {
      Step1(s, n);
    } else if i == 2 {
      Step2(s, n);
    } else if i == 3 {
      Step3(s, n);
    } else if i == 4 {
      Step4(s, n);
    } else if i == 5 {
      Step5(s, n);
    } else if i == 6 {
      Step6(s, n);
    } else if i == 7 {
      Step7(s, n);
    } else if i == 8 {
      Step8(s, n);
    } else if i == 9 {
      Step9(s, n);
    } else if i == 10 {
      Step10(s, n);
    } else if i == 11 {
      Step11(s, n);
    } else if i == 12 {
      Step12(s, n);
    } else if i == 13 {
      Step13(s, n);
    } else if i == 14 {
      Step14(s, n);
    } else {
      Step15(s, n);
    }
  }

  lemma {:induction false} TraceEnds(i: nat)
    requires i <= 16
    ensures Rest(Trace(i), i) == Words(Trace(16).l, Trace(16).h)
    decreases 16 - i
  {
    hide Next, Trace, Rest;
    if i < 16 {
      TraceNext(i);
      RestNext(Trace(i), i);
      TraceEnds(i + 1);
    } else {
      RestNone(Trace(16));
    }
  }

  // ------------------------------------------------------------------------- the bytes

  lemma Begins(k: Words, p: Words)
    requires k == Words(0x67452301, 0xefcdab89) && p == Words(0x67452301, 0xe7cdab89)
    ensures State(Left(k.lo, k.hi), Right(k.lo, k.hi), IpLow(p.lo, p.hi), IpHigh(p.lo, p.hi)) == Trace(0)
    ensures BytesOf(k.lo, k.hi) == KEY && BytesOf(p.lo, p.hi) == PLAIN
  {
  }

  lemma Ends(s: State)
    requires s == Trace(16)
    ensures BytesOf(FpLow(s.h, s.l), FpHigh(s.h, s.l)) == CIPHER
  {
  }

  lemma Answer32(k: Words, p: Words)
    requires k == Words(0x67452301, 0xefcdab89) && p == Words(0x67452301, 0xe7cdab89)
    ensures var c := Crypt32(Subkeys32(k), p); BytesOf(c.lo, c.hi) == CIPHER
  {
    hide Left, Right, IpLow, IpHigh, FpLow, FpHigh, Schedule32, Rounds32, Trace, BytesOf;
    Begins(k, p);
    TraceEnds(0);
    Ends(Trace(16));
  }

  /** The block that the code makes of the plaintext. */
  lemma KnownAnswer()
    ensures Single(ENCRYPT, Unpack(KEY))(PLAIN) == CIPHER
    ensures CIPHER != [0xc9, 0x57, 0x44, 0x25, 0x6a, 0x5e, 0xd3, 0x1d]
  {
    hide F, Left, Right, IpLow, IpHigh, FpLow, FpHigh, Bits64, Unpack, Pack, Subkeys, Subkeys32, Crypt32, Crypt, GroupsAll,
      BytesOf, Trace;
    var k, p := Words(0x67452301, 0xefcdab89), Words(0x67452301, 0xe7cdab89);
    Begins(k, p);
    Answer32(k, p);
    var c := Crypt32(Subkeys32(k), p);
    UnpackWords(k.lo, k.hi);
    UnpackWords(p.lo, p.hi);
    UnpackWords(c.lo, c.hi);
    SubkeysWord(k);
    CryptWord(Subkeys32(k), p);
    PackUnpack(CIPHER);
  }
}
