/**
 * The substitution boxes of DES as `muggle/c/crypt/internal/internal_des.c` writes them, in decimal and in one line of 64
 * entries each, against the rows of `DesRound`; and that every row is a permutation.
 */
module DesBoxes {
  import opened DesRound

  /** Sixteen entries of table `i`, from entry 16r on. */
  function Line(i: nat, r: nat): (s: seq<bv64>)
    requires i < 8 && r < 4
    ensures |s| == 16
  {
    if i == 0 && r == 0 then [14, 4, 13, 1, 2, 15, 11, 8, 3, 10, 6, 12, 5, 9, 0, 7]
    else if i == 0 && r == 1 then [0, 15, 7, 4, 14, 2, 13, 1, 10, 6, 12, 11, 9, 5, 3, 8]
    else if i == 0 && r == 2 then [4, 1, 14, 8, 13, 6, 2, 11, 15, 12, 9, 7, 3, 10, 5, 0]
    else if i == 0 && r == 3 then [15, 12, 8, 2, 4, 9, 1, 7, 5, 11, 3, 14, 10, 0, 6, 13]
    else if i == 1 && r == 0 then [15, 1, 8, 14, 6, 11, 3, 4, 9, 7, 2, 13, 12, 0, 5, 10]
    else if i == 1 && r == 1 then [3, 13, 4, 7, 15, 2, 8, 14, 12, 0, 1, 10, 6, 9, 11, 5]
    else if i == 1 && r == 2 then [0, 14, 7, 11, 10, 4, 13, 1, 5, 8, 12, 6, 9, 3, 2, 15]
    else if i == 1 && r == 3 then [13, 8, 10, 1, 3, 15, 4, 2, 11, 6, 7, 12, 0, 5, 14, 9]
    else if i == 2 && r == 0 then [10, 0, 9, 14, 6, 3, 15, 5, 1, 13, 12, 7, 11, 4, 2, 8]
    else if i == 2 && r == 1 then [13, 7, 0, 9, 3, 4, 6, 10, 2, 8, 5, 14, 12, 11, 15, 1]
    else if i == 2 && r == 2 then [13, 6, 4, 9, 8, 15, 3, 0, 11, 1, 2, 12, 5, 10, 14, 7]
    else if i == 2 && r == 3 then [1, 10, 13, 0, 6, 9, 8, 7, 4, 15, 14, 3, 11, 5, 2, 12]
    else if i == 3 && r == 0 then [7, 13, 14, 3, 0, 6, 9, 10, 1, 2, 8, 5, 11, 12, 4, 15]
    else if i == 3 && r == 1 then [13, 8, 11, 5, 6, 15, 0, 3, 4, 7, 2, 12, 1, 10, 14, 9]
    else if i == 3 && r == 2 then [10, 6, 9, 0, 12, 11, 7, 13, 15, 1, 3, 14, 5, 2, 8, 4]
    else if i == 3 && r == 3 then [3, 15, 0, 6, 10, 1, 13, 8, 9, 4, 5, 11, 12, 7, 2, 14]
    else if i == 4 && r == 0 then [2, 12, 4, 1, 7, 10, 11, 6, 8, 5, 3, 15, 13, 0, 14, 9]
    else if i == 4 && r == 1 then [14, 11, 2, 12, 4, 7, 13, 1, 5, 0, 15, 10, 3, 9, 8, 6]
    else if i == 4 && r == 2 then [4, 2, 1, 11, 10, 13, 7, 8, 15, 9, 12, 5, 6, 3, 0, 14]
    else if i == 4 && r == 3 then [11, 8, 12, 7, 1, 14, 2, 13, 6, 15, 0, 9, 10, 4, 5, 3]
    else if i == 5 && r == 0 then [12, 1, 10, 15, 9, 2, 6, 8, 0, 13, 3, 4, 14, 7, 5, 11]
    else if i == 5 && r == 1 then [10, 15, 4, 2, 7, 12, 9, 5, 6, 1, 13, 14, 0, 11, 3, 8]
    else if i == 5 && r == 2 then [9, 14, 15, 5, 2, 8, 12, 3, 7, 0, 4, 10, 1, 13, 11, 6]
    else if i == 5 && r == 3 then [4, 3, 2, 12, 9, 5, 15, 10, 11, 14, 1, 7, 6, 0, 8, 13]
    else if i == 6 && r == 0 then [4, 11, 2, 14, 15, 0, 8, 13, 3, 12, 9, 7, 5, 10, 6, 1]
    else if i == 6 && r == 1 then [13, 0, 11, 7, 4, 9, 1, 10, 14, 3, 5, 12, 2, 15, 8, 6]
    else if i == 6 && r == 2 then [1, 4, 11, 13, 12, 3, 7, 14, 10, 15, 6, 8, 0, 5, 9, 2]
    else if i == 6 && r == 3 then [6, 11, 13, 8, 1, 4, 10, 7, 9, 5, 0, 15, 14, 2, 3, 12]
    else if i == 7 && r == 0 then [13, 2, 8, 4, 6, 15, 11, 1, 10, 9, 3, 14, 5, 0, 12, 7]
    else if i == 7 && r == 1 then [1, 15, 13, 8, 10, 3, 7, 4, 12, 5, 6, 11, 0, 14, 9, 2]
    else if i == 7 && r == 2 then [7, 11, 4, 1, 9, 12, 14, 2, 0, 6, 10, 13, 15, 3, 5, 8]
    else [2, 1, 14, 7, 4, 10, 8, 13, 15, 12, 9, 0, 3, 5, 6, 11]
  }

  /** The 64 entries of table `i`. */
  function Table(i: nat): (s: seq<bv64>)
    requires i < 8
    ensures |s| == 64
  {
    Line(i, 0) + Line(i, 1) + Line(i, 2) + Line(i, 3)
  }

  lemma TableAt(i: nat, r: nat, c: nat)
    requires i < 8 && r < 4 && c < 16
    ensures Table(i)[16 * r + c] == Line(i, r)[c]
  {
    hide Line;
  }

  function Column(b1: bool, b2: bool, b3: bool, b4: bool): (c: nat)
    ensures c < 16
  {
    (if b4 then 8 else 0) + (if b3 then 4 else 0) + (if b2 then 2 else 0) + (if b1 then 1 else 0)
  }

  /** The index of `muggle_des_sbox` for the six bits of a group. */
  function Index(b0: bool, b1: bool, b2: bool, b3: bool, b4: bool, b5: bool): (n: nat)
    ensures n < 64
  {
    16 * RowOf(b0, b5) + Column(b1, b2, b3, b4)
  }

  // ------------------------------------------------------------------------- the entries

  /** The sixteen look-ups with the outer bits fixed. */
  predicate Reads(i: nat, b0: bool, b5: bool, s: seq<bv64>)
    requires i < 8 && |s| == 16
  {
    && LookUp(i, b0, false, false, false, false, b5) == s[0]
    && LookUp(i, b0, true, false, false, false, b5) == s[1]
    && LookUp(i, b0, false, true, false, false, b5) == s[2]
    && LookUp(i, b0, true, true, false, false, b5) == s[3]
    && LookUp(i, b0, false, false, true, false, b5) == s[4]
    && LookUp(i, b0, true, false, true, false, b5) == s[5]
    && LookUp(i, b0, false, true, true, false, b5) == s[6]
    && LookUp(i, b0, true, true, true, false, b5) == s[7]
    && LookUp(i, b0, false, false, false, true, b5) == s[8]
    && LookUp(i, b0, true, false, false, true, b5) == s[9]
    && LookUp(i, b0, false, true, false, true, b5) == s[10]
    && LookUp(i, b0, true, true, false, true, b5) == s[11]
    && LookUp(i, b0, false, false, true, true, b5) == s[12]
    && LookUp(i, b0, true, false, true, true, b5) == s[13]
    && LookUp(i, b0, false, true, true, true, b5) == s[14]
    && LookUp(i, b0, true, true, true, true, b5) == s[15]
  }

  lemma ReadsAt(i: nat, b0: bool, b1: bool, b2: bool, b3: bool, b4: bool, b5: bool, s: seq<bv64>)
    requires i < 8 && |s| == 16 && Reads(i, b0, b5, s)
    ensures LookUp(i, b0, b1, b2, b3, b4, b5) == s[Column(b1, b2, b3, b4)]
  {
    hide LookUp;
  }

  lemma Digits00()
    ensures Reads(0, false, false, Line(0, 0))
  {
  }

  lemma Digits01()
    ensures Reads(0, true, false, Line(0, 1))
  {
  }

  lemma Digits02()
    ensures Reads(0, false, true, Line(0, 2))
  {
  }

  lemma Digits03()
    ensures Reads(0, true, true, Line(0, 3))
  {
  }

  lemma Digits10()
    ensures Reads(1, false, false, Line(1, 0))
  {
  }

  lemma Digits11()
    ensures Reads(1, true, false, Line(1, 1))
  {
  }

  lemma Digits12()
    ensures Reads(1, false, true, Line(1, 2))
  {
  }

  lemma Digits13()
    ensures Reads(1, true, true, Line(1, 3))
  {
  }

  lemma Digits20()
    ensures Reads(2, false, false, Line(2, 0))
  {
  }

  lemma Digits21()
    ensures Reads(2, true, false, Line(2, 1))
  {
  }

  lemma Digits22()
    ensures Reads(2, false, true, Line(2, 2))
  {
  }

  lemma Digits23()
    ensures Reads(2, true, true, Line(2, 3))
  {
  }

  lemma Digits30()
    ensures Reads(3, false, false, Line(3, 0))
  {
  }

  lemma Digits31()
    ensures Reads(3, true, false, Line(3, 1))
  {
  }

  lemma Digits32()
    ensures Reads(3, false, true, Line(3, 2))
  {
  }

  lemma Digits33()
    ensures Reads(3, true, true, Line(3, 3))
  {
  }

  lemma Digits40()
    ensures Reads(4, false, false, Line(4, 0))
  {
  }

  lemma Digits41()
    ensures Reads(4, true, false, Line(4, 1))
  {
  }

  lemma Digits42()
    ensures Reads(4, false, true, Line(4, 2))
  {
  }

  lemma Digits43()
    ensures Reads(4, true, true, Line(4, 3))
  {
  }

  lemma Digits50()
    ensures Reads(5, false, false, Line(5, 0))
  {
  }

  lemma Digits51()
    ensures Reads(5, true, false, Line(5, 1))
  {
  }

  lemma Digits52()
    ensures Reads(5, false, true, Line(5, 2))
  {
  }

  lemma Digits53()
    ensures Reads(5, true, true, Line(5, 3))
  {
  }

  lemma Digits60()
    ensures Reads(6, false, false, Line(6, 0))
  {
  }

  lemma Digits61()
    ensures Reads(6, true, false, Line(6, 1))
  {
  }

  lemma Digits62()
    ensures Reads(6, false, true, Line(6, 2))
  {
  }

  lemma Digits63()
    ensures Reads(6, true, true, Line(6, 3))
  {
  }

  lemma Digits70()
    ensures Reads(7, false, false, Line(7, 0))
  {
  }

  lemma Digits71()
    ensures Reads(7, true, false, Line(7, 1))
  {
  }

  lemma Digits72()
    ensures Reads(7, false, true, Line(7, 2))
  {
  }

  lemma Digits73()
    ensures Reads(7, true, true, Line(7, 3))
  {
  }

  lemma Digits0(b0: bool, b5: bool)
    ensures Reads(0, b0, b5, Line(0, RowOf(b0, b5)))
  {
    hide Reads, Line;
    if b0 {
      if b5 {
        Digits03();
      } else {
        Digits01();
      }
    } else if b5 {
      Digits02();
    } else {
      Digits00();
    }
  }

  lemma Digits1(b0: bool, b5: bool)
    ensures Reads(1, b0, b5, Line(1, RowOf(b0, b5)))
  {
    hide Reads, Line;
    if b0 {
      if b5 {
        Digits13();
      } else {
        Digits11();
      }
    } else if b5 {
      Digits12();
    } else {
      Digits10();
    }
  }

  lemma Digits2(b0: bool, b5: bool)
    ensures Reads(2, b0, b5, Line(2, RowOf(b0, b5)))
  {
    hide Reads, Line;
    if b0 {
      if b5 {
        Digits23();
      } else {
        Digits21();
      }
    } else if b5 {
      Digits22();
    } else {
      Digits20();
    }
  }

  lemma Digits3(b0: bool, b5: bool)
    ensures Reads(3, b0, b5, Line(3, RowOf(b0, b5)))
  {
    hide Reads, Line;
    if b0 {
      if b5 {
        Digits33();
      } else {
        Digits31();
      }
    } else if b5 {
      Digits32();
    } else {
      Digits30();
    }
  }

  lemma Digits4(b0: bool, b5: bool)
    ensures Reads(4, b0, b5, Line(4, RowOf(b0, b5)))
  {
    hide Reads, Line;
    if b0 {
      if b5 {
        Digits43();
      } else {
        Digits41();
      }
    } else if b5 {
      Digits42();
    } else {
      Digits40();
    }
  }

  lemma Digits5(b0: bool, b5: bool)
    ensures Reads(5, b0, b5, Line(5, RowOf(b0, b5)))
  {
    hide Reads, Line;
    if b0 {
      if b5 {
        Digits53();
      } else {
        Digits51();
      }
    } else if b5 {
      Digits52();
    } else {
      Digits50();
    }
  }

  lemma Digits6(b0: bool, b5: bool)
    ensures Reads(6, b0, b5, Line(6, RowOf(b0, b5)))
  {
    hide Reads, Line;
    if b0 {
      if b5 {
        Digits63();
      } else {
        Digits61();
      }
    } else if b5 {
      Digits62();
    } else {
      Digits60();
    }
  }

  lemma Digits7(b0: bool, b5: bool)
    ensures Reads(7, b0, b5, Line(7, RowOf(b0, b5)))
  {
    hide Reads, Line;
    if b0 {
      if b5 {
        Digits73();
      } else {
        Digits71();
      }
    } else if b5 {
      Digits72();
    } else {
      Digits70();
    }
  }

  lemma Digits(i: nat, b0: bool, b5: bool)
    requires i < 8
    ensures Reads(i, b0, b5, Line(i, RowOf(b0, b5)))
  {
    hide Reads, Line, RowOf;
    if i == 0 {
      Digits0(b0, b5);
    } else if i == 1 {
      Digits1(b0, b5);
    } else if i == 2 {
      Digits2(b0, b5);
    } else if i == 3 {
      Digits3(b0, b5);
    } else if i == 4 {
      Digits4(b0, b5);
    } else if i == 5 {
      Digits5(b0, b5);
    } else if i == 6 {
      Digits6(b0, b5);
    } else {
      Digits7(b0, b5);
    }
  }

  /** The look-up is the entry of the decimal table at the index of the source. */
  lemma LookUpIsTable(i: nat, b0: bool, b1: bool, b2: bool, b3: bool, b4: bool, b5: bool)
    requires i < 8
    ensures LookUp(i, b0, b1, b2, b3, b4, b5) == Table(i)[Index(b0, b1, b2, b3, b4, b5)]
  {
    hide LookUp, Line, Table, Reads, Column;
    Digits(i, b0, b5);
    ReadsAt(i, b0, b1, b2, b3, b4, b5, Line(i, RowOf(b0, b5)));
    TableAt(i, RowOf(b0, b5), Column(b1, b2, b3, b4));
  }

  // ------------------------------------------------------------------------- permutations

  /** Digit `v` of `back` is the place of the value `v` in `row`. */
  ghost predicate Undone(row: bv64, back: bv64) {
    forall v: bv8 | v < 16 :: Nibble(back, v) < 16 && Nibble(row, (Nibble(back, v) & 0xf) as bv8) == v as bv64
  }

  lemma UndonePermutes(row: bv64, back: bv64, v: bv8)
    requires Undone(row, back) && v < 16
    ensures exists c: bv8 :: c < 16 && Nibble(row, c) == v as bv64
  {
    hide Nibble;
    var c := (Nibble(back, v) & 0xf) as bv8;
    assert c < 16 && Nibble(row, c) == v as bv64;
  }

  lemma Permutes0()
    ensures Undone(Row(0, 0), 0xe3481caf7d96b205)
    ensures Undone(Row(0, 1), 0x075e3d92fc8ba641)
    ensures Undone(Row(0, 2), 0xf16c0e5b3ad79428)
    ensures Undone(Row(0, 3), 0xd63a48e725c91fb0)
  {
  }

  lemma Permutes1()
    ensures Undone(Row(1, 0), 0xd1a67e4928f5cb30)
    ensures Undone(Row(1, 1), 0x9a502fc36dbe8174)
    ensures Undone(Row(1, 2), 0x07ed58b29c43a61f)
    ensures Undone(Row(1, 3), 0xc3746d9a1f28b0e5)
  {
  }

  lemma Permutes2()
    ensures Undone(Row(2, 0), 0x18e5d74bf20ca936)
    ensures Undone(Row(2, 1), 0x2f845a61937dc0be)
    ensures Undone(Row(2, 2), 0x79a62c1f43d8b0e5)
    ensures Undone(Row(2, 3), 0x30eb8d47651cf2a9)
  {
  }

  lemma Permutes3()
    ensures Undone(Row(3, 0), 0x4893eb50a67cd12f)
    ensures Undone(Row(3, 1), 0x6ca783491fd2b0e5)
    ensures Undone(Row(3, 2), 0x39dafc16e20547b8)
    ensures Undone(Row(3, 3), 0x25e09a3d784bc6f1)
  {
  }

  lemma Permutes4()
    ensures Undone(Row(4, 0), 0xd30a29748f561ceb)
    ensures Undone(Row(4, 1), 0x972c48f5edb1360a)
    ensures Undone(Row(4, 2), 0xe21d0bc67943a5f8)
    ensures Undone(Row(4, 3), 0xa46fde831bc02759)
  {
  }

  lemma Permutes5()
    ensures Undone(Row(5, 0), 0x815abe6d742f09c3)
    ensures Undone(Row(5, 1), 0xc93e2784f60d5ab1)
    ensures Undone(Row(5, 2), 0x9c47a3f850be6d12)
    ensures Undone(Row(5, 3), 0xda2105cbe4783f96)
  {
  }

  lemma Permutes6()
    ensures Undone(Row(6, 0), 0x5f280ceb6ad19734)
    ensures Undone(Row(6, 1), 0x16c94af3e572b08d)
    ensures Undone(Row(6, 2), 0xc0f51da6be824379)
    ensures Undone(Row(6, 3), 0xa4de59073861f2cb)
  {
  }

  lemma Permutes7()
    ensures Undone(Row(7, 0), 0xd71a3c4f2986e0b5)
    ensures Undone(Row(7, 1), 0xc0f579a63e4b82d1)
    ensures Undone(Row(7, 2), 0x837d2e90f4a15b6c)
    ensures Undone(Row(7, 3), 0xb10c4de36a5f9728)
  {
  }

  /** Every row holds each number from 0 to 15. */
  lemma RowPermutes(i: nat, r: nat, v: bv8)
    requires i < 8 && r < 4 && v < 16
    ensures exists c: bv8 :: c < 16 && Nibble(Row(i, r), c) == v as bv64
  {
    hide Row, Undone, Nibble;
    if i == 0 {
      Permutes0();
      UndonePermutes(Row(i, r), if r == 0 then 0xe3481caf7d96b205 else if r == 1 then 0x075e3d92fc8ba641
                                else if r == 2 then 0xf16c0e5b3ad79428 else 0xd63a48e725c91fb0, v);
    } else if i == 1 {
      Permutes1();
      UndonePermutes(Row(i, r), if r == 0 then 0xd1a67e4928f5cb30 else if r == 1 then 0x9a502fc36dbe8174
                                else if r == 2 then 0x07ed58b29c43a61f else 0xc3746d9a1f28b0e5, v);
    } else if i == 2 {
      Permutes2();
      UndonePermutes(Row(i, r), if r == 0 then 0x18e5d74bf20ca936 else if r == 1 then 0x2f845a61937dc0be
                                else if r == 2 then 0x79a62c1f43d8b0e5 else 0x30eb8d47651cf2a9, v);
    } else if i == 3 {
      Permutes3();
      UndonePermutes(Row(i, r), if r == 0 then 0x4893eb50a67cd12f else if r == 1 then 0x6ca783491fd2b0e5
                                else if r == 2 then 0x39dafc16e20547b8 else 0x25e09a3d784bc6f1, v);
    } else if i == 4 {
      Permutes4();
      UndonePermutes(Row(i, r), if r == 0 then 0xd30a29748f561ceb else if r == 1 then 0x972c48f5edb1360a
                                else if r == 2 then 0xe21d0bc67943a5f8 else 0xa46fde831bc02759, v);
    } else if i == 5 {
      Permutes5();
      UndonePermutes(Row(i, r), if r == 0 then 0x815abe6d742f09c3 else if r == 1 then 0xc93e2784f60d5ab1
                                else if r == 2 then 0x9c47a3f850be6d12 else 0xda2105cbe4783f96, v);
    } else if i == 6 {
      Permutes6();
      UndonePermutes(Row(i, r), if r == 0 then 0x5f280ceb6ad19734 else if r == 1 then 0x16c94af3e572b08d
                                else if r == 2 then 0xc0f51da6be824379 else 0xa4de59073861f2cb, v);
    } else {
      Permutes7();
      UndonePermutes(Row(i, r), if r == 0 then 0xd71a3c4f2986e0b5 else if r == 1 then 0xc0f579a63e4b82d1
                                else if r == 2 then 0x837d2e90f4a15b6c else 0xb10c4de36a5f9728, v);
    }
  }
}
