/** The key schedule of DES: PC-1, the turns of the two halves and PC-2, as `internal_des.c` and `des.c` have them. */
module DesKey {
  import opened Feistel
  import opened DesRound
  import opened Des

  /** The key bits that `muggle_des_pc1` moves to the two halves. */
  const LeftBits: seq<nat> := [
    56, 48, 40, 32, 24, 16, 8, 0, 57, 49, 41, 33, 25, 17,
    9, 1, 58, 50, 42, 34, 26, 18, 10, 2, 59, 51, 43, 35]

  const RightBits: seq<nat> := [
    62, 54, 46, 38, 30, 22, 14, 6, 61, 53, 45, 37, 29, 21,
    13, 5, 60, 52, 44, 36, 28, 20, 12, 4, 27, 19, 11, 3]

  /** The bits of a half that the PC-2 table names for each group: four groups from the left half, four from the right. */
  const Chosen: seq<seq<nat>> := [
    [13, 16, 10, 23, 0, 4],
    [2, 27, 14, 5, 20, 9],
    [22, 18, 11, 3, 25, 7],
    [15, 6, 26, 19, 12, 1],
    [12, 23, 2, 8, 18, 26],
    [1, 11, 22, 16, 4, 19],
    [15, 20, 10, 27, 5, 24],
    [17, 13, 21, 7, 0, 3]]

  const Turns: seq<nat> := [1, 1, 2, 2, 2, 2, 2, 2, 1, 2, 2, 2, 2, 2, 2, 1]

  /** The two halves, in words of which 28 bits count. */
  datatype Halved = Halved(c: Half, d: Half)

  function Picked(key: Block, from: seq<nat>): Half
    requires |from| == 28 && forall i | 0 <= i < 28 :: from[i] < 64
  {
    seq(32, i requires 0 <= i < 32 => if i < 28 then key[from[i]] else false)
  }

  lemma BitsInRange()
    ensures |LeftBits| == 28 && forall i | 0 <= i < 28 :: LeftBits[i] < 64
    ensures |RightBits| == 28 && forall i | 0 <= i < 28 :: RightBits[i] < 64
  {
  }

  /** `muggle_des_pc1`. */
  function Pc1(key: Block): Halved {
    BitsInRange();
    Halved(Picked(key, LeftBits), Picked(key, RightBits))
  }

  /** `MUGGLE_DES_KEY_SHIFT`: bits pushed past position 27 come back at the bottom and linger above. */
  function Shifted(h: Half, s: nat): Half
    requires 1 <= s <= 2
  {
    seq(32, i requires 0 <= i < 32 => if i < s then h[28 - s + i] else h[i - s])
  }

  function Turn(h: Halved, i: nat): Halved {
    if i < 16 then Halved(Shifted(h.c, Turns[i]), Shifted(h.d, Turns[i])) else h
  }

  /** The six bits of a half that the table names for group `i`. */
  function Choose(x: Half, i: nat): (g: Bits)
    requires i < 8
    ensures |g| == 6
  {
    [x[Chosen[i][0]], x[Chosen[i][1]], x[Chosen[i][2]], x[Chosen[i][3]], x[Chosen[i][4]], x[Chosen[i][5]]]
  }

  /** Both last bits in position 4. */
  function Crowded(g: Bits): (r: Bits)
    requires |g| == 6
    ensures |r| == 6
  {
    [g[0], g[1], g[2], g[3], g[4] || g[5], false]
  }

  /** `muggle_des_pc2`: in the last four groups the fifth and the sixth bit share position 4. */
  function Pc2(h: Halved): Groups {
    seq(8, i requires 0 <= i < 8 => if i < 4 then Choose(h.c, i) else Crowded(Choose(h.d, i)))
  }

  // ------------------------------------------------------------------------- what the schedule promises

  /** The PC-2 table as the source documents it. */
  function Pc2Table(h: Halved): Groups {
    seq(8, i requires 0 <= i < 8 => if i < 4 then Choose(h.c, i) else Choose(h.d, i))
  }

  lemma CrowdedExactly(g: Bits)
    requires |g| == 6
    ensures Crowded(g) == g <==> !g[5]
  {
    if Crowded(g) == g {
      assert Crowded(g)[5] == g[5];
    }
  }

  lemma LastBits(x: Half)
    ensures Choose(x, 4)[5] == x[26] && Choose(x, 5)[5] == x[19] && Choose(x, 6)[5] == x[24] && Choose(x, 7)[5] == x[3]
  {
  }

  /** The code's subkey is the one of the table exactly if four bits of the right half are clear. */
  lemma Pc2Exactly(h: Halved)
    ensures Pc2(h) == Pc2Table(h) <==> !h.d[26] && !h.d[19] && !h.d[24] && !h.d[3]
  {
    hide Choose, Crowded;
    LastBits(h.d);
    CrowdedExactly(Choose(h.d, 4));
    CrowdedExactly(Choose(h.d, 5));
    CrowdedExactly(Choose(h.d, 6));
    CrowdedExactly(Choose(h.d, 7));
    var p, q := Pc2(h), Pc2Table(h);
    assert p[4] == Crowded(q[4]) && p[5] == Crowded(q[5]) && p[6] == Crowded(q[6]) && p[7] == Crowded(q[7]);
    assert p == q <==> p[4] == q[4] && p[5] == q[5] && p[6] == q[6] && p[7] == q[7];
  }

  /** The subkeys of a key, in the order in which the schedule makes them. */
  function Subkeys(key: Block): (ks: seq<Groups>)
    ensures |ks| == 16
  {
    Schedule(Turn, Pc2, Pc1(key), 0, 16)
  }

  // ------------------------------------------------------------------------- the schedule in closed form

  /** How far the halves have turned after so many rounds. */
  const Totals: seq<nat> := [0, 1, 2, 4, 6, 8, 10, 12, 14, 15, 17, 19, 21, 23, 25, 27, 28]

  function Total(n: nat): (t: nat)
    requires n <= 16
    ensures t <= 28
  {
    Totals[n]
  }

  function Step(i: nat): (t: nat)
    requires i < 16
    ensures 1 <= t <= 2
  {
    Turns[i]
  }

  /** The place from which a turn by `t` brings the bit at `j`. */
  function Origin(j: nat, t: nat): (o: nat)
    requires j < 28 && t <= 28
    ensures o < 28
  {
    (j + 28 - t) % 28
  }

  lemma Summed(n: nat)
    requires n < 16
    ensures Total(n + 1) == Total(n) + Step(n)
  {
  }

  /** The halves after `n` rounds. */
  function After(h: Halved, n: nat): Halved
    requires n <= 16
  {
    Turned(Turn, h, 0, n)
  }

  lemma AfterNext(h: Halved, n: nat)
    requires n < 16
    ensures var x := After(h, n); After(h, n + 1) == Halved(Shifted(x.c, Step(n)), Shifted(x.d, Step(n)))
  {
    hide Turned, Shifted;
    TurnedLast(Turn, h, 0, n);
  }

  lemma AfterNone(h: Halved, j: nat)
    requires j < 28
    ensures After(h, 0) == h && Total(0) == 0 && Origin(j, 0) == j
  {
  }

  lemma TurnsAdd(j: nat, s: nat, t: nat)
    requires j < 28 && s + t <= 28
    ensures Origin(Origin(j, s), t) == Origin(j, t + s)
  {
  }

  lemma ShiftedBit(h: Half, s: nat, j: nat)
    requires 1 <= s <= 2 && j < 28
    ensures Shifted(h, s)[j] == h[Origin(j, s)]
  {
  }

  /** The 28 bits of either half have turned by the sum of the shifts. */
  lemma {:induction false} AfterBits(h: Halved, n: nat, j: nat)
    requires n <= 16 && j < 28
    ensures After(h, n).c[j] == h.c[Origin(j, Total(n))]
    ensures After(h, n).d[j] == h.d[Origin(j, Total(n))]
  {
    hide Turned, Shifted, After, Total, Step, Origin;
    if n == 0 {
      AfterNone(h, j);
    } else {
      var s := Step(n - 1);
      Summed(n - 1);
      AfterNext(h, n - 1);
      ShiftedBit(After(h, n - 1).c, s, j);
      ShiftedBit(After(h, n - 1).d, s, j);
      AfterBits(h, n - 1, Origin(j, s));
      TurnsAdd(j, s, Total(n - 1));
    }
  }

  /** After sixteen rounds the 28 bits of both halves are back. */
  lemma AfterAll(h: Halved, j: nat)
    requires j < 28
    ensures After(h, 16).c[j] == h.c[j] && After(h, 16).d[j] == h.d[j]
  {
    hide After;
    AfterBits(h, 16, j);
  }

  lemma {:induction false} ScheduleAt(h: Halved, n: nat, i: nat)
    requires i < n <= 16
    ensures Schedule(Turn, Pc2, h, 0, n)[i] == Pc2(After(h, i + 1))
  {
    hide Turn, Pc2, Schedule, Turned;
    ScheduleLast(Turn, Pc2, h, 0, n - 1);
    TurnedLast(Turn, h, 0, n - 1);
    if i < n - 1 {
      ScheduleAt(h, n - 1, i);
    }
  }

  /** PC-1 in closed form: the columns of the key, read upwards; the last four bits of the right half from column 3. */
  lemma Pc1Bits(key: Block, j: nat)
    requires j < 28
    ensures Pc1(key).c[j] == key[56 - 8 * (j % 8) + j / 8]
    ensures Pc1(key).d[j] == key[if j < 24 then 62 - 8 * (j % 8) - j / 8 else 27 - 8 * (j % 8)]
  {
    hide Picked;
    BitsInRange();
    Pc1Left(key, j);
    Pc1Right(key, j);
  }

  lemma Pc1Left(key: Block, j: nat)
    requires j < 28
    ensures |LeftBits| == 28 && LeftBits[j] < 64 && Pc1(key).c[j] == key[LeftBits[j]]
    ensures LeftBits[j] == 56 - 8 * (j % 8) + j / 8
  {
    BitsInRange();
    LeftColumns(j / 8, j % 8);
  }

  lemma Pc1Right(key: Block, j: nat)
    requires j < 28
    ensures |RightBits| == 28 && RightBits[j] < 64 && Pc1(key).d[j] == key[RightBits[j]]
    ensures RightBits[j] == if j < 24 then 62 - 8 * (j % 8) - j / 8 else 27 - 8 * (j % 8)
  {
    BitsInRange();
    RightColumns(j / 8, j % 8);
  }

  lemma LeftColumns(q: nat, r: nat)
    requires r < 8 && 8 * q + r < 28
    ensures LeftBits[8 * q + r] == 56 - 8 * r + q
  {
  }

  lemma RightColumns(q: nat, r: nat)
    requires r < 8 && 8 * q + r < 28
    ensures RightBits[8 * q + r] == if q < 3 then 62 - 8 * r - q else 27 - 8 * r
  {
  }

  /** The key bit that PC-2 sends to place `e` of group `g` in round `i`. */
  function KeyBit(i: nat, g: nat, e: nat): (b: nat)
    requires i < 16 && g < 8 && e < 6
    ensures b < 64
  {
    ChosenInRange(g, e);
    BitsInRange();
    var j := Origin(Chosen[g][e], Total(i + 1));
    if g < 4 then LeftBits[j] else RightBits[j]
  }

  lemma ChosenInRange(g: nat, e: nat)
    requires g < 8 && e < 6
    ensures |Chosen[g]| == 6 && Chosen[g][e] < 28
  {
  }

  /** Every bit of every subkey is one bit of the key, and at place 4 of the last four groups one bit or another. */
  lemma SubkeyBits(key: Block, i: nat, g: nat, e: nat)
    requires i < 16 && g < 8 && e < 6
    ensures Subkeys(key)[i][g][e]
         == if g < 4 || e < 4 then key[KeyBit(i, g, e)]
            else e == 4 && (key[KeyBit(i, g, 4)] || key[KeyBit(i, g, 5)])
  {
    hide Turn, Schedule, After, Total, Origin, Choose;
    var h := Pc1(key);
    ScheduleAt(h, 16, i);
    Chose(h, i, g, e);
    if e == 4 {
      Chose(h, i, g, 5);
    }
  }

  /** What `Choose` reads at one place. */
  lemma Chose(h: Halved, i: nat, g: nat, e: nat)
    requires i < 16 && g < 8 && e < 6
    ensures |Chosen[g]| == 6 && Chosen[g][e] < 28
    ensures Choose(After(h, i + 1).c, g)[e] == h.c[Origin(Chosen[g][e], Total(i + 1))]
    ensures Choose(After(h, i + 1).d, g)[e] == h.d[Origin(Chosen[g][e], Total(i + 1))]
  {
    ChosenInRange(g, e);
    hide After, Total, Choose, Origin;
    AfterBits(h, i + 1, Chosen[g][e]);
    ChooseAt(After(h, i + 1).c, g, e);
    ChooseAt(After(h, i + 1).d, g, e);
  }

  lemma ChooseAt(x: Half, g: nat, e: nat)
    requires g < 8 && e < 6
    ensures |Chosen[g]| == 6 && Chosen[g][e] < 28 && Choose(x, g)[e] == x[Chosen[g][e]]
  {
  }
}
