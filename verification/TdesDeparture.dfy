/**
 * Where `muggle/c/crypt/tdes.c` departs from triple DES. Three DES blocks in a row swap the halves after each of them;
 * the code swaps once. Zeros for the middle key, with any others around it, show the difference.
 */
module TdesDeparture {
  import opened Feistel
  import opened DesRound
  import opened DesWords
  import opened DesCycle
  import opened Des
  import opened DesKey
  import opened Tdes

  /** Three DES blocks one after the other are the stages with a swap after each. */
  lemma TripleInside<K(!new)>(f: RoundFunction<K>, k1: seq<K>, k2: seq<K>, k3: seq<K>, b: Block)
    requires Proper(f)
    ensures Crypt(f, k3, Crypt(f, k2, Crypt(f, k1, b)))
            == Fp(Join(Swap(Rounds(f, k3, Swap(Rounds(f, k2, Swap(Rounds(f, k1, Halves(Ip(b))))))))))
  {
    hide Proper, Ip, Fp, Rounds, Join, Halves;
    CryptInside(f, k1, b);
    CryptInside(f, k2, Crypt(f, k1, b));
  }

  // ------------------------------------------------------------------------- the key of zeros

  /** A key of zeros; the eight parity bits, which PC-1 drops, may be anything. */
  predicate Zero(key: Block) { forall i | 0 <= i < 64 && i % 8 != 7 :: !key[i] }

  function Quiet(n: nat): seq<Groups> { seq(n, i => NoKey) }

  const NoBits: Halved := Halved(seq(32, i => false), seq(32, i => false))

  lemma ZeroTurn(i: nat)
    ensures Turn(NoBits, i) == NoBits
  {
    if i < 16 {
      assert Shifted(NoBits.c, Turns[i]) == NoBits.c;
    }
  }

  lemma ZeroChoice()
    ensures Pc2(NoBits) == NoKey
  {
    forall i | 0 <= i < 8 ensures Pc2(NoBits)[i] == NoKey[i] {
      ZeroGroup(i);
    }
  }

  lemma ZeroGroup(i: nat)
    requires i < 8
    ensures Choose(NoBits.c, i) == NoKey[i] && Crowded(Choose(NoBits.d, i)) == NoKey[i]
  {
  }

  lemma {:induction false} ZeroSchedule(i: nat, n: nat)
    requires i <= n
    ensures Schedule(Turn, Pc2, NoBits, i, n) == Quiet(n - i)
    decreases n - i
  {
    hide Turn, Pc2;
    if i < n {
      ZeroTurn(i);
      ZeroChoice();
      ZeroSchedule(i + 1, n);
    }
  }

  /** Every subkey of a key of zeros is zero. */
  lemma ZeroSubkeys(key: Block)
    requires Zero(key)
    ensures Subkeys(key) == Quiet(16) && Reverse(Subkeys(key)) == Quiet(16)
  {
    hide Turn, Pc2, Schedule, Zero;
    ZeroHalves(key);
    ZeroSchedule(0, 16);
  }

  lemma NoParityChosen(i: nat)
    requires i < 28
    ensures LeftBits[i] < 64 && LeftBits[i] % 8 != 7 && RightBits[i] < 64 && RightBits[i] % 8 != 7
  {
  }

  lemma ZeroHalves(key: Block)
    requires Zero(key)
    ensures Pc1(key) == NoBits
  {
    BitsInRange();
    forall i | 0 <= i < 32 ensures !Picked(key, LeftBits)[i] && !Picked(key, RightBits)[i] {
      if i < 28 {
        NoParityChosen(i);
      }
    }
    assert Picked(key, LeftBits) == NoBits.c;
    assert Picked(key, RightBits) == NoBits.d;
  }

  // ------------------------------------------------------------------------- a cycle of three rounds

  /** The three states of the cycle. */
  function Orbit(i: nat): (p: Pair)
    ensures Sized(p)
  {
    if i % 3 == 0 then Pair(Word(MOVED), Word(MOVED))
    else if i % 3 == 1 then Pair(Word(MOVED), Word(STILL))
    else Pair(Word(STILL), Word(MOVED))
  }

  lemma XorNone(x: Half)
    ensures XorBits(x, seq(32, i => false)) == x
  {
  }

  lemma XorDifference(x: Half, y: Half)
    ensures XorBits(x, XorBits(y, x)) == y && XorBits(y, XorBits(y, x)) == x
  {
  }

  lemma OrbitStep(i: nat)
    ensures Proper(F) && Round(F, NoKey, Orbit(i)) == Orbit(i + 1)
  {
    hide F, Word, XorBits;
    ProperF();
    StillGivesNothing();
    MovedGivesDifference();
    XorNone(Word(MOVED));
    XorDifference(Word(MOVED), Word(STILL));
  }

  lemma {:induction false} OrbitRounds(i: nat, n: nat)
    ensures Proper(F) && Rounds(F, Quiet(n), Orbit(i)) == Orbit(i + n)
    decreases n
  {
    hide F, Orbit, Round, Proper;
    ProperF();
    if n > 0 {
      OrbitStep(i);
      OrbitRounds(i + 1, n - 1);
      assert Quiet(n)[1..] == Quiet(n - 1);
    }
  }

  // ------------------------------------------------------------------------- the departure

  /** A block whose halves start on the cycle. */
  function Start(): Block { Fp(Join(Orbit(0))) }

  lemma StartInside()
    ensures Halves(Ip(Start())) == Orbit(0)
  {
    hide Ip, Fp, Join, Halves, Orbit;
    PermutationsInverse(Join(Orbit(0)));
    HalvesJoin(Orbit(0));
  }

  lemma OrbitApart()
    ensures Swap(Orbit(0)) == Orbit(0) && Swap(Orbit(1)) == Orbit(2) && Orbit(0) != Orbit(2) && Orbit(1) != Orbit(2)
  {
    assert Bit(STILL, 0) && !Bit(MOVED, 0);
    assert Word(STILL)[0] && !Word(MOVED)[0];
  }

  lemma OrbitTurns()
    ensures Orbit(16) == Orbit(1) && Orbit(48) == Orbit(0) && Orbit(18) == Orbit(0)
  {
    hide Word;
  }

  /** With subkeys of zeros the code ends on the cycle where it began, and DES, once or three times, elsewhere. */
  lemma StartOutcomes()
    ensures Proper(F)
    ensures Crypt3(F, Quiet(16), Quiet(16), Quiet(16), Start()) == Fp(Join(Orbit(0)))
    ensures Crypt(F, Quiet(16), Start()) == Fp(Join(Orbit(2)))
    ensures Crypt(F, Quiet(16), Crypt(F, Quiet(16), Crypt(F, Quiet(16), Start()))) == Fp(Join(Orbit(2)))
  {
    hide F, Ip, Fp, Join, Halves, Rounds, Quiet, Start, Orbit, Proper;
    ProperF();
    StartInside();
    OrbitApart();
    OrbitTurns();
    OrbitRounds(0, 16);
    OrbitRounds(16, 16);
    OrbitRounds(32, 16);
    OrbitRounds(2, 16);
    TripleInside(F, Quiet(16), Quiet(16), Quiet(16), Start());
  }

  /** With three equal keys of zeros, on this block, the code's TDES is neither three DES blocks in a row nor single DES. */
  lemma EqualKeys(key: Block)
    requires Zero(key)
    ensures Proper(F)
    ensures var s := Subkeys(key);
      var k := Contexts(ENCRYPT, s, s, s);
      var c := Crypt3(F, k.0, k.1, k.2, Start());
      && c != Crypt(F, k.2, Crypt(F, k.1, Crypt(F, k.0, Start())))
      && c != Crypt(F, Ordered(ENCRYPT, s), Start())
  {
    hide F, Orbit, Fp, Ip, Join, Halves, Crypt, Crypt3, Subkeys, Quiet, Start, Reverse, Proper;
    ProperF();
    ZeroSubkeys(key);
    StartOutcomes();
    OrbitApart();
    PermutationsInverse(Join(Orbit(0)));
    PermutationsInverse(Join(Orbit(2)));
    HalvesJoin(Orbit(0));
    HalvesJoin(Orbit(2));
  }

  // ------------------------------------------------------------------------- any outer keys

  /** The code's TDES differs from three DES blocks in a row on this block. */
  ghost predicate Departs(s1: seq<Groups>, s2: seq<Groups>, s3: seq<Groups>, b: Block) {
    ProperF();
    var k := Contexts(ENCRYPT, s1, s2, s3);
    Crypt3(F, k.0, k.1, k.2, b) != Crypt(F, k.2, Crypt(F, k.1, Crypt(F, k.0, b)))
  }

  /** Every state can be reached from some block by the rounds of the first key. */
  lemma Reach(s1: seq<Groups>, y: Pair) returns (b: Block)
    requires Sized(y)
    ensures Proper(F) && Rounds(F, s1, Halves(Ip(b))) == y
  {
    hide F, Ip, Fp, Join, Halves, Rounds, Reverse, Proper;
    ProperF();
    var q := Rounds(F, Reverse(s1), Swap(y));
    b := Fp(Join(Swap(q)));
    PermutationsInverse(Join(Swap(q)));
    HalvesJoin(Swap(q));
    RoundsUndone(F, Reverse(s1), Swap(y));
    ReverseTwice(s1);
  }

  lemma FpJoinInjective(p: Pair, q: Pair)
    requires Sized(p) && Sized(q) && Fp(Join(p)) == Fp(Join(q))
    ensures p == q
  {
    hide Ip, Fp, Join, Halves;
    PermutationsInverse(Join(p));
    PermutationsInverse(Join(q));
    HalvesJoin(p);
    HalvesJoin(q);
  }

  /** Where the middle stage does not commute with the swap, the results differ, whatever the last key. */
  lemma MiddleDeparts(k1: seq<Groups>, k2: seq<Groups>, k3: seq<Groups>, b: Block, y: Pair)
    requires Sized(y) && Proper(F) && Rounds(F, k1, Halves(Ip(b))) == y
    requires Swap(Rounds(F, k2, Swap(y))) != Rounds(F, k2, y)
    ensures Crypt3(F, k1, k2, k3, b) != Crypt(F, k3, Crypt(F, k2, Crypt(F, k1, b)))
  {
    hide F, Ip, Fp, Join, Halves, Rounds, Proper;
    TripleInside(F, k1, k2, k3, b);
    var u, v := Rounds(F, k2, y), Swap(Rounds(F, k2, Swap(y)));
    if Crypt3(F, k1, k2, k3, b) == Crypt(F, k3, Crypt(F, k2, Crypt(F, k1, b))) {
      FpJoinInjective(Swap(Rounds(F, k3, u)), Swap(Rounds(F, k3, v)));
      RoundsInjective(F, k3, u, v);
    }
  }

  /** With a middle key of zeros, for every first and last key, the code's TDES differs from triple DES on some block. */
  lemma NotTriple(key1: Block, key2: Block, key3: Block)
    requires Zero(key2)
    ensures exists b: Block :: Departs(Subkeys(key1), Subkeys(key2), Subkeys(key3), b)
  {
    hide F, Orbit, Ip, Halves, Rounds, Crypt, Crypt3, Subkeys, Quiet, Reverse, Proper;
    ProperF();
    ZeroSubkeys(key2);
    var s1, s3 := Subkeys(key1), Subkeys(key3);
    var b := Reach(s1, Orbit(0));
    OrbitApart();
    OrbitTurns();
    OrbitRounds(0, 16);
    MiddleDeparts(s1, Quiet(16), s3, b, Orbit(0));
    assert Departs(s1, Subkeys(key2), s3, b);
  }
}
