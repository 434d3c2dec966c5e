/** `next_pow_of_2` of `muggle/c/base/utils.c` on 64-bit numbers, and exactly which numbers it rounds up correctly. */
module NextPow {
  import opened Ring

  const WORD: nat := 0x1_0000_0000_0000_0000

  // ------------------------------------------------------------------------- binary digits

  function Or(a: nat, b: nat): nat
    decreases a + b
  {
    if a == 0 then b else if b == 0 then a
    else (if a % 2 == 1 || b % 2 == 1 then 1 else 0) + 2 * Or(a / 2, b / 2)
  }

  predicate Bit(x: nat, i: nat)
    decreases i
  {
    if i == 0 then x % 2 == 1 else Bit(x / 2, i - 1)
  }

  function Right(x: nat, k: nat): nat
    decreases k
  {
    if k == 0 then x else Right(x / 2, k - 1)
  }

  lemma {:induction false} ZeroBit(i: nat)
    ensures !Bit(0, i)
    decreases i
  {
    if i > 0 {
      ZeroBit(i - 1);
    }
  }

  lemma {:induction false} OrBit(a: nat, b: nat, i: nat)
    ensures Bit(Or(a, b), i) == (Bit(a, i) || Bit(b, i))
    decreases i
  {
    if a == 0 || b == 0 {
      ZeroBit(i);
    } else if i > 0 {
      var c := Or(a, b);
      assert c / 2 == Or(a / 2, b / 2);
      OrBit(a / 2, b / 2, i - 1);
    }
  }

  lemma {:induction false} RightBit(x: nat, k: nat, i: nat)
    ensures Bit(Right(x, k), i) == Bit(x, i + k)
    decreases k
  {
    if k > 0 {
      RightBit(x / 2, k - 1, i);
    }
  }

  /** All bits set from position 0 to `t`. */
  lemma {:induction false} OnesValue(y: nat, t: nat)
    requires forall i | 0 <= i <= t :: Bit(y, i)
    requires y < Pow2(t + 1)
    ensures y + 1 == Pow2(t + 1)
    decreases t
  {
    assert Bit(y, 0);
    assert Pow2(t + 1) == 2 * Pow2(t);
    if t == 0 {
      assert Pow2(0) == 1;
    } else {
      forall i | 0 <= i <= t - 1 ensures Bit(y / 2, i) {
        assert Bit(y, i + 1);
      }
      OnesValue(y / 2, t - 1);
    }
  }

  /** A number of `t` + 1 bits with a zero among them is not the last one of that size. */
  lemma {:induction false} GapValue(y: nat, t: nat, i: nat)
    requires i <= t && !Bit(y, i) && y < Pow2(t + 1)
    ensures y + 1 < Pow2(t + 1)
    decreases t
  {
    var p := Pow2(t);
    assert Pow2(t + 1) == 2 * p;
    hide Pow2;
    if i > 0 {
      assert y / 2 < p;
      GapValue(y / 2, t - 1, i - 1);
    }
  }

  /** The top bit bounds the number on both sides. */
  lemma {:induction false} TopValue(y: nat, t: nat)
    requires Pow2(t) <= y < Pow2(t + 1)
    ensures Bit(y, t) && forall j | j > t :: !Bit(y, j)
    decreases t
  {
    assert Pow2(t + 1) == 2 * Pow2(t);
    if t == 0 {
      assert y == 1;
      forall j | j > t ensures !Bit(y, j) {
        ZeroBit(j - 1);
      }
    } else {
      TopValue(y / 2, t - 1);
      forall j | j > t ensures !Bit(y, j) {
        assert !Bit(y / 2, j - 1);
      }
    }
  }

  /** Conversely, a number without bits above `t` is below the next power of two. */
  lemma {:induction false} BelowTop(y: nat, t: nat)
    requires forall j | j > t :: !Bit(y, j)
    ensures y < Pow2(t + 1)
    decreases t
  {
    assert Pow2(t + 1) == 2 * Pow2(t);
    if t == 0 {
      assert y / 2 == 0 by {
        forall j: nat ensures !Bit(y / 2, j) {
          assert !Bit(y, j + 1);
        }
        NoBits(y / 2);
      }
    } else {
      forall j | j > t - 1 ensures !Bit(y / 2, j) {
        assert !Bit(y, j + 1);
      }
      BelowTop(y / 2, t - 1);
    }
  }

  lemma {:induction false} NoBits(y: nat)
    requires forall j: nat :: !Bit(y, j)
    ensures y == 0
    decreases y
  {
    if y > 0 {
      assert !Bit(y, 0);
      forall j: nat ensures !Bit(y / 2, j) {
        assert !Bit(y, j + 1);
      }
      NoBits(y / 2);
    }
  }

  lemma {:induction false} AtLeastTop(y: nat, t: nat)
    requires Bit(y, t)
    ensures y >= Pow2(t)
    decreases t
  {
    if t > 0 {
      AtLeastTop(y / 2, t - 1);
    }
  }

  /** Every positive number has a top bit. */
  lemma {:induction false} HasTop(x: nat) returns (t: nat)
    requires x > 0
    ensures Pow2(t) <= x < Pow2(t + 1)
    decreases x
  {
    if x == 1 {
      t := 0;
    } else {
      var u := HasTop(x / 2);
      t := u + 1;
      assert Pow2(u + 2) == 2 * Pow2(u + 1);
    }
  }

  // ------------------------------------------------------------------------- smearing

  /** `IS_POW_OF_2`. */
  predicate IsPowTest(x: nat) { x == 0 || And(x, x - 1) == 0 }

  function Spread(x: nat, k: nat): nat { Or(x, Right(x, k)) }

  function Smear(x: nat): nat { Spread(Spread(Spread(Spread(Spread(x, 1), 2), 4), 8), 16) }

  function NextPow2(x: nat): nat {
    if IsPowTest(x) then x else (Smear(x) + 1) % WORD
  }

  /** `x` has a bit among the `k` positions from `i` on. */
  ghost predicate Window(x: nat, i: nat, k: nat) { exists j | i <= j < i + k :: Bit(x, j) }

  ghost predicate Covers(y: nat, x: nat, k: nat) { forall i: nat :: Bit(y, i) <==> Window(x, i, k) }

  lemma WindowJoin(x: nat, i: nat, k: nat)
    ensures Window(x, i, 2 * k) <==> Window(x, i, k) || Window(x, i + k, k)
  {
  }

  lemma CoversDouble(y: nat, x: nat, k: nat)
    requires Covers(y, x, k)
    ensures Covers(Spread(y, k), x, 2 * k)
  {
    hide Window;
    forall i: nat ensures Bit(Spread(y, k), i) <==> Window(x, i, 2 * k) {
      OrBit(y, Right(y, k), i);
      RightBit(y, k, i);
      WindowJoin(x, i, k);
    }
  }

  lemma CoversSelf(x: nat)
    ensures Covers(x, x, 1)
  {
    forall i: nat ensures Bit(x, i) <==> Window(x, i, 1) {
      assert i <= i < i + 1;
    }
  }

  /** After shifts by 1, 2, 4, 8 and 16 every bit has looked 31 positions up. */
  lemma SmearCovers(x: nat)
    ensures Covers(Smear(x), x, 32)
  {
    hide Spread, Covers;
    CoversSelf(x);
    CoversDouble(x, x, 1);
    var a := Spread(x, 1);
    CoversDouble(a, x, 2);
    var b := Spread(a, 2);
    CoversDouble(b, x, 4);
    var c := Spread(b, 4);
    CoversDouble(c, x, 8);
    var d := Spread(c, 8);
    CoversDouble(d, x, 16);
  }

  lemma SmearTop(x: nat, t: nat)
    requires Pow2(t) <= x < Pow2(t + 1)
    ensures Pow2(t) <= Smear(x) < Pow2(t + 1)
  {
    hide Smear, Pow2;
    SmearCovers(x);
    TopValue(x, t);
    assert Window(x, t, 32);
    AtLeastTop(Smear(x), t);
    forall j | j > t ensures !Bit(Smear(x), j) {
      assert Bit(Smear(x), j) <==> Window(x, j, 32);
    }
    BelowTop(Smear(x), t);
  }

  // ------------------------------------------------------------------------- powers of two

  ghost predicate IsPow(r: nat) { exists k: nat :: r == Pow2(k) }

  lemma {:induction false} AndSelf(x: nat)
    ensures And(x, x) == x
    decreases x
  {
    if x > 0 {
      AndSelf(x / 2);
    }
  }

  lemma PowDouble(r: nat)
    ensures IsPow(2 * r) <==> IsPow(r)
  {
    if IsPow(r) {
      var k: nat :| r == Pow2(k);
      assert 2 * r == Pow2(k + 1);
    }
    if IsPow(2 * r) {
      var k: nat :| 2 * r == Pow2(k);
      assert k > 0 && r == Pow2(k - 1);
    }
  }

  lemma OddPow(r: nat)
    requires r % 2 == 1
    ensures IsPow(r) <==> r == 1
  {
    assert Pow2(0) == 1;
    if IsPow(r) {
      var k: nat :| r == Pow2(k);
      PowEven(k);
    }
  }

  lemma PowEven(k: nat)
    ensures k > 0 ==> Pow2(k) % 2 == 0
  {
  }

  /** The test recognises the powers of two, and zero. */
  lemma {:induction false} IsPowTestExactly(x: nat)
    ensures IsPowTest(x) <==> x == 0 || IsPow(x)
    decreases x
  {
    hide IsPow;
    if x > 0 {
      var m := x / 2;
      if x % 2 == 1 {
        OddPow(x);
        AndSelf(m);
        assert (x - 1) / 2 == m && (x - 1) % 2 == 0;
        assert x > 1 ==> And(x, x - 1) == 2 * And(m, m);
      } else {
        PowDouble(m);
        IsPowTestExactly(m);
        assert (x - 1) / 2 == m - 1 && (x - 1) % 2 == 1;
        assert And(x, x - 1) == 2 * And(m, m - 1);
      }
    }
  }

  lemma {:induction false} PowGrows(i: nat, j: nat)
    requires i < j
    ensures Pow2(i) < Pow2(j)
    decreases j
  {
    if i < j - 1 {
      PowGrows(i, j - 1);
    }
  }

  /** Strictly between two neighbours there is no power of two. */
  lemma NoPowBetween(r: nat, t: nat)
    requires Pow2(t) < r < Pow2(t + 1)
    ensures !IsPow(r)
  {
    hide Pow2;
    if IsPow(r) {
      var k: nat :| r == Pow2(k);
      if k < t {
        PowGrows(k, t);
      } else if k > t + 1 {
        PowGrows(t + 1, k);
      }
    }
  }

  // ------------------------------------------------------------------------- what is right

  /** The least power of two that is not below `x`. */
  ghost predicate RoundsUp(x: nat, r: nat) { IsPow(r) && x <= r && forall k: nat | x <= Pow2(k) :: r <= Pow2(k) }

  /** Below its top bit `x` has no 32 zeros in a row: no shift leaves a nonzero number whose low word is zero. */
  ghost predicate Solid(x: nat) { forall i: nat | Right(x, i) > 0 :: Window(x, i, 32) }

  lemma {:induction false} RightTop(x: nat, t: nat, i: nat)
    requires Pow2(t) <= x < Pow2(t + 1)
    ensures Right(x, i) > 0 <==> i <= t
    decreases i
  {
    if i > 0 {
      if t == 0 {
        assert x / 2 == 0;
        RightZero(i - 1);
      } else {
        RightTop(x / 2, t - 1, i - 1);
      }
    }
  }

  lemma {:induction false} RightZero(i: nat)
    ensures Right(0, i) == 0
    decreases i
  {
    if i > 0 {
      RightZero(i - 1);
    }
  }

  lemma SelfRoundsUp(x: nat)
    requires IsPow(x)
    ensures RoundsUp(x, x)
  {
  }

  lemma NextRoundsUp(x: nat, t: nat)
    requires Pow2(t) < x < Pow2(t + 1)
    ensures RoundsUp(x, Pow2(t + 1))
  {
    hide Pow2;
    forall k: nat | x <= Pow2(k) ensures Pow2(t + 1) <= Pow2(k) {
      if k < t {
        PowGrows(k, t);
      } else if k > t + 1 {
        PowGrows(t + 1, k);
      }
    }
  }

  /** Above a power of two and below the next, smearing plus one is that next power exactly for solid numbers. */
  lemma SmearExactly(x: nat, t: nat)
    requires Pow2(t) < x < Pow2(t + 1)
    ensures Pow2(t) <= Smear(x) && Smear(x) + 1 <= Pow2(t + 1)
    ensures Smear(x) + 1 == Pow2(t + 1) <==> Solid(x)
    ensures !Solid(x) ==> !IsPow(Smear(x) + 1)
  {
    hide Smear, Pow2, Window;
    SmearTop(x, t);
    SmearCovers(x);
    var y := Smear(x);
    if Solid(x) {
      forall i | 0 <= i <= t ensures Bit(y, i) {
        RightTop(x, t, i);
      }
      OnesValue(y, t);
    } else {
      var i: nat :| Right(x, i) > 0 && !Window(x, i, 32);
      RightTop(x, t, i);
      GapValue(y, t, i);
      NoPowBetween(y + 1, t);
    }
  }

  /** `next_pow_of_2` is right exactly for powers of two and for solid numbers below 2^63. */
  lemma NextPow2Exactly(x: nat)
    requires x < WORD
    ensures RoundsUp(x, NextPow2(x)) <==> x > 0 && (IsPow(x) || (Solid(x) && x < WORD / 2))
  {
    hide Smear, Pow2, Solid;
    IsPowTestExactly(x);
    if x == 0 {
      ZeroNoPow();
    } else if IsPow(x) {
      SelfRoundsUp(x);
    } else {
      var t := HasTop(x);
      SmearExactly(x, t);
      NextRoundsUp(x, t);
      PowWords();
      if t > 63 {
        PowGrows(64, t + 1);
        PowOrder(64, t);
      } else if t == 63 {
        Unreached(x, Smear(x) + 1);
      } else {
        PowOrder(t + 1, 63);
      }
    }
  }

  /** `next_pow_of_2`. */
  method NextPowOf2(x: nat) returns (r: nat)
    requires x < WORD
    ensures RoundsUp(x, r) <==> x > 0 && (IsPow(x) || (Solid(x) && x < WORD / 2))
    ensures 0 < x <= 0x1_0000_0000 ==> RoundsUp(x, r)
  {
    hide RoundsUp, Or, Right, IsPow, Solid;
    NextPow2Exactly(x);
    if 0 < x <= 0x1_0000_0000 {
      SmallIsRight(x);
    }
    if IsPowTest(x) {
      return x;
    }
    var y := x;
    y := Or(y, Right(y, 1));
    y := Or(y, Right(y, 2));
    y := Or(y, Right(y, 4));
    y := Or(y, Right(y, 8));
    y := Or(y, Right(y, 16));
    return (y + 1) % WORD;
  }

  lemma ZeroNoPow()
    ensures !IsPow(0)
  {
  }

  lemma PowOrder(i: nat, j: nat)
    requires i <= j
    ensures Pow2(i) <= Pow2(j)
  {
    if i < j {
      PowGrows(i, j);
    }
  }

  lemma Unreached(x: nat, r: nat)
    requires Pow2(63) < x < WORD && Pow2(63) < r <= WORD && Pow2(64) == WORD
    ensures !RoundsUp(x, r % WORD)
  {
    if r < WORD {
      NoPowBetween(r, 63);
    } else {
      ZeroNoPow();
    }
  }

  /** The 32-bit capacities of the pools and rings are rounded correctly. */
  lemma SmallIsRight(x: nat)
    requires 0 < x <= 0x1_0000_0000
    ensures RoundsUp(x, NextPow2(x))
  {
    hide Pow2, NextPow2, RoundsUp;
    NextPow2Exactly(x);
    if !IsPow(x) {
      var t := HasTop(x);
      SmallTop(x, t);
      TopValue(x, t);
      forall i: nat | Right(x, i) > 0 ensures Window(x, i, 32) {
        RightTop(x, t, i);
      }
    }
  }

  lemma SmallTop(x: nat, t: nat)
    requires Pow2(t) <= x <= 0x1_0000_0000 && !IsPow(x)
    ensures t < 32
  {
    hide Pow2;
    PowWords();
    if t >= 32 {
      PowOrder(32, t);
      assert false;
    }
  }

  lemma {:induction false} PowBit(m: nat, j: nat)
    ensures Bit(Pow2(m), j) <==> j == m
    decreases j
  {
    if m == 0 {
      if j > 0 {
        ZeroBit(j - 1);
      }
    } else if j > 0 {
      PowBit(m - 1, j - 1);
    }
  }

  /** A failing family: one more than a power of two from 2^33 on. */
  lemma LargeFails(t: nat)
    requires 33 <= t < 64
    ensures Pow2(t) + 1 < WORD && !RoundsUp(Pow2(t) + 1, NextPow2(Pow2(t) + 1))
  {
    var x := Pow2(t) + 1;
    hide Pow2, NextPow2, RoundsUp, Solid, IsPow;
    PowWords();
    PowOrder(t, 63);
    PowOrder(1, t);
    PowTwo();
    NoPowBetweenNext(x, t);
    LargeNotSolid(t);
    NextPow2Exactly(x);
  }

  lemma LargeNotSolid(t: nat)
    requires t >= 33
    ensures !Solid(Pow2(t) + 1)
  {
    var x := Pow2(t) + 1;
    assert x / 2 == Pow2(t - 1);
    assert Right(x, 1) == Pow2(t - 1);
    hide Pow2;
    PowPositive(t - 1);
    forall j | 1 <= j < 33 ensures !Bit(x, j) {
      PowBit(t - 1, j - 1);
    }
    assert !Window(x, 1, 32);
  }

  lemma PowPositive(k: nat)
    ensures Pow2(k) > 0
  {
  }

  lemma PowTwo()
    ensures Pow2(1) == 2
  {
    assert Pow2(0) == 1;
  }

  lemma NoPowBetweenNext(x: nat, t: nat)
    requires x == Pow2(t) + 1 && Pow2(t) >= 2
    ensures !IsPow(x)
  {
    assert Pow2(t + 1) == 2 * Pow2(t);
    NoPowBetween(x, t);
  }
}
