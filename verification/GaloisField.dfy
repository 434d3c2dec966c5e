/**
 * Multiplication in GF(2^8) as `muggle/c/crypt/internal/internal_aes.c` does it. The reference is the textbook one:
 * the carry-less product of two polynomials over GF(2), reduced modulo x^8 + x^4 + x^3 + x + 1.
 */
module GaloisField {

  type Byte = bv8

  // ------------------------------------------------------------------------- exclusive or and shift

  function Xor(a: Byte, b: Byte): Byte { a ^ b }

  function Left(a: Byte): Byte { a << 1 }

  /** The coefficient of x^7, as a polynomial. */
  function Top(a: Byte): Byte { a >> 7 }

  lemma XorAssoc(a: Byte, b: Byte, c: Byte)
    ensures Xor(Xor(a, b), c) == Xor(a, Xor(b, c))
  {
  }

  lemma XorComm(a: Byte, b: Byte)
    ensures Xor(a, b) == Xor(b, a)
  {
  }

  lemma XorSwap(a: Byte, b: Byte, c: Byte, d: Byte)
    ensures Xor(Xor(a, b), Xor(c, d)) == Xor(Xor(a, c), Xor(b, d))
  {
    hide Xor;
    XorAssoc(a, b, Xor(c, d));
    XorAssoc(b, c, d);
    XorComm(b, c);
    XorAssoc(c, b, d);
    XorAssoc(a, c, Xor(b, d));
  }

  lemma XorZero(a: Byte)
    ensures Xor(a, 0) == a && Xor(0, a) == a && Xor(a, a) == 0
  {
  }

  lemma LeftLinear(x: Byte, y: Byte)
    ensures Left(Xor(x, y)) == Xor(Left(x), Left(y))
  {
  }

  lemma TopLinear(x: Byte, y: Byte)
    ensures Top(Xor(x, y)) == Xor(Top(x), Top(y))
  {
  }

  // ------------------------------------------------------------------------- polynomials of degree below 16

  /** Coefficients of x^15 .. x^8 and of x^7 .. x^0. */
  datatype Poly = Poly(hi: Byte, lo: Byte)

  function Add(p: Poly, q: Poly): Poly { Poly(Xor(p.hi, q.hi), Xor(p.lo, q.lo)) }

  /** Times x. */
  function Shift(p: Poly): Poly { Poly(Xor(Left(p.hi), Top(p.lo)), Left(p.lo)) }

  /** h * (x^4 + x^3 + x + 1): the coefficients below x^8. */
  function Spread(h: Byte): Byte { Xor(Xor(h, Left(h)), Xor(Left(Left(Left(h))), Left(Left(Left(Left(h)))))) }

  /** h * (x^4 + x^3 + x + 1): the coefficients of x^8 and up. */
  function Spill(h: Byte): Byte { (h >> 7) ^ (h >> 5) ^ (h >> 4) }

  /** x^8 * h, reduced: x^8 is congruent to x^4 + x^3 + x + 1, and so again for what spills over x^7. */
  function Wrap(h: Byte): Byte { Xor(Spread(h), Spread(Spill(h))) }

  function Residue(p: Poly): Byte { Xor(p.lo, Wrap(p.hi)) }

  /** The polynomial product of the lowest `n` coefficients of `a` with `p`. */
  function Carryless(a: Byte, p: Poly, n: nat): Poly
    decreases n
  {
    if n == 0 then Poly(0, 0)
    else if a & 1 != 0 then Add(p, Carryless(a >> 1, Shift(p), n - 1))
    else Carryless(a >> 1, Shift(p), n - 1)
  }

  /** The product in the field. */
  function Product(a: Byte, b: Byte): Byte { Residue(Carryless(a, Poly(0, b), 8)) }

  // ------------------------------------------------------------------------- linearity

  lemma SpreadLinear(x: Byte, y: Byte)
    ensures Spread(Xor(x, y)) == Xor(Spread(x), Spread(y))
  {
    hide Xor, Left;
    LeftLinear(x, y);
    LeftLinear(Left(x), Left(y));
    LeftLinear(Left(Left(x)), Left(Left(y)));
    LeftLinear(Left(Left(Left(x))), Left(Left(Left(y))));
    XorSwap(x, y, Left(x), Left(y));
    XorSwap(Left(Left(Left(x))), Left(Left(Left(y))), Left(Left(Left(Left(x)))), Left(Left(Left(Left(y)))));
    XorSwap(Xor(x, Left(x)), Xor(y, Left(y)), Xor(Left(Left(Left(x))), Left(Left(Left(Left(x))))),
            Xor(Left(Left(Left(y))), Left(Left(Left(Left(y))))));
  }

  lemma SpillLinear(x: Byte, y: Byte)
    ensures Spill(Xor(x, y)) == Xor(Spill(x), Spill(y))
  {
  }

  lemma WrapLinear(x: Byte, y: Byte)
    ensures Wrap(Xor(x, y)) == Xor(Wrap(x), Wrap(y))
  {
    hide Xor, Spread, Spill;
    SpreadLinear(x, y);
    SpillLinear(x, y);
    SpreadLinear(Spill(x), Spill(y));
    XorSwap(Spread(x), Spread(y), Spread(Spill(x)), Spread(Spill(y)));
  }

  lemma ResidueLinear(p: Poly, q: Poly)
    ensures Residue(Add(p, q)) == Xor(Residue(p), Residue(q))
  {
    hide Xor, Wrap;
    WrapLinear(p.hi, q.hi);
    XorSwap(p.lo, q.lo, Wrap(p.hi), Wrap(q.hi));
  }

  // ------------------------------------------------------------------------- times x

  /** Times x in the field. */
  function Twice(b: Byte): Byte { Xor(Left(b), Wrap(Top(b))) }

  /** The branch the loop takes. */
  lemma TwiceBranch(b: Byte)
    ensures Twice(b) == if b & 0x80 != 0 then (b << 1) ^ 0x1b else b << 1
  {
    assert b & 0x80 == 0 ==> Top(b) == 0;
    assert b & 0x80 != 0 ==> Top(b) == 1;
    assert Wrap(0) == 0;
    assert Wrap(1) == 0x1b;
  }

  lemma TwiceLinear(x: Byte, y: Byte)
    ensures Twice(Xor(x, y)) == Xor(Twice(x), Twice(y))
  {
    hide Xor, Left, Top, Wrap;
    LeftLinear(x, y);
    TopLinear(x, y);
    WrapLinear(Top(x), Top(y));
    XorSwap(Left(x), Left(y), Wrap(Top(x)), Wrap(Top(y)));
  }

  lemma TwiceWrap(h: Byte)
    requires h & 0x80 == 0
    ensures Twice(Wrap(h)) == Wrap(Left(h))
  {
  }

  /** Reduction commutes with times x while no coefficient falls off the top. */
  lemma ResidueTwice(p: Poly)
    requires p.hi & 0x80 == 0
    ensures Residue(Shift(p)) == Twice(Residue(p))
  {
    hide Xor, Left, Top, Wrap;
    WrapLinear(Left(p.hi), Top(p.lo));
    TwiceLinear(p.lo, Wrap(p.hi));
    TwiceWrap(p.hi);
    XorComm(Wrap(Left(p.hi)), Wrap(Top(p.lo)));
    XorAssoc(Left(p.lo), Wrap(Top(p.lo)), Wrap(Left(p.hi)));
  }

  lemma ResidueSmall(b: Byte)
    ensures Residue(Poly(0, b)) == b
  {
    assert Wrap(0) == 0;
    XorZero(b);
  }

  // ------------------------------------------------------------------------- the loop

  /** The sum of the multiples of `b` that the lowest `n` bits of `a` select. */
  function Peasant(a: Byte, b: Byte, n: nat): Byte
    decreases n
  {
    if n == 0 then 0
    else if a & 1 != 0 then Xor(b, Peasant(a >> 1, Twice(b), n - 1))
    else Peasant(a >> 1, Twice(b), n - 1)
  }

  /** The number of significant bits. */
  function Bits(a: Byte): nat {
    if a == 0 then 0 else if a < 2 then 1 else if a < 4 then 2 else if a < 8 then 3 else if a < 16 then 4
    else if a < 32 then 5 else if a < 64 then 6 else if a < 128 then 7 else 8
  }

  lemma BitsHalf(a: Byte)
    requires a != 0
    ensures Bits(a >> 1) == Bits(a) - 1
  {
  }

  lemma BitsShift(p: Poly)
    requires Bits(p.hi) < 8
    ensures p.hi & 0x80 == 0 && Bits(Shift(p).hi) <= Bits(p.hi) + 1
  {
    assert Top(p.lo) <= 1;
    BitsGrow(p.hi, Top(p.lo));
  }

  lemma BitsGrow(h: Byte, l: Byte)
    requires Bits(h) < 8 && l <= 1
    ensures h & 0x80 == 0 && Bits(Xor(Left(h), l)) <= Bits(h) + 1
  {
  }

  /** Reducing at every step is the same as reducing once at the end. */
  lemma {:induction false} PeasantIsResidue(a: Byte, p: Poly, n: nat)
    requires Bits(p.hi) + n <= 8
    ensures Peasant(a, Residue(p), n) == Residue(Carryless(a, p, n))
    decreases n
  {
    hide Residue, Twice, Bits, Add, Shift;
    if n == 0 {
      ResidueSmall(0);
    } else {
      BitsShift(p);
      ResidueTwice(p);
      PeasantIsResidue(a >> 1, Shift(p), n - 1);
      ResidueLinear(p, Carryless(a >> 1, Shift(p), n - 1));
    }
  }

  lemma PeasantIsProduct(a: Byte, b: Byte)
    ensures Peasant(a, b, 8) == Product(a, b)
  {
    hide Residue;
    PeasantIsResidue(a, Poly(0, b), 8);
    ResidueSmall(b);
  }

  lemma {:induction false} PeasantZero(b: Byte, n: nat)
    ensures Peasant(0, b, n) == 0
    decreases n
  {
    if n > 0 {
      assert (0 as Byte) >> 1 == 0;
      PeasantZero(Twice(b), n - 1);
    }
  }

  /** One turn of the loop. */
  lemma PeasantStep(r: Byte, x: Byte, y: Byte, n: nat)
    requires n > 0
    ensures Xor(r, Peasant(x, y, n)) == Xor(if x & 1 != 0 then Xor(r, y) else r, Peasant(x >> 1, Twice(y), n - 1))
  {
    hide Xor, Twice;
    XorAssoc(r, y, Peasant(x >> 1, Twice(y), n - 1));
  }

  /** `galois_mul`. */
  method GaloisMul(a: Byte, b: Byte) returns (r: Byte)
    ensures r == Product(a, b)
  {
    hide Xor, Twice, Peasant, Product, Bits;
    r := 0;
    var x, y, t := a, b, 0;
    ghost var n := 8;
    PeasantIsProduct(a, b);
    XorZero(Peasant(a, b, 8));
    assert Bits(a) <= 8 by { BitsAtMost(a); }
    while x != 0
      invariant Bits(x) <= n && Product(a, b) == Xor(r, Peasant(x, y, n))
      decreases Bits(x)
    {
      BitsHalf(x);
      PeasantStep(r, x, y, n);
      TwiceBranch(y);
      if x & 0x01 != 0 {
        r := Xor(r, y);
      }
      t := y & 0x80;
      y := y << 1;
      if t != 0 {
        y := y ^ 0x1b;
      }
      x := x >> 1;
      n := n - 1;
    }
    PeasantZero(y, n);
    XorZero(r);
  }

  lemma BitsAtMost(a: Byte)
    ensures Bits(a) <= 8
  {
  }

  // ------------------------------------------------------------------------- laws of the product

  lemma {:induction false} PeasantRight(a: Byte, x: Byte, y: Byte, n: nat)
    ensures Peasant(a, Xor(x, y), n) == Xor(Peasant(a, x, n), Peasant(a, y, n))
    decreases n
  {
    hide Xor, Twice;
    if n == 0 {
      XorZero(0);
    } else {
      TwiceLinear(x, y);
      PeasantRight(a >> 1, Twice(x), Twice(y), n - 1);
      XorSwap(x, y, Peasant(a >> 1, Twice(x), n - 1), Peasant(a >> 1, Twice(y), n - 1));
    }
  }

  lemma XorParts(a: Byte, b: Byte)
    ensures Xor(a, b) & 1 != 0 <==> ((a & 1 != 0) != (b & 1 != 0))
    ensures Xor(a, b) >> 1 == Xor(a >> 1, b >> 1)
  {
  }

  lemma {:induction false} PeasantLeft(a: Byte, b: Byte, x: Byte, n: nat)
    ensures Peasant(Xor(a, b), x, n) == Xor(Peasant(a, x, n), Peasant(b, x, n))
    decreases n
  {
    hide Xor, Twice;
    if n == 0 {
      XorZero(0);
    } else {
      XorParts(a, b);
      PeasantLeft(a >> 1, b >> 1, Twice(x), n - 1);
      var p, q := Peasant(a >> 1, Twice(x), n - 1), Peasant(b >> 1, Twice(x), n - 1);
      XorSwap(x, p, x, q);
      XorZero(x);
      XorZero(Xor(p, q));
      XorAssoc(x, p, q);
      XorSwap(0, p, x, q);
      XorZero(p);
    }
  }

  lemma {:induction false} PeasantShort(a: Byte, x: Byte, n: nat)
    requires Bits(a) <= n
    ensures Peasant(a, x, n + 1) == Peasant(a, x, n)
    decreases n
  {
    hide Xor, Twice, Bits;
    if a == 0 {
      PeasantZero(x, n + 1);
      PeasantZero(x, n);
    } else {
      BitsHalf(a);
      PeasantShort(a >> 1, Twice(x), n - 1);
    }
  }

  lemma BitsDouble(a: Byte)
    requires a < 128
    ensures Bits(a) <= 7 && (a << 1) & 1 == 0 && (a << 1) >> 1 == a
  {
  }

  /** Distributive on both sides. */
  lemma ProductLinear(a: Byte, b: Byte, x: Byte, y: Byte)
    ensures Product(a, Xor(x, y)) == Xor(Product(a, x), Product(a, y))
    ensures Product(Xor(a, b), x) == Xor(Product(a, x), Product(b, x))
  {
    hide Xor, Product, Peasant;
    PeasantIsProduct(a, x);
    PeasantIsProduct(a, y);
    PeasantIsProduct(b, x);
    PeasantIsProduct(a, Xor(x, y));
    PeasantIsProduct(Xor(a, b), x);
    PeasantRight(a, x, y, 8);
    PeasantLeft(a, b, x, 8);
  }

  lemma ProductOne(x: Byte)
    ensures Product(0, x) == 0 && Product(1, x) == x && Product(2, x) == Twice(x)
  {
    hide Xor, Twice, Peasant, Product;
    PeasantIsProduct(0, x);
    PeasantIsProduct(1, x);
    PeasantIsProduct(2, x);
    PeasantZero(x, 8);
    PeasantStep(0, 1, x, 8);
    PeasantZero(Twice(x), 7);
    PeasantStep(0, 2, x, 8);
    PeasantStep(0, 1, Twice(x), 7);
    PeasantZero(Twice(Twice(x)), 6);
    XorZero(x);
    XorZero(Twice(x));
    XorZero(Peasant(1, x, 8));
    XorZero(Peasant(2, x, 8));
    XorZero(Peasant(1, Twice(x), 7));
  }

  /** A factor x moves from one side to the other. */
  lemma ProductTwice(a: Byte, x: Byte)
    requires a < 128
    ensures Product(a, Product(2, x)) == Product(a << 1, x)
  {
    hide Xor, Twice, Product, Bits;
    ProductOne(x);
    BitsDouble(a);
    PeasantIsProduct(a, Twice(x));
    PeasantIsProduct(a << 1, x);
    PeasantShort(a, Twice(x), 7);
  }

  lemma ProductThrice(a: Byte, x: Byte)
    requires a < 128
    ensures Product(a, Product(3, x)) == Product(Xor(a, a << 1), x)
  {
    hide Twice, Product;
    assert Xor(1, 2) == 3;
    ProductLinear(1, 2, x, 0);
    ProductOne(x);
    ProductLinear(a, 0, x, Product(2, x));
    ProductTwice(a, x);
    ProductLinear(a, a << 1, x, 0);
  }

  lemma {:induction false} PeasantTwice(a: Byte, b: Byte, n: nat)
    ensures Peasant(a, Twice(b), n) == Twice(Peasant(a, b, n))
    decreases n
  {
    hide Xor, Twice;
    if n == 0 {
      TwiceZero();
    } else {
      PeasantTwice(a >> 1, Twice(b), n - 1);
      TwiceLinear(b, Peasant(a >> 1, Twice(b), n - 1));
    }
  }

  lemma TwiceZero()
    ensures Twice(0) == 0
  {
    TwiceBranch(0);
  }

  lemma {:induction false} PeasantOut(a: Byte, b: Byte, x: Byte, n: nat)
    ensures Product(a, Peasant(b, x, n)) == Peasant(b, Product(a, x), n)
    decreases n
  {
    hide Xor, Twice, Product;
    if n == 0 {
      ProductLinear(a, a, x, x);
      XorZero(x);
      XorZero(Product(a, x));
    } else {
      PeasantIsProduct(a, x);
      PeasantIsProduct(a, Twice(x));
      PeasantTwice(a, x, 8);
      PeasantOut(a, b >> 1, Twice(x), n - 1);
      ProductLinear(a, 0, x, Peasant(b >> 1, Twice(x), n - 1));
    }
  }

  /** Two factors may be applied in either order. */
  lemma ProductCommutes(a: Byte, b: Byte, x: Byte)
    ensures Product(a, Product(b, x)) == Product(b, Product(a, x))
  {
    hide Xor, Twice, Product, Peasant;
    PeasantIsProduct(b, x);
    PeasantIsProduct(b, Product(a, x));
    PeasantOut(a, b, x, 8);
  }
}
