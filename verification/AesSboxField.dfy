/** The substitution box is the one of section 5.1.1 of FIPS 197: the inverse in GF(2^8), then an affine map. */
module AesSboxField {
  import opened GaloisField
  import opened AesSbox

  function Turn(b: Byte, k: Byte): Byte
    requires k < 8
  {
    (b << k) | (b >> (8 - k))
  }

  /** The affine transformation. */
  function Affine(y: Byte): Byte { y ^ Turn(y, 1) ^ Turn(y, 2) ^ Turn(y, 3) ^ Turn(y, 4) ^ 0x63 }

  /** Its inverse. */
  function Unaffine(s: Byte): Byte { Turn(s, 1) ^ Turn(s, 3) ^ Turn(s, 6) ^ 0x05 }

  lemma AffineInverse(s: Byte)
    ensures Affine(Unaffine(s)) == s
  {
  }

  // ------------------------------------------------------------------------- the product, unrolled

  function Double(b: Byte): Byte { (b << 1) ^ (b >> 7) ^ ((b >> 7) << 1) ^ ((b >> 7) << 3) ^ ((b >> 7) << 4) }

  lemma DoubleIsTwice(b: Byte)
    ensures Double(b) == Twice(b)
  {
  }

  function If(a: Byte, v: Byte): Byte { if a & 1 != 0 then v else 0 }

  /** The lowest `n` bits of `a`, one after the other. */
  function Unrolled(a: Byte, y: Byte, n: nat): Byte
    decreases n
  {
    if n == 0 then 0 else If(a, y) ^ Unrolled(a >> 1, Double(y), n - 1)
  }

  lemma {:induction false} UnrolledIsPeasant(a: Byte, y: Byte, n: nat)
    ensures Unrolled(a, y, n) == Peasant(a, y, n)
    decreases n
  {
    hide Double, Twice;
    if n > 0 {
      DoubleIsTwice(y);
      UnrolledIsPeasant(a >> 1, Double(y), n - 1);
      XorZero(Peasant(a >> 1, Twice(y), n - 1));
    }
  }

  function Flat(a: Byte, y: Byte): Byte {
    var y1 := Double(y);
    var y2 := Double(y1);
    var y3 := Double(y2);
    var y4 := Double(y3);
    var y5 := Double(y4);
    var y6 := Double(y5);
    var y7 := Double(y6);
    Xor(If(a, y), Xor(If(a >> 1, y1), Xor(If(a >> 2, y2), Xor(If(a >> 3, y3),
    Xor(If(a >> 4, y4), Xor(If(a >> 5, y5), Xor(If(a >> 6, y6), If(a >> 7, y7))))))))
  }

  lemma UnrolledStep(a: Byte, y: Byte, n: nat)
    requires n > 0
    ensures Unrolled(a, y, n) == Xor(If(a, y), Unrolled(a >> 1, Double(y), n - 1))
    ensures n == 1 ==> Unrolled(a, y, n) == If(a, y)
  {
  }

  lemma Shifts(a: Byte)
    ensures (a >> 1) >> 1 == a >> 2 && (a >> 2) >> 1 == a >> 3 && (a >> 3) >> 1 == a >> 4
    ensures (a >> 4) >> 1 == a >> 5 && (a >> 5) >> 1 == a >> 6 && (a >> 6) >> 1 == a >> 7
  {
  }

  lemma FlatIsProduct(a: Byte, y: Byte)
    ensures Flat(a, y) == Product(a, y)
  {
    hide Xor, If, Double, Unrolled, Peasant, Product;
    Shifts(a);
    var y1 := Double(y);
    var y2 := Double(y1);
    var y3 := Double(y2);
    var y4 := Double(y3);
    var y5 := Double(y4);
    var y6 := Double(y5);
    UnrolledStep(a, y, 8);
    UnrolledStep(a >> 1, y1, 7);
    UnrolledStep(a >> 2, y2, 6);
    UnrolledStep(a >> 3, y3, 5);
    UnrolledStep(a >> 4, y4, 4);
    UnrolledStep(a >> 5, y5, 3);
    UnrolledStep(a >> 6, y6, 2);
    UnrolledStep(a >> 7, Double(y6), 1);
    UnrolledIsPeasant(a, y, 8);
    PeasantIsProduct(a, y);
  }

  // ------------------------------------------------------------------------- the table, a row at a time

  /** The entry of index `b`, undone and multiplied by the index. */
  function Undone(b: Byte): Byte { Flat(b, Unaffine(Sbox(b))) }

  lemma Row0(b: Byte)
    requires 0 < b < 0x10
    ensures Undone(b) == 1
  {
  }

  lemma Row1(b: Byte)
    requires 0x10 <= b < 0x20
    ensures Undone(b) == 1
  {
  }

  lemma Row2(b: Byte)
    requires 0x20 <= b < 0x30
    ensures Undone(b) == 1
  {
  }

  lemma Row3(b: Byte)
    requires 0x30 <= b < 0x40
    ensures Undone(b) == 1
  {
  }

  lemma Row4(b: Byte)
    requires 0x40 <= b < 0x50
    ensures Undone(b) == 1
  {
  }

  lemma Row5(b: Byte)
    requires 0x50 <= b < 0x60
    ensures Undone(b) == 1
  {
  }

  lemma Row6(b: Byte)
    requires 0x60 <= b < 0x70
    ensures Undone(b) == 1
  {
  }

  lemma Row7(b: Byte)
    requires 0x70 <= b < 0x80
    ensures Undone(b) == 1
  {
  }

  lemma Row8(b: Byte)
    requires 0x80 <= b < 0x90
    ensures Undone(b) == 1
  {
  }

  lemma Row9(b: Byte)
    requires 0x90 <= b < 0xa0
    ensures Undone(b) == 1
  {
  }

  lemma Row10(b: Byte)
    requires 0xa0 <= b < 0xb0
    ensures Undone(b) == 1
  {
  }

  lemma Row11(b: Byte)
    requires 0xb0 <= b < 0xc0
    ensures Undone(b) == 1
  {
  }

  lemma Row12(b: Byte)
    requires 0xc0 <= b < 0xd0
    ensures Undone(b) == 1
  {
  }

  lemma Row13(b: Byte)
    requires 0xd0 <= b < 0xe0
    ensures Undone(b) == 1
  {
  }

  lemma Row14(b: Byte)
    requires 0xe0 <= b < 0xf0
    ensures Undone(b) == 1
  {
  }

  lemma Row15(b: Byte)
    requires 0xf0 <= b
    ensures Undone(b) == 1
  {
  }

  lemma EveryRow(b: Byte)
    requires b != 0
    ensures Undone(b) == 1
  {
    hide Undone;
    if b < 0x10 {
      Row0(b);
    } else if b < 0x20 {
      Row1(b);
    } else if b < 0x30 {
      Row2(b);
    } else if b < 0x40 {
      Row3(b);
    } else if b < 0x50 {
      Row4(b);
    } else if b < 0x60 {
      Row5(b);
    } else if b < 0x70 {
      Row6(b);
    } else if b < 0x80 {
      Row7(b);
    } else if b < 0x90 {
      Row8(b);
    } else if b < 0xa0 {
      Row9(b);
    } else if b < 0xb0 {
      Row10(b);
    } else if b < 0xc0 {
      Row11(b);
    } else if b < 0xd0 {
      Row12(b);
    } else if b < 0xe0 {
      Row13(b);
    } else if b < 0xf0 {
      Row14(b);
    } else {
      Row15(b);
    }
  }

  /** Every entry of the table is the affine image of the field inverse of its index, and of zero for zero. */
  lemma SboxIsAffineInverse(b: Byte)
    ensures exists y :: (if b == 0 then y == 0 else Product(b, y) == 1) && Sbox(b) == Affine(y)
  {
    hide Flat, Sbox, Affine, Unaffine, Product;
    if b == 0 {
      ZeroEntry();
    } else {
      var y := Unaffine(Sbox(b));
      AffineInverse(Sbox(b));
      FlatIsProduct(b, y);
      EveryRow(b);
    }
  }

  lemma ZeroEntry()
    ensures Sbox(0) == Affine(0) == 0x63
  {
  }
}
