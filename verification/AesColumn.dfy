/** The column matrices of AES: `muggle_aes_inv_mix_column` undoes `muggle_aes_mix_column`, column by column. */
module AesColumn {
  import opened GaloisField

  const Mixing: seq<Byte> := [
    0x02, 0x03, 0x01, 0x01,
    0x01, 0x02, 0x03, 0x01,
    0x01, 0x01, 0x02, 0x03,
    0x03, 0x01, 0x01, 0x02]

  const Unmixing: seq<Byte> := [
    0x0e, 0x0b, 0x0d, 0x09,
    0x09, 0x0e, 0x0b, 0x0d,
    0x0d, 0x09, 0x0e, 0x0b,
    0x0b, 0x0d, 0x09, 0x0e]

  function Sum(p: Byte, q: Byte, r: Byte, s: Byte): Byte { Xor(Xor(Xor(p, q), r), s) }

  /** Row `i` of the matrix times the column (a, b, c, d). */
  function Row(m: seq<Byte>, i: nat, a: Byte, b: Byte, c: Byte, d: Byte): Byte
    requires |m| == 16 && i < 4
  {
    Sum(Product(m[4 * i], a), Product(m[4 * i + 1], b), Product(m[4 * i + 2], c), Product(m[4 * i + 3], d))
  }

  // ------------------------------------------------------------------------- linearity

  lemma SumSwap(p: Byte, q: Byte, r: Byte, s: Byte, p': Byte, q': Byte, r': Byte, s': Byte)
    ensures Sum(Xor(p, p'), Xor(q, q'), Xor(r, r'), Xor(s, s')) == Xor(Sum(p, q, r, s), Sum(p', q', r', s'))
  {
    hide Xor;
    XorSwap(p, p', q, q');
    XorSwap(Xor(p, q), Xor(p', q'), r, r');
    XorSwap(Xor(Xor(p, q), r), Xor(Xor(p', q'), r'), s, s');
  }

  lemma SumTurn(p: Byte, q: Byte, r: Byte, s: Byte)
    ensures Sum(p, q, r, s) == Sum(q, r, s, p)
  {
    hide Xor;
    XorComm(Xor(Xor(q, r), s), p);
    XorAssoc(p, Xor(q, r), s);
    XorAssoc(p, q, r);
  }

  lemma RowLinear(m: seq<Byte>, i: nat, a: Byte, b: Byte, c: Byte, d: Byte, a': Byte, b': Byte, c': Byte, d': Byte)
    requires |m| == 16 && i < 4
    ensures Row(m, i, Xor(a, a'), Xor(b, b'), Xor(c, c'), Xor(d, d'))
            == Xor(Row(m, i, a, b, c, d), Row(m, i, a', b', c', d'))
  {
    hide Xor, Product, Sum;
    ProductLinear(m[4 * i], 0, a, a');
    ProductLinear(m[4 * i + 1], 0, b, b');
    ProductLinear(m[4 * i + 2], 0, c, c');
    ProductLinear(m[4 * i + 3], 0, d, d');
    SumSwap(Product(m[4 * i], a), Product(m[4 * i + 1], b), Product(m[4 * i + 2], c), Product(m[4 * i + 3], d),
            Product(m[4 * i], a'), Product(m[4 * i + 1], b'), Product(m[4 * i + 2], c'), Product(m[4 * i + 3], d'));
  }

  lemma RowOfSums(m: seq<Byte>, i: nat, p: seq<Byte>, q: seq<Byte>, r: seq<Byte>, s: seq<Byte>)
    requires |m| == 16 && i < 4 && |p| == |q| == |r| == |s| == 4
    ensures Row(m, i, Sum(p[0], q[0], r[0], s[0]), Sum(p[1], q[1], r[1], s[1]),
                Sum(p[2], q[2], r[2], s[2]), Sum(p[3], q[3], r[3], s[3]))
            == Sum(Row(m, i, p[0], p[1], p[2], p[3]), Row(m, i, q[0], q[1], q[2], q[3]),
                   Row(m, i, r[0], r[1], r[2], r[3]), Row(m, i, s[0], s[1], s[2], s[3]))
  {
    hide Xor, Row;
    RowLinear(m, i, p[0], p[1], p[2], p[3], q[0], q[1], q[2], q[3]);
    RowLinear(m, i, Xor(p[0], q[0]), Xor(p[1], q[1]), Xor(p[2], q[2]), Xor(p[3], q[3]), r[0], r[1], r[2], r[3]);
    RowLinear(m, i, Xor(Xor(p[0], q[0]), r[0]), Xor(Xor(p[1], q[1]), r[1]), Xor(Xor(p[2], q[2]), r[2]),
              Xor(Xor(p[3], q[3]), r[3]), s[0], s[1], s[2], s[3]);
  }

  // ------------------------------------------------------------------------- the product of the matrices

  lemma SumOfProducts(a: Byte, b: Byte, c: Byte, d: Byte, x: Byte)
    ensures Sum(Product(a, x), Product(b, x), Product(c, x), Product(d, x)) == Product(Sum(a, b, c, d), x)
  {
    hide Xor, Product;
    ProductLinear(a, b, x, x);
    ProductLinear(Xor(a, b), c, x, x);
    ProductLinear(Xor(Xor(a, b), c), d, x, x);
  }

  /** Each row is the row above it, one place to the right. */
  ghost predicate Circulant(m: seq<Byte>) {
    && |m| == 16
    && m[4] == m[3] && m[5] == m[0] && m[6] == m[1] && m[7] == m[2]
    && m[8] == m[2] && m[9] == m[3] && m[10] == m[0] && m[11] == m[1]
    && m[12] == m[1] && m[13] == m[2] && m[14] == m[3] && m[15] == m[0]
  }

  lemma BothCirculant()
    ensures Circulant(Mixing) && Circulant(Unmixing)
  {
  }

  /** Column `j` of a matrix, times one byte. */
  function Scaled(w: seq<Byte>, j: nat, x: Byte): (v: seq<Byte>)
    requires |w| == 16 && j < 4
    ensures |v| == 4
  {
    [Product(w[j], x), Product(w[4 + j], x), Product(w[8 + j], x), Product(w[12 + j], x)]
  }

  /** The first row of `m` times the columns of `w` is the first row of the identity matrix. */
  ghost predicate FirstRow(m: seq<Byte>, w: seq<Byte>, x: Byte)
    requires |m| == |w| == 16
  {
    forall j | 0 <= j < 4 :: FirstRowAt(m, w, x, j)
  }

  ghost predicate FirstRowAt(m: seq<Byte>, w: seq<Byte>, x: Byte, j: nat)
    requires |m| == |w| == 16 && j < 4
  {
    var v := Scaled(w, j, x);
    Row(m, 0, v[0], v[1], v[2], v[3]) == if j == 0 then x else 0
  }

  lemma Times(a: Byte, x: Byte)
    requires a < 16
    ensures Product(a, Product(1, x)) == Product(a, x) && Product(1, Product(a, x)) == Product(a, x)
    ensures Product(a, Product(2, x)) == Product(a << 1, x) && Product(2, Product(a, x)) == Product(a << 1, x)
    ensures Product(a, Product(3, x)) == Product(Xor(a, a << 1), x) && Product(3, Product(a, x)) == Product(Xor(a, a << 1), x)
  {
    hide Xor, Product;
    ProductOne(x);
    ProductOne(Product(a, x));
    ProductTwice(a, x);
    ProductThrice(a, x);
    ProductCommutes(a, 2, x);
    ProductCommutes(a, 3, x);
  }

  /** The first row of one matrix times the columns of the other. */
  lemma UnmixingRow(a: Byte, b: Byte, c: Byte, d: Byte)
    ensures Row(Unmixing, 0, a, b, c, d) == Sum(Product(14, a), Product(11, b), Product(13, c), Product(9, d))
  {
    hide Product, Sum;
  }

  lemma MixingColumns(x: Byte)
    ensures Scaled(Mixing, 0, x) == [Product(2, x), Product(1, x), Product(1, x), Product(3, x)]
    ensures Scaled(Mixing, 1, x) == [Product(3, x), Product(2, x), Product(1, x), Product(1, x)]
    ensures Scaled(Mixing, 2, x) == [Product(1, x), Product(3, x), Product(2, x), Product(1, x)]
    ensures Scaled(Mixing, 3, x) == [Product(1, x), Product(1, x), Product(3, x), Product(2, x)]
  {
    hide Product;
  }

  lemma UnmixingFirst(x: Byte)
    ensures FirstRow(Unmixing, Mixing, x)
  {
    hide Product, Sum, Xor, Row, Scaled;
    Multiples(x);
    SumOfProducts(28, 11, 13, 27, x);
    SumOfProducts(18, 22, 13, 9, x);
    SumOfProducts(14, 29, 26, 9, x);
    SumOfProducts(14, 11, 23, 18, x);
    Values();
    ProductOne(x);
    MixingColumns(x);
    UnmixingRow(Product(2, x), Product(1, x), Product(1, x), Product(3, x));
    UnmixingRow(Product(3, x), Product(2, x), Product(1, x), Product(1, x));
    UnmixingRow(Product(1, x), Product(3, x), Product(2, x), Product(1, x));
    UnmixingRow(Product(1, x), Product(1, x), Product(3, x), Product(2, x));
    assert FirstRowAt(Unmixing, Mixing, x, 0);
    assert FirstRowAt(Unmixing, Mixing, x, 1);
    assert FirstRowAt(Unmixing, Mixing, x, 2);
    assert FirstRowAt(Unmixing, Mixing, x, 3);
  }

  lemma MixingRow(a: Byte, b: Byte, c: Byte, d: Byte)
    ensures Row(Mixing, 0, a, b, c, d) == Sum(Product(2, a), Product(3, b), Product(1, c), Product(1, d))
  {
    hide Product, Sum;
  }

  lemma UnmixingColumns(x: Byte)
    ensures Scaled(Unmixing, 0, x) == [Product(14, x), Product(9, x), Product(13, x), Product(11, x)]
    ensures Scaled(Unmixing, 1, x) == [Product(11, x), Product(14, x), Product(9, x), Product(13, x)]
    ensures Scaled(Unmixing, 2, x) == [Product(13, x), Product(11, x), Product(14, x), Product(9, x)]
    ensures Scaled(Unmixing, 3, x) == [Product(9, x), Product(13, x), Product(11, x), Product(14, x)]
  {
    hide Product;
  }

  lemma MixingFirst(x: Byte)
    ensures FirstRow(Mixing, Unmixing, x)
  {
    hide Product, Sum, Xor, Row, Scaled;
    Multiples(x);
    SumOfProducts(28, 27, 13, 11, x);
    SumOfProducts(22, 18, 9, 13, x);
    SumOfProducts(26, 29, 14, 9, x);
    SumOfProducts(18, 23, 11, 14, x);
    Values();
    ProductOne(x);
    UnmixingColumns(x);
    MixingRow(Product(14, x), Product(9, x), Product(13, x), Product(11, x));
    MixingRow(Product(11, x), Product(14, x), Product(9, x), Product(13, x));
    MixingRow(Product(13, x), Product(11, x), Product(14, x), Product(9, x));
    MixingRow(Product(9, x), Product(13, x), Product(11, x), Product(14, x));
    assert FirstRowAt(Mixing, Unmixing, x, 0);
    assert FirstRowAt(Mixing, Unmixing, x, 1);
    assert FirstRowAt(Mixing, Unmixing, x, 2);
    assert FirstRowAt(Mixing, Unmixing, x, 3);
  }

  lemma Values()
    ensures Sum(28, 11, 13, 27) == 1 && Sum(18, 22, 13, 9) == 0 && Sum(14, 29, 26, 9) == 0 && Sum(14, 11, 23, 18) == 0
    ensures Sum(28, 27, 13, 11) == 1 && Sum(22, 18, 9, 13) == 0 && Sum(26, 29, 14, 9) == 0 && Sum(18, 23, 11, 14) == 0
  {
  }

  /** The products that occur, whichever factor is applied first. */
  lemma Multiples(x: Byte)
    ensures Product(14, Product(1, x)) == Product(14, x) && Product(1, Product(14, x)) == Product(14, x)
    ensures Product(14, Product(2, x)) == Product(28, x) && Product(2, Product(14, x)) == Product(28, x)
    ensures Product(14, Product(3, x)) == Product(18, x) && Product(3, Product(14, x)) == Product(18, x)
    ensures Product(11, Product(1, x)) == Product(11, x) && Product(1, Product(11, x)) == Product(11, x)
    ensures Product(11, Product(2, x)) == Product(22, x) && Product(2, Product(11, x)) == Product(22, x)
    ensures Product(11, Product(3, x)) == Product(29, x) && Product(3, Product(11, x)) == Product(29, x)
    ensures Product(13, Product(1, x)) == Product(13, x) && Product(1, Product(13, x)) == Product(13, x)
    ensures Product(13, Product(2, x)) == Product(26, x) && Product(2, Product(13, x)) == Product(26, x)
    ensures Product(13, Product(3, x)) == Product(23, x) && Product(3, Product(13, x)) == Product(23, x)
    ensures Product(9, Product(1, x)) == Product(9, x) && Product(1, Product(9, x)) == Product(9, x)
    ensures Product(9, Product(2, x)) == Product(18, x) && Product(2, Product(9, x)) == Product(18, x)
    ensures Product(9, Product(3, x)) == Product(27, x) && Product(3, Product(9, x)) == Product(27, x)
  {
    hide Product;
    Times(14, x);
    Times(11, x);
    Times(13, x);
    Times(9, x);
  }

  // ------------------------------------------------------------------------- every row

  /** Row `i + 1` is row `i` one place to the right. */
  lemma NextRow(m: seq<Byte>, i: nat)
    requires Circulant(m) && i < 3
    ensures m[4 * i + 4] == m[4 * i + 3] && m[4 * i + 5] == m[4 * i]
    ensures m[4 * i + 6] == m[4 * i + 1] && m[4 * i + 7] == m[4 * i + 2]
  {
    assert i == 0 || i == 1 || i == 2;
  }

  /** Column `j` is the column before it one place down. */
  lemma NextColumn(w: seq<Byte>, j: nat, x: Byte)
    requires Circulant(w) && j < 4
    ensures var v, u := Scaled(w, j, x), Scaled(w, (j + 3) % 4, x); v == [u[3], u[0], u[1], u[2]]
  {
    hide Product;
    assert j == 0 || j == 1 || j == 2 || j == 3;
  }

  /** One row down and one column to the right is the same entry of the product. */
  lemma Down(m: seq<Byte>, w: seq<Byte>, i: nat, j: nat, x: Byte)
    requires Circulant(m) && Circulant(w) && i < 3 && j < 4
    ensures var v, u := Scaled(w, j, x), Scaled(w, (j + 3) % 4, x);
      Row(m, i + 1, v[0], v[1], v[2], v[3]) == Row(m, i, u[0], u[1], u[2], u[3])
  {
    hide Product, Sum, Scaled;
    assert |m| == 16 && |w| == 16;
    hide Circulant;
    var u := Scaled(w, (j + 3) % 4, x);
    NextRow(m, i);
    NextColumn(w, j, x);
    SumTurn(Product(m[4 * i + 3], u[3]), Product(m[4 * i], u[0]), Product(m[4 * i + 1], u[1]), Product(m[4 * i + 2], u[2]));
  }

  lemma {:induction false} EntryAny(m: seq<Byte>, w: seq<Byte>, i: nat, j: nat, x: Byte)
    requires Circulant(m) && Circulant(w) && FirstRow(m, w, x) && i < 4 && j < 4
    ensures var v := Scaled(w, j, x); Row(m, i, v[0], v[1], v[2], v[3]) == if i == j then x else 0
    decreases i
  {
    hide Row, Scaled;
    if i == 0 {
      assert FirstRowAt(m, w, x, j);
    } else {
      EntryAny(m, w, i - 1, (j + 3) % 4, x);
      Down(m, w, i - 1, j, x);
    }
  }

  lemma SumOne(x: Byte)
    ensures Sum(x, 0, 0, 0) == x && Sum(0, x, 0, 0) == x && Sum(0, 0, x, 0) == x && Sum(0, 0, 0, x) == x
  {
    hide Xor;
    XorZero(x);
    XorZero(0);
  }

  lemma RowsOfColumn(w: seq<Byte>, a: Byte, b: Byte, c: Byte, d: Byte)
    requires |w| == 16
    ensures var p, q, r, s := Scaled(w, 0, a), Scaled(w, 1, b), Scaled(w, 2, c), Scaled(w, 3, d);
      forall i | 0 <= i < 4 :: Row(w, i, a, b, c, d) == Sum(p[i], q[i], r[i], s[i])
  {
    hide Product, Sum;
  }

  /** Matrices of which the first row comes out right are inverse to each other. */
  lemma Inverted(m: seq<Byte>, w: seq<Byte>, i: nat, a: Byte, b: Byte, c: Byte, d: Byte)
    requires Circulant(m) && Circulant(w) && i < 4
    requires FirstRow(m, w, a) && FirstRow(m, w, b) && FirstRow(m, w, c) && FirstRow(m, w, d)
    ensures Row(m, i, Row(w, 0, a, b, c, d), Row(w, 1, a, b, c, d), Row(w, 2, a, b, c, d), Row(w, 3, a, b, c, d))
            == [a, b, c, d][i]
  {
    hide Product, Sum, Row, Scaled, FirstRow;
    var p, q, r, s := Scaled(w, 0, a), Scaled(w, 1, b), Scaled(w, 2, c), Scaled(w, 3, d);
    RowsOfColumn(w, a, b, c, d);
    RowOfSums(m, i, p, q, r, s);
    EntryAny(m, w, i, 0, a);
    EntryAny(m, w, i, 1, b);
    EntryAny(m, w, i, 2, c);
    EntryAny(m, w, i, 3, d);
    SumOne([a, b, c, d][i]);
  }

  /** The two matrices of AES are inverse to each other over the field. */
  lemma UnmixMix(i: nat, a: Byte, b: Byte, c: Byte, d: Byte)
    requires i < 4
    ensures Row(Unmixing, i, Row(Mixing, 0, a, b, c, d), Row(Mixing, 1, a, b, c, d),
                Row(Mixing, 2, a, b, c, d), Row(Mixing, 3, a, b, c, d)) == [a, b, c, d][i]
  {
    BothCirculant();
    hide *;
    UnmixingFirst(a);
    UnmixingFirst(b);
    UnmixingFirst(c);
    UnmixingFirst(d);
    Inverted(Unmixing, Mixing, i, a, b, c, d);
  }

  lemma MixUnmix(i: nat, a: Byte, b: Byte, c: Byte, d: Byte)
    requires i < 4
    ensures Row(Mixing, i, Row(Unmixing, 0, a, b, c, d), Row(Unmixing, 1, a, b, c, d),
                Row(Unmixing, 2, a, b, c, d), Row(Unmixing, 3, a, b, c, d)) == [a, b, c, d][i]
  {
    BothCirculant();
    hide *;
    MixingFirst(a);
    MixingFirst(b);
    MixingFirst(c);
    MixingFirst(d);
    Inverted(Mixing, Unmixing, i, a, b, c, d);
  }
}
