/**
 * AES on columns packed in words: substitution, rotation and the column matrix with word operations, proved to be the
 * rounds that `Aes` has on the matrix of bytes.
 */
module AesWords {
  import opened GaloisField
  import opened AesSbox
  import opened AesColumn
  import opened Aes
  import opened AesKey
  import opened AesRounds

  /** Four words: the columns of a state, or a round key. */
  datatype Four = Four(a: bv32, b: bv32, c: bv32, d: bv32)

  function At(x: Four, c: nat): bv32
    requires c < 4
  {
    if c == 0 then x.a else if c == 1 then x.b else if c == 2 then x.c else x.d
  }

  function Key(k: Four): (key: seq<bv32>)
    ensures |key| == 4
  {
    [k.a, k.b, k.c, k.d]
  }

  /** The matrix of which the words are the columns. */
  function Matrix(x: Four): State { seq(16, i requires 0 <= i < 16 => KeyByte(At(x, i % 4), i / 4)) }

  lemma MatrixAt(x: Four, r: nat, c: nat)
    requires r < 4 && c < 4
    ensures Matrix(x)[4 * r + c] == KeyByte(At(x, c), r)
  {
    hide KeyByte;
    assert (4 * r + c) % 4 == c && (4 * r + c) / 4 == r;
  }

  // ------------------------------------------------------------------------- AddRoundKey

  function Plus(x: Four, k: Four): Four {
    Four(XorWord(x.a, k.a), XorWord(x.b, k.b), XorWord(x.c, k.c), XorWord(x.d, k.d))
  }

  lemma XorAt(x: bv32, y: bv32, r: nat)
    requires r < 4
    ensures KeyByte(XorWord(x, y), r) == Xor(KeyByte(x, r), KeyByte(y, r))
  {
    hide KeyByte, XorWord, Xor;
    XorByte0(x, y);
    XorByte1(x, y);
    XorByte2(x, y);
    XorByte3(x, y);
  }

  lemma PlusColumn(x: Four, k: Four, c: nat)
    requires c < 4
    ensures At(Plus(x, k), c) == XorWord(At(x, c), At(k, c)) && Key(k)[c] == At(k, c)
  {
    hide XorWord;
  }

  lemma PlusMatrix(x: Four, k: Four)
    ensures AddRoundKey(Matrix(x), Key(k)) == Matrix(Plus(x, k))
  {
    hide KeyByte, XorWord, Xor, At, Plus, Key;
    forall i | 0 <= i < 16 ensures AddRoundKey(Matrix(x), Key(k))[i] == Matrix(Plus(x, k))[i] {
      PlusColumn(x, k, i % 4);
      XorAt(At(x, i % 4), At(k, i % 4), i / 4);
    }
  }

  // ------------------------------------------------------------------------- SubBytes and ShiftRows

  /** One column: a byte from each of four columns, substituted. */
  function ShiftColumn(a: bv32, b: bv32, c: bv32, d: bv32): bv32 {
    Pack(Sbox(KeyByte(a, 0)), Sbox(KeyByte(b, 1)), Sbox(KeyByte(c, 2)), Sbox(KeyByte(d, 3)))
  }

  function Shifted32(x: Four): Four {
    Four(ShiftColumn(x.a, x.b, x.c, x.d), ShiftColumn(x.b, x.c, x.d, x.a),
         ShiftColumn(x.c, x.d, x.a, x.b), ShiftColumn(x.d, x.a, x.b, x.c))
  }

  lemma PackAt(a: Byte, b: Byte, c: Byte, d: Byte, r: nat)
    requires r < 4
    ensures KeyByte(Pack(a, b, c, d), r) == [a, b, c, d][r]
  {
    hide KeyByte, Pack;
    PackBytes(a, b, c, d);
    assert Bytes(Pack(a, b, c, d))[r] == KeyByte(Pack(a, b, c, d), r);
  }

  lemma Around(c: nat)
    requires c < 4
    ensures c == 0 || c == 1 || c == 2 || c == 3
    ensures (c + 1) % 4 == if c == 3 then 0 else c + 1
    ensures (c + 2) % 4 == if c < 2 then c + 2 else c - 2
    ensures (c + 3) % 4 == if c == 0 then 3 else c - 1
  {
  }

  lemma ShiftedColumns(x: Four)
    ensures At(Shifted32(x), 0) == ShiftColumn(At(x, 0), At(x, 1), At(x, 2), At(x, 3))
    ensures At(Shifted32(x), 1) == ShiftColumn(At(x, 1), At(x, 2), At(x, 3), At(x, 0))
    ensures At(Shifted32(x), 2) == ShiftColumn(At(x, 2), At(x, 3), At(x, 0), At(x, 1))
    ensures At(Shifted32(x), 3) == ShiftColumn(At(x, 3), At(x, 0), At(x, 1), At(x, 2))
  {
    hide ShiftColumn;
  }

  lemma ShiftedColumn(x: Four, c: nat)
    requires c < 4
    ensures At(Shifted32(x), c) == ShiftColumn(At(x, c), At(x, (c + 1) % 4), At(x, (c + 2) % 4), At(x, (c + 3) % 4))
  {
    hide ShiftColumn, Shifted32, At;
    ShiftedColumns(x);
    Around(c);
  }

  lemma ShiftColumnAt(x: Four, r: nat, c: nat)
    requires r < 4 && c < 4
    ensures KeyByte(At(Shifted32(x), c), r) == Sbox(KeyByte(At(x, (c + r) % 4), r))
  {
    hide KeyByte, Pack, Sbox, At, Shifted32;
    ShiftedColumn(x, c);
    var p, q, s, t := At(x, c), At(x, (c + 1) % 4), At(x, (c + 2) % 4), At(x, (c + 3) % 4);
    PackAt(Sbox(KeyByte(p, 0)), Sbox(KeyByte(q, 1)), Sbox(KeyByte(s, 2)), Sbox(KeyByte(t, 3)), r);
    assert r == 0 || r == 1 || r == 2 || r == 3;
  }

  lemma ShiftMatrix(x: Four)
    ensures ShiftRows(Aes.SubBytes(Matrix(x))) == Matrix(Shifted32(x))
  {
    hide KeyByte, Sbox, Shifted32, Matrix, ShiftRows, Aes.SubBytes, At;
    forall i | 0 <= i < 16 ensures ShiftRows(Aes.SubBytes(Matrix(x)))[i] == Matrix(Shifted32(x))[i] {
      var r, c := i / 4, i % 4;
      ShiftedIs(Matrix(x), r, c);
      MatrixAt(x, r, (c + r) % 4);
      MatrixAt(Shifted32(x), r, c);
      ShiftColumnAt(x, r, c);
    }
  }

  // ------------------------------------------------------------------------- MixColumns

  /** The four bytes of a word, each times x in the field. */
  function Doubled(w: bv32): bv32 {
    ((w & 0x7f7f7f7f) << 1) ^ ((w >> 7) & 0x01010101) ^ (((w >> 7) & 0x01010101) << 1)
    ^ (((w >> 7) & 0x01010101) << 3) ^ (((w >> 7) & 0x01010101) << 4)
  }

  /** The bytes one place up, the first to the end. */
  function Turned(w: bv32): bv32 { (w << 8) | (w >> 24) }

  /** One column times the matrix: twice the word, three times the word turned, and the word turned further. */
  function MixColumn(w: bv32): bv32 {
    XorWord(XorWord(Doubled(w), Turned(XorWord(Doubled(w), w))),
            XorWord(Turned(Turned(w)), Turned(Turned(Turned(w)))))
  }

  function Mixed32(x: Four): Four { Four(MixColumn(x.a), MixColumn(x.b), MixColumn(x.c), MixColumn(x.d)) }

  /** Times x, by the branch of the code. */
  function Branch(b: Byte): Byte { if b & 0x80 != 0 then (b << 1) ^ 0x1b else b << 1 }

  lemma BranchIs(b: Byte)
    ensures Branch(b) == Twice(b)
  {
    hide Twice;
    TwiceBranch(b);
  }

  lemma DoubledBytes(w: bv32)
    ensures KeyByte(Doubled(w), 0) == Branch(KeyByte(w, 0)) && KeyByte(Doubled(w), 1) == Branch(KeyByte(w, 1))
    ensures KeyByte(Doubled(w), 2) == Branch(KeyByte(w, 2)) && KeyByte(Doubled(w), 3) == Branch(KeyByte(w, 3))
  {
  }

  lemma TurnedBytes(w: bv32)
    ensures KeyByte(Turned(w), 0) == KeyByte(w, 1) && KeyByte(Turned(w), 1) == KeyByte(w, 2)
    ensures KeyByte(Turned(w), 2) == KeyByte(w, 3) && KeyByte(Turned(w), 3) == KeyByte(w, 0)
  {
  }

  lemma TurnedAt(w: bv32, r: nat)
    requires r < 4
    ensures KeyByte(Turned(w), r) == KeyByte(w, (r + 1) % 4) && KeyByte(Doubled(w), r) == Twice(KeyByte(w, r))
  {
    hide KeyByte, Turned, Doubled, Twice, Branch;
    TurnedBytes(w);
    DoubledBytes(w);
    BranchIs(KeyByte(w, r));
    Around(r);
  }

  /** One row of the matrix times (a, b, c, d), starting at its diagonal. */
  function FromDiagonal(a: Byte, b: Byte, c: Byte, d: Byte): Byte {
    Xor(Xor(Twice(a), Xor(Twice(b), b)), Xor(c, d))
  }

  lemma MixColumnByte(w: bv32, r: nat)
    requires r < 4
    ensures KeyByte(MixColumn(w), r)
         == FromDiagonal(KeyByte(w, r), KeyByte(w, (r + 1) % 4), KeyByte(w, (r + 2) % 4), KeyByte(w, (r + 3) % 4))
  {
    hide KeyByte, Turned, Doubled, Twice, XorWord, Xor;
    var d, t := Doubled(w), Turned(w);
    XorAt(XorWord(d, Turned(XorWord(d, w))), XorWord(Turned(t), Turned(Turned(t))), r);
    XorAt(d, Turned(XorWord(d, w)), r);
    XorAt(Turned(t), Turned(Turned(t)), r);
    XorAt(d, w, (r + 1) % 4);
    TurnedAt(w, r);
    TurnedAt(w, (r + 1) % 4);
    TurnedAt(w, (r + 2) % 4);
    TurnedAt(XorWord(d, w), r);
    TurnedAt(t, r);
    TurnedAt(t, (r + 1) % 4);
    TurnedAt(Turned(t), r);
  }

  lemma Thrice(x: Byte)
    ensures Product(3, x) == Xor(Twice(x), x)
  {
    assert Xor(2, 1) == 3;
    hide Xor, Twice, Product;
    ProductOne(x);
    ProductLinear(2, 1, x, x);
  }

  lemma Rows(a: Byte, b: Byte, c: Byte, d: Byte)
    ensures Row(Mixing, 0, a, b, c, d) == Sum(Twice(a), Xor(Twice(b), b), c, d)
    ensures Row(Mixing, 1, a, b, c, d) == Sum(a, Twice(b), Xor(Twice(c), c), d)
    ensures Row(Mixing, 2, a, b, c, d) == Sum(a, b, Twice(c), Xor(Twice(d), d))
    ensures Row(Mixing, 3, a, b, c, d) == Sum(Xor(Twice(a), a), b, c, Twice(d))
  {
    hide Sum, Twice, Xor, Product;
    ProductOne(a);
    ProductOne(b);
    ProductOne(c);
    ProductOne(d);
    Thrice(a);
    Thrice(b);
    Thrice(c);
    Thrice(d);
  }

  lemma Diagonals(a: Byte, b: Byte, c: Byte, d: Byte)
    ensures Row(Mixing, 0, a, b, c, d) == FromDiagonal(a, b, c, d) && Row(Mixing, 1, a, b, c, d) == FromDiagonal(b, c, d, a)
    ensures Row(Mixing, 2, a, b, c, d) == FromDiagonal(c, d, a, b) && Row(Mixing, 3, a, b, c, d) == FromDiagonal(d, a, b, c)
  {
    hide Row, Twice, Xor, Sum;
    Rows(a, b, c, d);
    SumTurn(a, Twice(b), Xor(Twice(c), c), d);
    SumTurn(a, b, Twice(c), Xor(Twice(d), d));
    SumTurn(b, Twice(c), Xor(Twice(d), d), a);
    SumTurn(Twice(d), Xor(Twice(a), a), b, c);
    SumPairs(Twice(a), Xor(Twice(b), b), c, d);
    SumPairs(Twice(b), Xor(Twice(c), c), d, a);
    SumPairs(Twice(c), Xor(Twice(d), d), a, b);
    SumPairs(Twice(d), Xor(Twice(a), a), b, c);
  }

  lemma SumPairs(p: Byte, q: Byte, r: Byte, s: Byte)
    ensures Sum(p, q, r, s) == Xor(Xor(p, q), Xor(r, s))
  {
    hide Xor;
    XorAssoc(Xor(p, q), r, s);
  }

  lemma MixColumnAt(w: bv32, r: nat)
    requires r < 4
    ensures KeyByte(MixColumn(w), r) == Row(Mixing, r, KeyByte(w, 0), KeyByte(w, 1), KeyByte(w, 2), KeyByte(w, 3))
  {
    hide KeyByte, MixColumn, Row, FromDiagonal;
    MixColumnByte(w, r);
    Diagonals(KeyByte(w, 0), KeyByte(w, 1), KeyByte(w, 2), KeyByte(w, 3));
    assert r == 0 || r == 1 || r == 2 || r == 3;
  }

  lemma MixedColumn(x: Four, c: nat)
    requires c < 4
    ensures At(Mixed32(x), c) == MixColumn(At(x, c))
  {
    hide MixColumn;
  }

  lemma MixMatrix(x: Four)
    ensures Columns(Mixing, Matrix(x)) == Matrix(Mixed32(x))
  {
    hide KeyByte, Mixed32, Matrix, Columns, Row, At, MixColumn;
    forall i | 0 <= i < 16 ensures Columns(Mixing, Matrix(x))[i] == Matrix(Mixed32(x))[i] {
      var r, c := i / 4, i % 4;
      ColumnsAt(Mixing, Matrix(x), r, c);
      MatrixAt(x, 0, c);
      MatrixAt(x, 1, c);
      MatrixAt(x, 2, c);
      MatrixAt(x, 3, c);
      MatrixAt(Mixed32(x), r, c);
      MixedColumn(x, c);
      MixColumnAt(At(x, c), r);
    }
  }

  // ------------------------------------------------------------------------- the rounds

  function Round32(x: Four, k: Four): Four { Plus(Mixed32(Shifted32(x)), k) }

  function Last32(x: Four, k: Four): Four { Plus(Shifted32(x), k) }

  /** The rounds on words are the rounds on the matrix. */
  lemma RoundMatrix(x: Four, k: Four)
    ensures Round(Matrix(x), Key(k)) == Matrix(Round32(x, k))
    ensures LastRound(Matrix(x), Key(k)) == Matrix(Last32(x, k))
  {
    hide Matrix, Key, Plus, Shifted32, Mixed32, AddRoundKey, Columns, ShiftRows, Aes.SubBytes;
    ShiftMatrix(x);
    MixMatrix(Shifted32(x));
    PlusMatrix(Mixed32(Shifted32(x)), k);
    PlusMatrix(Shifted32(x), k);
  }

  /** The bytes of the words in order. */
  function Flat(x: Four): State { seq(16, i requires 0 <= i < 16 => KeyByte(At(x, i / 4), i % 4)) }

  lemma FlatMatrix(x: Four)
    ensures Transpose(Flat(x)) == Matrix(x) && Transpose(Matrix(x)) == Flat(x)
  {
    hide KeyByte, At;
    forall i | 0 <= i < 16 ensures Aes.Turn(i) % 4 == i / 4 && Aes.Turn(i) / 4 == i % 4 {
    }
  }

  // ------------------------------------------------------------------------- a key of four words

  /** The next four words of the expanded key. */
  function NextKey(k: Four, rcon: bv32): Four {
    var a := XorWord(k.a, XorWord(SubWord(RotWord(k.d)), rcon));
    var b := XorWord(k.b, a);
    var c := XorWord(k.c, b);
    Four(a, b, c, XorWord(k.d, c))
  }

  /** These are words `4 n` to `4 n + 3` of the expansion. */
  ghost predicate Expanded(key: seq<Byte>, n: nat, k: Four)
    requires |key| == 16
  {
    && Bytes(k.a) == FipsWord(key, 4, 4 * n) && Bytes(k.b) == FipsWord(key, 4, 4 * n + 1)
    && Bytes(k.c) == FipsWord(key, 4, 4 * n + 2) && Bytes(k.d) == FipsWord(key, 4, 4 * n + 3)
  }

  /** `q` follows `k` by four steps of the expansion loop. */
  predicate Follows(k: Four, q: Four, n: nat)
    requires n < 10
  {
    var i := 4 * n + 4;
    && q.a == NextWord(k.d, k.a, 4, i) && q.b == NextWord(q.a, k.b, 4, i + 1)
    && q.c == NextWord(q.b, k.c, 4, i + 2) && q.d == NextWord(q.c, k.d, 4, i + 3)
  }

  lemma NextFollows(k: Four, n: nat)
    requires n < 10
    ensures Follows(k, NextKey(k, Rcon[n]), n)
  {
    hide XorWord, SubWord, RotWord, AesKey.Turn;
    PreviousTurn(4 * n + 4, 4);
  }

  lemma FollowsExpanded(key: seq<Byte>, n: nat, k: Four, q: Four)
    requires |key| == 16 && n < 10 && Expanded(key, n, k) && Follows(k, q, n)
    ensures Expanded(key, n + 1, q)
  {
    hide Bytes, FipsWord, NextWord;
    var i := 4 * n + 4;
    NextWordIs(key, k.d, k.a, 4, i);
    NextWordIs(key, q.a, k.b, 4, i + 1);
    NextWordIs(key, q.b, k.c, 4, i + 2);
    NextWordIs(key, q.c, k.d, 4, i + 3);
  }

  lemma NextKeyExpanded(key: seq<Byte>, n: nat, k: Four)
    requires |key| == 16 && n < 10 && Expanded(key, n, k)
    ensures Expanded(key, n + 1, NextKey(k, Rcon[n]))
  {
    hide Expanded, Follows, NextKey;
    NextFollows(k, n);
    FollowsExpanded(key, n, k, NextKey(k, Rcon[n]));
  }

  lemma FirstExpanded(key: seq<Byte>)
    requires |key| == 16
    ensures Expanded(key, 0, Four(Pack(key[0], key[1], key[2], key[3]), Pack(key[4], key[5], key[6], key[7]),
                                  Pack(key[8], key[9], key[10], key[11]), Pack(key[12], key[13], key[14], key[15])))
  {
    hide Bytes, Pack, FipsWord;
    FirstWordIs(key, 4, 0);
    FirstWordIs(key, 4, 1);
    FirstWordIs(key, 4, 2);
    FirstWordIs(key, 4, 3);
  }

  lemma BytesApart(x: bv32, y: bv32)
    requires Bytes(x) == Bytes(y)
    ensures x == y
  {
    hide KeyByte;
    assert Bytes(x)[0] == Bytes(y)[0] && Bytes(x)[1] == Bytes(y)[1] && Bytes(x)[2] == Bytes(y)[2] && Bytes(x)[3] == Bytes(y)[3];
    ByteByByte(x, y);
  }

  lemma ByteByByte(x: bv32, y: bv32)
    requires KeyByte(x, 0) == KeyByte(y, 0) && KeyByte(x, 1) == KeyByte(y, 1)
    requires KeyByte(x, 2) == KeyByte(y, 2) && KeyByte(x, 3) == KeyByte(y, 3)
    ensures x == y
  {
  }
}
