/** The rounds of `Aes` byte by byte, as the equations of sections 5.1 and 5.3 of FIPS 197 have them. */
module AesRounds {
  import opened GaloisField
  import opened AesSbox
  import opened AesColumn
  import opened Aes

  /** Row `r` of the matrix of MixColumns: 2, 3, 1, 1, turned right by `r`. */
  function Coefficient(r: nat, j: nat): Byte
    requires r < 4 && j < 4
  {
    [0x02, 0x03, 0x01, 0x01][(j + 4 - r) % 4]
  }

  /** The substituted byte that ShiftRows brings to row `j` of column `c`. */
  function Shifted(x: State, j: nat, c: nat): Byte
    requires j < 4 && c < 4
  {
    Sbox(x[4 * j + (c + j) % 4])
  }

  lemma MixingIs(r: nat, j: nat)
    requires r < 4 && j < 4
    ensures Mixing[4 * r + j] == Coefficient(r, j)
  {
  }

  lemma MatrixRow(r: nat, a: Byte, b: Byte, c: Byte, d: Byte)
    requires r < 4
    ensures Row(Mixing, r, a, b, c, d)
         == Sum(Product(Coefficient(r, 0), a), Product(Coefficient(r, 1), b),
                Product(Coefficient(r, 2), c), Product(Coefficient(r, 3), d))
  {
    hide Coefficient, Sum, Product;
    MixingIs(r, 0);
    MixingIs(r, 1);
    MixingIs(r, 2);
    MixingIs(r, 3);
  }

  lemma ShiftedIs(x: State, j: nat, c: nat)
    requires j < 4 && c < 4
    ensures ShiftRows(SubBytes(x))[4 * j + c] == Shifted(x, j, c)
  {
    hide Sbox, Source;
    SourceTurns(j, c);
  }

  lemma KeyIs(x: State, keys: seq<Word>, n: nat, r: nat, c: nat)
    requires 4 * n + 4 <= |keys| && r < 4 && c < 4
    ensures AddRoundKey(x, KeyOf(keys, n))[4 * r + c] == Xor(x[4 * r + c], KeyByte(keys[4 * n + c], r))
  {
    hide Xor, KeyByte;
    assert (4 * r + c) % 4 == c && (4 * r + c) / 4 == r;
  }

  /** The initial key addition. */
  lemma FirstEquation(s: State, keys: seq<Word>, r: nat, c: nat)
    requires 4 <= |keys| && r < 4 && c < 4
    ensures Rounds(s, keys, 0)[4 * r + c] == Xor(s[4 * r + c], KeyByte(keys[c], r))
  {
    hide AddRoundKey, KeyOf;
    KeyIs(s, keys, 0, r, c);
  }

  /** Every full round: SubBytes, ShiftRows, MixColumns and the words of that round's key. */
  lemma RoundEquation(s: State, keys: seq<Word>, n: nat, r: nat, c: nat)
    requires n > 0 && 4 * n + 4 <= |keys| && r < 4 && c < 4
    ensures var x := Rounds(s, keys, n - 1);
      Rounds(s, keys, n)[4 * r + c]
      == Xor(Sum(Product(Coefficient(r, 0), Shifted(x, 0, c)), Product(Coefficient(r, 1), Shifted(x, 1, c)),
                 Product(Coefficient(r, 2), Shifted(x, 2, c)), Product(Coefficient(r, 3), Shifted(x, 3, c))),
             KeyByte(keys[4 * n + c], r))
  {
    hide AddRoundKey, KeyOf, Columns, ShiftRows, SubBytes, Shifted, Coefficient, Sum, Product, Row, Xor, KeyByte;
    var x := Rounds(s, keys, n - 1);
    var y := ShiftRows(SubBytes(x));
    KeyIs(Columns(Mixing, y), keys, n, r, c);
    ColumnsAt(Mixing, y, r, c);
    ShiftedIs(x, 0, c);
    ShiftedIs(x, 1, c);
    ShiftedIs(x, 2, c);
    ShiftedIs(x, 3, c);
    MatrixRow(r, Shifted(x, 0, c), Shifted(x, 1, c), Shifted(x, 2, c), Shifted(x, 3, c));
  }

  /** The last round has no MixColumns. */
  lemma LastEquation(s: State, keys: seq<Word>, n: nat, r: nat, c: nat)
    requires n > 0 && 4 * n + 4 <= |keys| && r < 4 && c < 4
    ensures var x := Rounds(s, keys, n - 1);
      Cipher(s, keys, n)[4 * r + c] == Xor(Shifted(x, r, c), KeyByte(keys[4 * n + c], r))
  {
    hide AddRoundKey, KeyOf, ShiftRows, SubBytes, Shifted, Xor, KeyByte, Rounds;
    var x := Rounds(s, keys, n - 1);
    KeyIs(ShiftRows(SubBytes(x)), keys, n, r, c);
    ShiftedIs(x, r, c);
  }

  /** Bytes go in and come out by columns. */
  lemma BlockEquation(b: State, keys: seq<Word>, rounds: int, r: nat, c: nat)
    requires |keys| == 60 && Supported(rounds) && r < 4 && c < 4
    ensures Transpose(b)[4 * r + c] == b[4 * c + r]
    ensures Block(ENCRYPT, b, keys, rounds)[4 * c + r] == Cipher(Transpose(b), keys, rounds)[4 * r + c]
    ensures Block(DECRYPT, b, keys, rounds)[4 * c + r] == InvCipher(Transpose(b), keys, rounds)[4 * r + c]
  {
    hide Cipher, InvCipher;
    assert Turn(4 * r + c) == 4 * c + r && Turn(4 * c + r) == 4 * r + c;
  }
}
