/** The key expansion of `muggle/c/crypt/aes.c` against the one of section 5.2 of FIPS 197, which works on bytes. */
module AesKey {
  import opened GaloisField
  import opened AesSbox
  import Aes

  type Word = bv32

  // ------------------------------------------------------------------------- FIPS 197, on four bytes

  type Quad = q: seq<Byte> | |q| == 4 witness [0, 0, 0, 0]

  function RotQuad(q: Quad): Quad { [q[1], q[2], q[3], q[0]] }

  function SubQuad(q: Quad): Quad { [Sbox(q[0]), Sbox(q[1]), Sbox(q[2]), Sbox(q[3])] }

  function XorQuad(p: Quad, q: Quad): Quad { [Xor(p[0], q[0]), Xor(p[1], q[1]), Xor(p[2], q[2]), Xor(p[3], q[3])] }

  /** x to the power `j` in the field. */
  function PowerOfX(j: nat): Byte { if j == 0 then 1 else Twice(PowerOfX(j - 1)) }

  /** Word `i` of the key schedule for a key of `nk` words. */
  function FipsWord(key: seq<Byte>, nk: nat, i: nat): Quad
    requires nk > 0 && |key| == 4 * nk
  {
    if i < nk then key[4 * i..4 * i + 4]
    else
      var temp := FipsWord(key, nk, i - 1);
      var next :=
        if i % nk == 0 then XorQuad(SubQuad(RotQuad(temp)), [PowerOfX(i / nk - 1), 0, 0, 0])
        else if nk > 6 && i % nk == 4 then SubQuad(temp)
        else temp;
      XorQuad(FipsWord(key, nk, i - nk), next)
  }

  // ------------------------------------------------------------------------- the code, on words

  /** The bytes of a word, the most significant first. */
  function Bytes(w: Word): Quad { [Aes.KeyByte(w, 0), Aes.KeyByte(w, 1), Aes.KeyByte(w, 2), Aes.KeyByte(w, 3)] }

  function Pack(a: Byte, b: Byte, c: Byte, d: Byte): Word {
    ((a as bv32) << 24) | ((b as bv32) << 16) | ((c as bv32) << 8) | (d as bv32)
  }

  lemma PackBytes(a: Byte, b: Byte, c: Byte, d: Byte)
    ensures Bytes(Pack(a, b, c, d)) == [a, b, c, d]
  {
  }

  /** `muggle_aes_rot_word`, byte by byte in the memory of a little-endian host. */
  function RotWord(w: Word): Word { Pack(Aes.KeyByte(w, 1), Aes.KeyByte(w, 2), Aes.KeyByte(w, 3), Aes.KeyByte(w, 0)) }

  /** `muggle_aes_sub_word`. */
  function SubWord(w: Word): Word {
    Pack(Sbox(Aes.KeyByte(w, 0)), Sbox(Aes.KeyByte(w, 1)), Sbox(Aes.KeyByte(w, 2)), Sbox(Aes.KeyByte(w, 3)))
  }

  function XorWord(x: Word, y: Word): Word { x ^ y }

  const Rcon: seq<Word> := [
    0x01000000, 0x02000000, 0x04000000, 0x08000000,
    0x10000000, 0x20000000, 0x40000000, 0x80000000,
    0x1b000000, 0x36000000, 0x6c000000, 0xd8000000,
    0xab000000, 0x4d000000, 0x9a000000]

  lemma RotBytes(w: Word)
    ensures Bytes(RotWord(w)) == RotQuad(Bytes(w))
  {
    hide Pack, Aes.KeyByte;
    PackBytes(Aes.KeyByte(w, 1), Aes.KeyByte(w, 2), Aes.KeyByte(w, 3), Aes.KeyByte(w, 0));
  }

  lemma SubBytes(w: Word)
    ensures Bytes(SubWord(w)) == SubQuad(Bytes(w))
  {
    hide Pack, Sbox, Aes.KeyByte;
    PackBytes(Sbox(Aes.KeyByte(w, 0)), Sbox(Aes.KeyByte(w, 1)), Sbox(Aes.KeyByte(w, 2)), Sbox(Aes.KeyByte(w, 3)));
  }

  lemma XorByte0(x: Word, y: Word)
    ensures Aes.KeyByte(XorWord(x, y), 0) == Xor(Aes.KeyByte(x, 0), Aes.KeyByte(y, 0))
  {
  }

  lemma XorByte1(x: Word, y: Word)
    ensures Aes.KeyByte(XorWord(x, y), 1) == Xor(Aes.KeyByte(x, 1), Aes.KeyByte(y, 1))
  {
  }

  lemma XorByte2(x: Word, y: Word)
    ensures Aes.KeyByte(XorWord(x, y), 2) == Xor(Aes.KeyByte(x, 2), Aes.KeyByte(y, 2))
  {
  }

  lemma XorByte3(x: Word, y: Word)
    ensures Aes.KeyByte(XorWord(x, y), 3) == Xor(Aes.KeyByte(x, 3), Aes.KeyByte(y, 3))
  {
  }

  lemma XorBytes(x: Word, y: Word)
    ensures Bytes(XorWord(x, y)) == XorQuad(Bytes(x), Bytes(y))
  {
    hide Aes.KeyByte, XorWord, Xor;
    XorByte0(x, y);
    XorByte1(x, y);
    XorByte2(x, y);
    XorByte3(x, y);
  }

  lemma NextPower(j: nat, p: Byte, q: Byte)
    requires PowerOfX(j) == p && q == if p & 0x80 != 0 then (p << 1) ^ 0x1b else p << 1
    ensures PowerOfX(j + 1) == q
  {
    hide Twice;
    TwiceBranch(p);
  }

  lemma Powers()
    ensures PowerOfX(0) == 0x01
    ensures PowerOfX(1) == 0x02
    ensures PowerOfX(2) == 0x04
    ensures PowerOfX(3) == 0x08
    ensures PowerOfX(4) == 0x10
    ensures PowerOfX(5) == 0x20
    ensures PowerOfX(6) == 0x40
    ensures PowerOfX(7) == 0x80
    ensures PowerOfX(8) == 0x1b
    ensures PowerOfX(9) == 0x36
    ensures PowerOfX(10) == 0x6c
    ensures PowerOfX(11) == 0xd8
    ensures PowerOfX(12) == 0xab
    ensures PowerOfX(13) == 0x4d
    ensures PowerOfX(14) == 0x9a
  {
    assert PowerOfX(0) == 0x01;
    hide PowerOfX;
    NextPower(0, 0x01, 0x02);
    NextPower(1, 0x02, 0x04);
    NextPower(2, 0x04, 0x08);
    NextPower(3, 0x08, 0x10);
    NextPower(4, 0x10, 0x20);
    NextPower(5, 0x20, 0x40);
    NextPower(6, 0x40, 0x80);
    NextPower(7, 0x80, 0x1b);
    NextPower(8, 0x1b, 0x36);
    NextPower(9, 0x36, 0x6c);
    NextPower(10, 0x6c, 0xd8);
    NextPower(11, 0xd8, 0xab);
    NextPower(12, 0xab, 0x4d);
    NextPower(13, 0x4d, 0x9a);
  }

  lemma TopByte(p: Byte)
    ensures Bytes((p as bv32) << 24) == [p, 0, 0, 0]
  {
  }

  /** The constants are the powers of x, in the first byte. */
  lemma RconIsPower(j: nat)
    requires j < 15
    ensures Bytes(Rcon[j]) == [PowerOfX(j), 0, 0, 0]
  {
    hide PowerOfX, Bytes;
    Powers();
    TopByte(PowerOfX(j));
  }

  // ------------------------------------------------------------------------- the expansion

  /** Key sizes and what they imply: words in the key, rounds. */
  function KeyWords(bits: int): nat { if bits == 128 then 4 else if bits == 192 then 6 else if bits == 256 then 8 else 0 }

  function RoundsOf(bits: int): nat { if bits == 128 then 10 else if bits == 192 then 12 else 14 }

  predicate Size(nk: nat) { nk == 4 || nk == 6 || nk == 8 }

  /** The turn of the key that word `i` belongs to. */
  function Turn(i: nat, nk: nat): (t: nat)
    requires Size(nk) && i < 60
    ensures t < 15
  {
    i / nk
  }

  /** One step of the second loop. */
  function NextWord(temp: Word, before: Word, nk: nat, i: nat): Word
    requires Size(nk) && nk <= i < 60
  {
    var t :=
      if i % nk == 0 then XorWord(SubWord(RotWord(temp)), Rcon[Turn(i - 1, nk)])
      else if nk > 6 && i % nk == 4 then SubWord(temp)
      else temp;
    XorWord(before, t)
  }

  lemma PreviousTurn(i: nat, nk: nat)
    requires Size(nk) && nk <= i < 60 && i % nk == 0
    ensures Turn(i - 1, nk) == i / nk - 1
  {
  }

  lemma FipsStep(key: seq<Byte>, nk: nat, i: nat, temp: Quad, before: Quad)
    requires nk > 0 && |key| == 4 * nk && nk <= i
    requires temp == FipsWord(key, nk, i - 1) && before == FipsWord(key, nk, i - nk)
    ensures i % nk == 0 ==>
      FipsWord(key, nk, i) == XorQuad(before, XorQuad(SubQuad(RotQuad(temp)), [PowerOfX(i / nk - 1), 0, 0, 0]))
    ensures i % nk != 0 && nk > 6 && i % nk == 4 ==> FipsWord(key, nk, i) == XorQuad(before, SubQuad(temp))
    ensures i % nk != 0 && !(nk > 6 && i % nk == 4) ==> FipsWord(key, nk, i) == XorQuad(before, temp)
  {
    hide XorQuad, SubQuad, RotQuad, PowerOfX;
  }

  /** The step agrees with the standard. */
  lemma NextWordIs(key: seq<Byte>, temp: Word, before: Word, nk: nat, i: nat)
    requires Size(nk) && nk <= i < 60 && |key| == 4 * nk
    requires Bytes(temp) == FipsWord(key, nk, i - 1) && Bytes(before) == FipsWord(key, nk, i - nk)
    ensures Bytes(NextWord(temp, before, nk, i)) == FipsWord(key, nk, i)
  {
    hide Bytes, XorQuad, SubQuad, RotQuad, XorWord, SubWord, RotWord, PowerOfX, Turn, FipsWord;
    FipsStep(key, nk, i, Bytes(temp), Bytes(before));
    RotBytes(temp);
    SubBytes(RotWord(temp));
    SubBytes(temp);
    if i % nk == 0 {
      PreviousTurn(i, nk);
      RconIsPower(Turn(i - 1, nk));
      XorBytes(SubWord(RotWord(temp)), Rcon[Turn(i - 1, nk)]);
      XorBytes(before, XorWord(SubWord(RotWord(temp)), Rcon[Turn(i - 1, nk)]));
    } else if nk > 6 && i % nk == 4 {
      XorBytes(before, SubWord(temp));
    } else {
      XorBytes(before, temp);
    }
  }

  lemma FirstWordIs(key: seq<Byte>, nk: nat, i: nat)
    requires nk > 0 && |key| == 4 * nk && i < nk
    ensures Bytes(Pack(key[4 * i], key[4 * i + 1], key[4 * i + 2], key[4 * i + 3])) == FipsWord(key, nk, i)
  {
    hide Bytes, Pack;
    PackBytes(key[4 * i], key[4 * i + 1], key[4 * i + 2], key[4 * i + 3]);
  }

  datatype Status = Success | InvalidParam | KeySize

  /** The modes from ECB to CTR, of `crypt_utils.h`. */
  const MODES := 5

  /** The checks at the start of `muggle_aes_set_key`. */
  predicate Accepted(op: int, mode: int) { (op == Aes.ENCRYPT || op == Aes.DECRYPT) && 0 <= mode < MODES }

  /** `muggle_aes_set_key` for a key of `bits` / 8 bytes. */
  method SetKey(op: int, mode: int, key: seq<Byte>, bits: int, rdKey: array<Word>) returns (err: Status, rounds: int)
    requires rdKey.Length == 60 && (KeyWords(bits) > 0 ==> |key| == 4 * KeyWords(bits))
    modifies rdKey
    ensures err == InvalidParam <==> !Accepted(op, mode)
    ensures err == Success <==> Accepted(op, mode) && (bits == 128 || bits == 192 || bits == 256)
    ensures err != Success ==> rdKey[..] == old(rdKey[..])
    ensures err == Success ==> Aes.Supported(rounds) && rounds == RoundsOf(bits)
    ensures err == Success ==>
      forall i | 0 <= i < 4 * (rounds + 1) :: Bytes(rdKey[i]) == FipsWord(key, KeyWords(bits), i)
  {
    hide Bytes, Pack, FipsWord, XorWord, SubWord, RotWord;
    if op != Aes.ENCRYPT && op != Aes.DECRYPT {
      return InvalidParam, 0;
    }
    if mode < 0 || mode >= MODES {
      return InvalidParam, 0;
    }
    var nr, nk := RoundsOf(bits), KeyWords(bits);
    if nk == 0 {
      return KeySize, 0;
    }
    rounds := nr;
    for i := 0 to nk
      invariant forall j | 0 <= j < i :: Bytes(rdKey[j]) == FipsWord(key, nk, j)
    {
      FirstWordIs(key, nk, i);
      rdKey[i] := Pack(key[4 * i], key[4 * i + 1], key[4 * i + 2], key[4 * i + 3]);
    }
    for i := nk to 4 * (nr + 1)
      invariant forall j | 0 <= j < i :: Bytes(rdKey[j]) == FipsWord(key, nk, j)
    {
      var temp := rdKey[i - 1];
      NextWordIs(key, temp, rdKey[i - nk], nk, i);
      if i % nk == 0 {
        temp := RotWord(temp);
        temp := SubWord(temp);
        temp := XorWord(temp, Rcon[Turn(i - 1, nk)]);
      } else if nk > 6 && i % nk == 4 {
        temp := SubWord(temp);
      }
      rdKey[i] := XorWord(rdKey[i - nk], temp);
    }
    return Success, nr;
  }
}
