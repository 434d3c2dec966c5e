/**
 * The AES rounds of `muggle/c/crypt/internal/internal_aes.c` and the block entry point of `muggle/c/crypt/aes.c`
 * (the build without MUGGLE_CRYPT_OPTIMIZATION). The state is a 4 x 4 matrix in row-major order: row `r`, column `c`
 * is byte 4r + c.
 */
module Aes {
  import opened GaloisField
  import opened AesSbox
  import opened AesColumn

  type Word = bv32

  type State = s: seq<Byte> | |s| == 16 witness seq(16, i => 0)

  // ------------------------------------------------------------------------- FIPS 197, on values

  function SubBytes(s: State): State { seq(16, i requires 0 <= i < 16 => Sbox(s[i])) }

  function InvSubBytes(s: State): State { seq(16, i requires 0 <= i < 16 => InvSbox(s[i])) }

  /** Where ShiftRows takes byte `k` from: row `r` rotates left by `r`. */
  function Source(k: nat): (j: nat)
    requires k < 16
    ensures j < 16
  {
    if k < 4 then k
    else if k < 8 then if k == 7 then 4 else k + 1
    else if k < 12 then if k < 10 then k + 2 else k - 2
    else if k == 12 then 15 else k - 1
  }

  lemma SourceTurns(r: nat, c: nat)
    requires r < 4 && c < 4
    ensures Source(4 * r + c) == 4 * r + (c + r) % 4
  {
  }

  function ShiftRows(s: State): State { seq(16, i requires 0 <= i < 16 => s[Source(i)]) }

  /** Row `r` rotates right by `r`. */
  function InvShiftRows(s: State): State { seq(16, i requires 0 <= i < 16 => s[Target(i)]) }

  function Target(k: nat): (j: nat)
    requires k < 16
    ensures j < 16 && Source(j) == k
  {
    if k < 4 then k
    else if k < 8 then if k == 4 then 7 else k - 1
    else if k < 12 then if k < 10 then k + 2 else k - 2
    else if k == 15 then 12 else k + 1
  }

  /** Every column times the matrix `m`. */
  function Columns(m: seq<Byte>, s: State): State
    requires |m| == 16
  {
    seq(16, i requires 0 <= i < 16 => Row(m, i / 4, s[i % 4], s[4 + i % 4], s[8 + i % 4], s[12 + i % 4]))
  }

  /** Byte `r` of a round-key word, the most significant byte first. */
  function KeyByte(w: Word, r: nat): Byte
    requires r < 4
  {
    if r == 0 then ((w >> 24) & 0xff) as bv8
    else if r == 1 then ((w >> 16) & 0xff) as bv8
    else if r == 2 then ((w >> 8) & 0xff) as bv8
    else (w & 0xff) as bv8
  }

  /** Column `c` is masked with word `c` of the round key. */
  function AddRoundKey(s: State, key: seq<Word>): State
    requires |key| == 4
  {
    seq(16, i requires 0 <= i < 16 => Xor(s[i], KeyByte(key[i % 4], i / 4)))
  }

  // ------------------------------------------------------------------------- each step has its inverse

  lemma SubBytesInverse(s: State)
    ensures InvSubBytes(SubBytes(s)) == s && SubBytes(InvSubBytes(s)) == s
  {
    hide Sbox, InvSbox;
    forall i | 0 <= i < 16 ensures InvSubBytes(SubBytes(s))[i] == s[i] && SubBytes(InvSubBytes(s))[i] == s[i] {
      SboxInverse(s[i]);
      InvSboxInverse(s[i]);
    }
  }

  lemma ShiftRowsInverse(s: State)
    ensures InvShiftRows(ShiftRows(s)) == s && ShiftRows(InvShiftRows(s)) == s
  {
    forall k | 0 <= k < 16 ensures Target(Source(k)) == k {
    }
  }

  lemma ColumnsAt(m: seq<Byte>, s: State, r: nat, c: nat)
    requires |m| == 16 && r < 4 && c < 4
    ensures Columns(m, s)[4 * r + c] == Row(m, r, s[c], s[4 + c], s[8 + c], s[12 + c])
  {
    hide Row;
    assert (4 * r + c) / 4 == r && (4 * r + c) % 4 == c;
  }

  lemma ColumnsInverseAt(m: seq<Byte>, w: seq<Byte>, s: State, r: nat, c: nat)
    requires (m == Unmixing && w == Mixing) || (m == Mixing && w == Unmixing)
    requires r < 4 && c < 4
    ensures Columns(m, Columns(w, s))[4 * r + c] == s[4 * r + c]
  {
    hide Row, Columns;
    assert |m| == 16 && |w| == 16;
    var t := Columns(w, s);
    ColumnsAt(m, t, r, c);
    ColumnsAt(w, s, 0, c);
    ColumnsAt(w, s, 1, c);
    ColumnsAt(w, s, 2, c);
    ColumnsAt(w, s, 3, c);
    UnmixMix(r, s[c], s[4 + c], s[8 + c], s[12 + c]);
    MixUnmix(r, s[c], s[4 + c], s[8 + c], s[12 + c]);
  }

  lemma ColumnsInverse(m: seq<Byte>, w: seq<Byte>, s: State)
    requires (m == Unmixing && w == Mixing) || (m == Mixing && w == Unmixing)
    ensures Columns(m, Columns(w, s)) == s
  {
    hide Columns;
    forall i | 0 <= i < 16 ensures Columns(m, Columns(w, s))[i] == s[i] {
      ColumnsInverseAt(m, w, s, i / 4, i % 4);
    }
  }

  lemma AddRoundKeyInverse(s: State, key: seq<Word>)
    requires |key| == 4
    ensures AddRoundKey(AddRoundKey(s, key), key) == s
  {
    hide Xor, KeyByte;
    forall i | 0 <= i < 16 ensures AddRoundKey(AddRoundKey(s, key), key)[i] == s[i] {
      var k := KeyByte(key[i % 4], i / 4);
      XorAssoc(s[i], k, k);
      XorZero(k);
      XorZero(s[i]);
    }
  }

  // ------------------------------------------------------------------------- the cipher

  function KeyOf(keys: seq<Word>, n: nat): seq<Word>
    requires 4 * n + 4 <= |keys|
    ensures |KeyOf(keys, n)| == 4
  {
    keys[4 * n..4 * n + 4]
  }

  function Round(s: State, key: seq<Word>): State
    requires |key| == 4
  {
    AddRoundKey(Columns(Mixing, ShiftRows(SubBytes(s))), key)
  }

  function InvRound(s: State, key: seq<Word>): State
    requires |key| == 4
  {
    InvSubBytes(InvShiftRows(Columns(Unmixing, AddRoundKey(s, key))))
  }

  function LastRound(s: State, key: seq<Word>): State
    requires |key| == 4
  {
    AddRoundKey(ShiftRows(SubBytes(s)), key)
  }

  function InvLastRound(s: State, key: seq<Word>): State
    requires |key| == 4
  {
    InvSubBytes(InvShiftRows(AddRoundKey(s, key)))
  }

  /** The initial key addition and the first `n` full rounds. */
  function Rounds(s: State, keys: seq<Word>, n: nat): State
    requires 4 * n + 4 <= |keys|
  {
    if n == 0 then AddRoundKey(s, KeyOf(keys, 0)) else Round(Rounds(s, keys, n - 1), KeyOf(keys, n))
  }

  function InvRounds(s: State, keys: seq<Word>, n: nat): State
    requires 4 * n + 4 <= |keys|
    decreases n
  {
    if n == 0 then AddRoundKey(s, KeyOf(keys, 0)) else InvRounds(InvRound(s, KeyOf(keys, n)), keys, n - 1)
  }

  /** Cipher of FIPS 197 with `n` rounds. */
  function Cipher(s: State, keys: seq<Word>, n: nat): State
    requires n > 0 && 4 * n + 4 <= |keys|
  {
    LastRound(Rounds(s, keys, n - 1), KeyOf(keys, n))
  }

  /** InvCipher of FIPS 197 with `n` rounds. */
  function InvCipher(s: State, keys: seq<Word>, n: nat): State
    requires n > 0 && 4 * n + 4 <= |keys|
  {
    InvRounds(InvLastRound(s, KeyOf(keys, n)), keys, n - 1)
  }

  lemma RoundInverse(s: State, key: seq<Word>)
    requires |key| == 4
    ensures InvRound(Round(s, key), key) == s && InvLastRound(LastRound(s, key), key) == s
  {
    hide AddRoundKey, Columns, ShiftRows, InvShiftRows, SubBytes, InvSubBytes;
    var t := ShiftRows(SubBytes(s));
    AddRoundKeyInverse(Columns(Mixing, t), key);
    AddRoundKeyInverse(t, key);
    ColumnsInverse(Unmixing, Mixing, t);
    ShiftRowsInverse(SubBytes(s));
    SubBytesInverse(s);
  }

  lemma InvRoundInverse(s: State, key: seq<Word>)
    requires |key| == 4
    ensures Round(InvRound(s, key), key) == s && LastRound(InvLastRound(s, key), key) == s
  {
    hide AddRoundKey, Columns, ShiftRows, InvShiftRows, SubBytes, InvSubBytes;
    var t := AddRoundKey(s, key);
    var u := Columns(Unmixing, t);
    AddRoundKeyInverse(s, key);
    ColumnsInverse(Mixing, Unmixing, t);
    ShiftRowsInverse(t);
    ShiftRowsInverse(u);
    SubBytesInverse(InvShiftRows(t));
    SubBytesInverse(InvShiftRows(u));
  }

  lemma {:induction false} RoundsInverse(s: State, keys: seq<Word>, n: nat)
    requires 4 * n + 4 <= |keys|
    ensures InvRounds(Rounds(s, keys, n), keys, n) == s
  {
    hide AddRoundKey, KeyOf, Round, InvRound;
    if n == 0 {
      AddRoundKeyInverse(s, KeyOf(keys, 0));
    } else {
      RoundInverse(Rounds(s, keys, n - 1), KeyOf(keys, n));
      RoundsInverse(s, keys, n - 1);
    }
  }

  lemma {:induction false} InvRoundsInverse(s: State, keys: seq<Word>, n: nat)
    requires 4 * n + 4 <= |keys|
    ensures Rounds(InvRounds(s, keys, n), keys, n) == s
    decreases n
  {
    hide AddRoundKey, KeyOf, Round, InvRound;
    if n == 0 {
      AddRoundKeyInverse(s, KeyOf(keys, 0));
    } else {
      InvRoundsInverse(InvRound(s, KeyOf(keys, n)), keys, n - 1);
      InvRoundInverse(s, KeyOf(keys, n));
    }
  }

  /** Decryption undoes encryption and encryption decryption, for every key schedule and every number of rounds. */
  lemma CipherInverse(s: State, keys: seq<Word>, n: nat)
    requires n > 0 && 4 * n + 4 <= |keys|
    ensures InvCipher(Cipher(s, keys, n), keys, n) == s && Cipher(InvCipher(s, keys, n), keys, n) == s
  {
    hide KeyOf, LastRound, InvLastRound, Rounds, InvRounds, Round, InvRound;
    RoundInverse(Rounds(s, keys, n - 1), KeyOf(keys, n));
    RoundsInverse(s, keys, n - 1);
    InvRoundsInverse(InvLastRound(s, KeyOf(keys, n)), keys, n - 1);
    InvRoundInverse(s, KeyOf(keys, n));
  }

  // ------------------------------------------------------------------------- in place

  /** `x` is `y` with column `c` masked. */
  ghost predicate WordAdded(x: State, y: State, c: nat, w: Word) {
    forall k | 0 <= k < 16 :: x[k] == if k % 4 == c then Xor(y[k], KeyByte(w, k / 4)) else y[k]
  }

  method AddWord(state: array<Byte>, c: nat, w: Word)
    requires state.Length == 16 && c < 4
    modifies state
    ensures WordAdded(state[..], old(state[..]), c, w)
  {
    hide Xor, KeyByte;
    state[c] := Xor(state[c], KeyByte(w, 0));
    state[4 + c] := Xor(state[4 + c], KeyByte(w, 1));
    state[8 + c] := Xor(state[8 + c], KeyByte(w, 2));
    state[12 + c] := Xor(state[12 + c], KeyByte(w, 3));
  }

  lemma WordsAdded(s0: State, s1: State, s2: State, s3: State, s4: State, key: seq<Word>)
    requires |key| == 4
    requires WordAdded(s1, s0, 0, key[0]) && WordAdded(s2, s1, 1, key[1])
    requires WordAdded(s3, s2, 2, key[2]) && WordAdded(s4, s3, 3, key[3])
    ensures s4 == AddRoundKey(s0, key)
  {
    hide Xor, KeyByte;
    forall k | 0 <= k < 16 ensures s4[k] == AddRoundKey(s0, key)[k] {
      var c := k % 4;
      assert c == 0 || c == 1 || c == 2 || c == 3;
    }
  }

  method AddRoundKeyInPlace(state: array<Byte>, keys: seq<Word>, n: nat)
    requires state.Length == 16 && 4 * n + 4 <= |keys|
    modifies state
    ensures state[..] == AddRoundKey(old(state[..]), KeyOf(keys, n))
  {
    hide WordAdded, AddRoundKey;
    ghost var s0: State := state[..];
    AddWord(state, 0, keys[4 * n]);
    ghost var s1: State := state[..];
    AddWord(state, 1, keys[4 * n + 1]);
    ghost var s2: State := state[..];
    AddWord(state, 2, keys[4 * n + 2]);
    ghost var s3: State := state[..];
    AddWord(state, 3, keys[4 * n + 3]);
    WordsAdded(s0, s1, s2, s3, state[..], KeyOf(keys, n));
  }

  method SubBytesInPlace(state: array<Byte>)
    requires state.Length == 16
    modifies state
    ensures state[..] == SubBytes(old(state[..]))
  {
    hide Sbox;
    for i := 0 to 16
      invariant forall k | 0 <= k < i :: state[k] == Sbox(old(state[k]))
      invariant forall k | i <= k < 16 :: state[k] == old(state[k])
    {
      state[i] := Sbox(state[i]);
    }
  }

  method InvSubBytesInPlace(state: array<Byte>)
    requires state.Length == 16
    modifies state
    ensures state[..] == InvSubBytes(old(state[..]))
  {
    hide InvSbox;
    for i := 0 to 16
      invariant forall k | 0 <= k < i :: state[k] == InvSbox(old(state[k]))
      invariant forall k | i <= k < 16 :: state[k] == old(state[k])
    {
      state[i] := InvSbox(state[i]);
    }
  }

  lemma SourceRow(k: nat)
    requires k < 16
    ensures k < 4 ==> Source(k) == k
    ensures 4 <= k < 8 ==> 4 <= Source(k) < 8
    ensures 8 <= k < 12 ==> 8 <= Source(k) < 12
    ensures 12 <= k ==> 12 <= Source(k)
  {
  }

  /** `x` is `y` with row `r` rotated left by `r`. */
  ghost predicate RowTurned(x: State, y: State, r: nat) {
    forall k: nat {:trigger x[k]} | k < 16 :: x[k] == y[if 4 * r <= k < 4 * r + 4 then Source(k) else k]
  }

  lemma RowsTurned(s0: State, s1: State, s2: State, s3: State)
    requires RowTurned(s1, s0, 1) && RowTurned(s2, s1, 2) && RowTurned(s3, s2, 3)
    ensures s3 == ShiftRows(s0)
  {
    hide Source;
    forall k: nat | k < 16 ensures s3[k] == ShiftRows(s0)[k] {
      SourceRow(k);
    }
  }

  lemma RowsTurnedBack(s0: State, s1: State, s2: State, s3: State)
    requires RowTurned(s0, s1, 1) && RowTurned(s1, s2, 2) && RowTurned(s2, s3, 3)
    ensures s3 == InvShiftRows(s0)
  {
    hide RowTurned, ShiftRows, InvShiftRows;
    RowsCommute(s0, s1, s2, s3);
    ShiftRowsInverse(s3);
  }

  lemma RowsCommute(s0: State, s1: State, s2: State, s3: State)
    requires RowTurned(s0, s1, 1) && RowTurned(s1, s2, 2) && RowTurned(s2, s3, 3)
    ensures s0 == ShiftRows(s3)
  {
    hide Source;
    forall k: nat | k < 16 ensures s0[k] == ShiftRows(s3)[k] {
      SourceRow(k);
    }
  }

  method TurnRow1(state: array<Byte>)
    requires state.Length == 16
    modifies state
    ensures RowTurned(state[..], old(state[..]), 1)
  {
    var t := state[4];
    state[4] := state[5];
    state[5] := state[6];
    state[6] := state[7];
    state[7] := t;
  }

  method TurnRow2(state: array<Byte>)
    requires state.Length == 16
    modifies state
    ensures RowTurned(state[..], old(state[..]), 2)
  {
    var t := state[8];
    state[8] := state[10];
    state[10] := t;
    t := state[9];
    state[9] := state[11];
    state[11] := t;
  }

  method TurnRow3(state: array<Byte>)
    requires state.Length == 16
    modifies state
    ensures RowTurned(state[..], old(state[..]), 3)
  {
    var t := state[15];
    state[15] := state[14];
    state[14] := state[13];
    state[13] := state[12];
    state[12] := t;
  }

  method ShiftRowsInPlace(state: array<Byte>)
    requires state.Length == 16
    modifies state
    ensures state[..] == ShiftRows(old(state[..]))
  {
    hide RowTurned, ShiftRows;
    ghost var s0: State := state[..];
    TurnRow1(state);
    ghost var s1: State := state[..];
    TurnRow2(state);
    ghost var s2: State := state[..];
    TurnRow3(state);
    RowsTurned(s0, s1, s2, state[..]);
  }

  method TurnBackRow1(state: array<Byte>)
    requires state.Length == 16
    modifies state
    ensures RowTurned(old(state[..]), state[..], 1)
  {
    var t := state[7];
    state[7] := state[6];
    state[6] := state[5];
    state[5] := state[4];
    state[4] := t;
  }

  method TurnBackRow2(state: array<Byte>)
    requires state.Length == 16
    modifies state
    ensures RowTurned(old(state[..]), state[..], 2)
  {
    var t := state[8];
    state[8] := state[10];
    state[10] := t;
    t := state[9];
    state[9] := state[11];
    state[11] := t;
  }

  method TurnBackRow3(state: array<Byte>)
    requires state.Length == 16
    modifies state
    ensures RowTurned(old(state[..]), state[..], 3)
  {
    var t := state[12];
    state[12] := state[13];
    state[13] := state[14];
    state[14] := state[15];
    state[15] := t;
  }

  method InvShiftRowsInPlace(state: array<Byte>)
    requires state.Length == 16
    modifies state
    ensures state[..] == InvShiftRows(old(state[..]))
  {
    hide RowTurned, InvShiftRows;
    ghost var s0: State := state[..];
    TurnBackRow1(state);
    ghost var s1: State := state[..];
    TurnBackRow2(state);
    ghost var s2: State := state[..];
    TurnBackRow3(state);
    RowsTurnedBack(s0, s1, s2, state[..]);
  }

  /** `muggle_aes_mix_column` with one matrix, `muggle_aes_inv_mix_column` with the other. */
  method ColumnsInPlace(m: seq<Byte>, state: array<Byte>)
    requires |m| == 16 && state.Length == 16
    modifies state
    ensures state[..] == Columns(m, old(state[..]))
  {
    hide Row, Columns;
    var arr: State := state[..];
    for i := 0 to 4
      invariant forall k | 0 <= k < 4 * i :: state[k] == Columns(m, arr)[k]
    {
      for j := 0 to 4
        invariant forall k | 0 <= k < 4 * i + j :: state[k] == Columns(m, arr)[k]
      {
        var a := GaloisMul(m[i * 4], arr[j]);
        var b := GaloisMul(m[i * 4 + 1], arr[4 + j]);
        var c := GaloisMul(m[i * 4 + 2], arr[8 + j]);
        var d := GaloisMul(m[i * 4 + 3], arr[12 + j]);
        state[4 * i + j] := Xor(Xor(Xor(a, b), c), d);
        ColumnsAt(m, arr, i, j);
        RowIs(m, i, arr[j], arr[4 + j], arr[8 + j], arr[12 + j]);
      }
    }
  }

  lemma RowIs(m: seq<Byte>, i: nat, a: Byte, b: Byte, c: Byte, d: Byte)
    requires |m| == 16 && i < 4
    ensures Row(m, i, a, b, c, d)
            == Xor(Xor(Xor(Product(m[i * 4], a), Product(m[i * 4 + 1], b)), Product(m[i * 4 + 2], c)),
                   Product(m[i * 4 + 3], d))
  {
    hide Xor, Product;
  }

  // ------------------------------------------------------------------------- a whole block

  /** The round counts of the three key sizes. */
  predicate Supported(rounds: int) { rounds == 10 || rounds == 12 || rounds == 14 }

  datatype Status = Success | InvalidParam

  method EncryptRound(state: array<Byte>, keys: seq<Word>, n: nat, ghost s: State)
    requires state.Length == 16 && n > 0 && 4 * n + 4 <= |keys|
    requires state[..] == Rounds(s, keys, n - 1)
    modifies state
    ensures state[..] == Rounds(s, keys, n)
  {
    hide AddRoundKey, Columns, ShiftRows, SubBytes, KeyOf;
    SubBytesInPlace(state);
    ShiftRowsInPlace(state);
    ColumnsInPlace(Mixing, state);
    AddRoundKeyInPlace(state, keys, n);
  }

  method EncryptLast(state: array<Byte>, keys: seq<Word>, n: nat)
    requires state.Length == 16 && 4 * n + 4 <= |keys|
    modifies state
    ensures state[..] == LastRound(old(state[..]), KeyOf(keys, n))
  {
    hide AddRoundKey, ShiftRows, SubBytes, KeyOf;
    SubBytesInPlace(state);
    ShiftRowsInPlace(state);
    AddRoundKeyInPlace(state, keys, n);
  }

  method DecryptLast(state: array<Byte>, keys: seq<Word>, n: nat)
    requires state.Length == 16 && 4 * n + 4 <= |keys|
    modifies state
    ensures state[..] == InvLastRound(old(state[..]), KeyOf(keys, n))
  {
    hide AddRoundKey, InvShiftRows, InvSubBytes, KeyOf;
    AddRoundKeyInPlace(state, keys, n);
    InvShiftRowsInPlace(state);
    InvSubBytesInPlace(state);
  }

  method DecryptRound(state: array<Byte>, keys: seq<Word>, n: nat)
    requires state.Length == 16 && 4 * n + 4 <= |keys|
    modifies state
    ensures state[..] == InvRound(old(state[..]), KeyOf(keys, n))
  {
    hide AddRoundKey, Columns, InvShiftRows, InvSubBytes, KeyOf;
    AddRoundKeyInPlace(state, keys, n);
    ColumnsInPlace(Unmixing, state);
    InvShiftRowsInPlace(state);
    InvSubBytesInPlace(state);
  }

  /** The nine rounds every key size has. */
  method EncryptNine(state: array<Byte>, keys: seq<Word>)
    requires state.Length == 16 && |keys| == 60
    modifies state
    ensures state[..] == Rounds(old(state[..]), keys, 9)
  {
    hide AddRoundKey, Round, KeyOf;
    ghost var s: State := state[..];
    AddRoundKeyInPlace(state, keys, 0);
    hide Rounds;
    EncryptRound(state, keys, 1, s);
    EncryptRound(state, keys, 2, s);
    EncryptRound(state, keys, 3, s);
    EncryptRound(state, keys, 4, s);
    EncryptRound(state, keys, 5, s);
    EncryptRound(state, keys, 6, s);
    EncryptRound(state, keys, 7, s);
    EncryptRound(state, keys, 8, s);
    EncryptRound(state, keys, 9, s);
  }

  /** `muggle_aes_encrypt`. */
  method Encrypt(state: array<Byte>, keys: seq<Word>, rounds: int) returns (err: Status)
    requires state.Length == 16 && |keys| == 60
    modifies state
    ensures err == if Supported(rounds) then Success else InvalidParam
    ensures state[..] == if Supported(rounds) then Cipher(old(state[..]), keys, rounds) else old(state[..])
  {
    hide Rounds, LastRound, KeyOf;
    ghost var s: State := state[..];
    if rounds != 10 && rounds != 12 && rounds != 14 {
      return InvalidParam;
    }
    EncryptNine(state, keys);
    if rounds == 10 {
      EncryptLast(state, keys, 10);
    } else {
      EncryptRound(state, keys, 10, s);
      EncryptRound(state, keys, 11, s);
      if rounds == 12 {
        EncryptLast(state, keys, 12);
      } else if rounds == 14 {
        EncryptRound(state, keys, 12, s);
        EncryptRound(state, keys, 13, s);
        EncryptLast(state, keys, 14);
      }
    }
    return Success;
  }

  method DecryptNine(state: array<Byte>, keys: seq<Word>)
    requires state.Length == 16 && |keys| == 60
    modifies state
    ensures state[..] == InvRounds(old(state[..]), keys, 9)
  {
    hide AddRoundKey, InvRound, KeyOf;
    DecryptRound(state, keys, 9);
    DecryptRound(state, keys, 8);
    DecryptRound(state, keys, 7);
    DecryptRound(state, keys, 6);
    DecryptRound(state, keys, 5);
    DecryptRound(state, keys, 4);
    DecryptRound(state, keys, 3);
    DecryptRound(state, keys, 2);
    DecryptRound(state, keys, 1);
    AddRoundKeyInPlace(state, keys, 0);
  }

  /** `muggle_aes_decrypt`. */
  method Decrypt(state: array<Byte>, keys: seq<Word>, rounds: int) returns (err: Status)
    requires state.Length == 16 && |keys| == 60
    modifies state
    ensures err == if Supported(rounds) then Success else InvalidParam
    ensures state[..] == if Supported(rounds) then InvCipher(old(state[..]), keys, rounds) else old(state[..])
  {
    hide InvRound, InvLastRound, KeyOf;
    if rounds != 10 && rounds != 12 && rounds != 14 {
      return InvalidParam;
    }
    if rounds > 10 {
      if rounds == 14 {
        DecryptLast(state, keys, 14);
        DecryptRound(state, keys, 13);
        DecryptRound(state, keys, 12);
      } else {
        DecryptLast(state, keys, 12);
      }
      DecryptRound(state, keys, 11);
      DecryptRound(state, keys, 10);
    } else {
      DecryptLast(state, keys, 10);
    }
    DecryptNine(state, keys);
    return Success;
  }

  // ------------------------------------------------------------------------- the block entry point

  const DECRYPT := 0
  const ENCRYPT := 1

  /** Bytes come in column by column. */
  function Turn(k: nat): (j: nat)
    requires k < 16
    ensures j < 16
  {
    k % 4 * 4 + k / 4
  }

  function Transpose(s: State): State { seq(16, i requires 0 <= i < 16 => s[Turn(i)]) }

  lemma TransposeTwice(s: State)
    ensures Transpose(Transpose(s)) == s
  {
    forall k | 0 <= k < 16 ensures Turn(Turn(k)) == k {
    }
  }

  /** What `muggle_aes_crypt` leaves in its output: the input itself for a round count or an operation it rejects. */
  function Block(op: int, b: State, keys: seq<Word>, rounds: int): State
    requires |keys| == 60
  {
    if !Supported(rounds) then b
    else if op == ENCRYPT then Transpose(Cipher(Transpose(b), keys, rounds))
    else if op == DECRYPT then Transpose(InvCipher(Transpose(b), keys, rounds))
    else b
  }

  /** Decrypting an encrypted block gives the block back, and encrypting a decrypted one. */
  lemma BlockInverse(b: State, keys: seq<Word>, rounds: int)
    requires |keys| == 60
    ensures Block(DECRYPT, Block(ENCRYPT, b, keys, rounds), keys, rounds) == b
    ensures Block(ENCRYPT, Block(DECRYPT, b, keys, rounds), keys, rounds) == b
  {
    hide Cipher, InvCipher, Transpose;
    if Supported(rounds) {
      TransposeTwice(b);
      TransposeTwice(Cipher(Transpose(b), keys, rounds));
      TransposeTwice(InvCipher(Transpose(b), keys, rounds));
      CipherInverse(Transpose(b), keys, rounds);
    }
  }

  method Load(input: array<Byte>, i: nat) returns (state: array<Byte>)
    requires i + 16 <= input.Length
    ensures fresh(state) && state.Length == 16 && state[..] == Transpose(input[i..i + 16])
  {
    var b: State := input[i..i + 16];
    state := new Byte[] [
      b[0], b[4], b[8], b[12],
      b[1], b[5], b[9], b[13],
      b[2], b[6], b[10], b[14],
      b[3], b[7], b[11], b[15]];
  }

  method Store(state: array<Byte>, output: array<Byte>, o: nat)
    requires state.Length == 16 && o + 16 <= output.Length && state != output
    modifies output
    ensures output[..] == old(output[..o]) + Transpose(state[..]) + old(output[o + 16..])
  {
    forall k | 0 <= k < 16 {
      output[o + k] := state[Turn(k)];
    }
    assert output[o..o + 16] == Transpose(state[..]);
    assert output[..] == output[..o] + output[o..o + 16] + output[o + 16..];
  }

  /** `muggle_aes_crypt`; input and output may be the same bytes. */
  method Crypt(op: int, input: array<Byte>, i: nat, keys: seq<Word>, rounds: int, output: array<Byte>, o: nat)
    returns (err: Status)
    requires i + 16 <= input.Length && o + 16 <= output.Length && |keys| == 60
    modifies output
    ensures output[..] == old(output[..o]) + Block(op, old(input[i..i + 16]), keys, rounds) + old(output[o + 16..])
    ensures err.Success? <==> Supported(rounds) && (op == ENCRYPT || op == DECRYPT)
  {
    hide Cipher, InvCipher, Transpose;
    ghost var b: State := input[i..i + 16];
    TransposeTwice(b);
    var state := Load(input, i);
    if op == ENCRYPT {
      err := Encrypt(state, keys, rounds);
    } else if op == DECRYPT {
      err := Decrypt(state, keys, rounds);
    } else {
      err := InvalidParam;
    }
    Store(state, output, o);
  }
}
