/** The byte loops of CFB, OFB and CTR over arrays, proved to be the runs of `StreamModes`. */
module StreamLoops {
  import opened GaloisField
  import opened Ring
  import opened StreamModes

  datatype Status = Success | InvalidParam

  const DECRYPT := 0
  const ENCRYPT := 1

  /** What a loop has done after `i` bytes. */
  ghost predicate Progress(m: Mode, n: nat, e: Cipher, r: Register, data: seq<Byte>, i: nat,
                           now: Register, output: seq<Byte>)
    requires Sized(e, n) && Valid(m, n, r)
  {
    && i <= |data| && |output| == |data|
    && now == Final(m, n, e, r, data[..i])
    && output[..i] == Run(m, n, e, r, data[..i])
  }

  lemma ProgressStart(m: Mode, n: nat, e: Cipher, r: Register, data: seq<Byte>, output: seq<Byte>)
    requires Sized(e, n) && Valid(m, n, r) && |output| == |data|
    ensures Progress(m, n, e, r, data, 0, r, output)
  {
    assert data[..0] == [] && output[..0] == [];
    RunNone(m, n, e, r);
  }

  lemma ProgressStep(m: Mode, n: nat, e: Cipher, r: Register, data: seq<Byte>, i: nat, now: Register,
                     output: seq<Byte>, output': seq<Byte>)
    requires Sized(e, n) && Valid(m, n, r) && i < |data|
    requires Progress(m, n, e, r, data, i, now, output)
    requires output' == output[i := Output(m, n, e, now, data[i])]
    ensures Progress(m, n, e, r, data, i + 1, Next(m, n, e, now, data[i]), output')
  {
    hide Sized, Valid, Output, Next, Final, Run;
    var p := data[..i + 1];
    assert p[..i] == data[..i] && p[i] == data[i];
    RunLast(m, n, e, r, p);
    assert output'[..i + 1] == output[..i] + [Output(m, n, e, now, data[i])];
  }

  lemma ProgressEnd(m: Mode, n: nat, e: Cipher, r: Register, data: seq<Byte>, now: Register, output: seq<Byte>)
    requires Sized(e, n) && Valid(m, n, r)
    requires Progress(m, n, e, r, data, |data|, now, output)
    ensures now == Final(m, n, e, r, data) && output == Run(m, n, e, r, data)
  {
    assert data[..|data|] == data && output[..|data|] == output;
  }

  /** `muggle_aes_ofb128`, `muggle_des_ofb64`; input and output may be the same array. */
  method OfbBytes(n: nat, ghost k: nat, e: Cipher, input: array<Byte>, iv: array<Byte>, at: nat, output: array<Byte>)
    returns (err: Status, offset: nat)
    requires n == Pow2(k) && Sized(e, n) && iv.Length == n
    requires input.Length == output.Length && input != iv && output != iv
    modifies iv, output
    ensures at >= n ==> err == InvalidParam && offset == at && iv[..] == old(iv[..]) && output[..] == old(output[..])
    ensures at < n ==>
      var r := Register(old(iv[..]), at, 0);
      && err == Success
      && output[..] == Run(Ofb, n, e, r, old(input[..]))
      && Register(iv[..], offset, 0) == Final(Ofb, n, e, r, old(input[..]))
  {
    hide Final, Run, Slot, Mask, Progress;
    offset := at;
    if at >= n {
      return InvalidParam, at;
    }
    ghost var r := Register(iv[..], at, 0);
    ghost var data := input[..];
    ProgressStart(Ofb, n, e, r, data, output[..]);
    for i := 0 to input.Length
      invariant offset < n && iv.Length == n
      invariant Progress(Ofb, n, e, r, data, i, Register(iv[..], offset, 0), output[..])
      invariant forall j | i <= j < input.Length :: input[j] == data[j]
    {
      ghost var now, before := Register(iv[..], offset, 0), output[..];
      if offset == 0 {
        Copy(e(iv[..]), iv);
      }
      output[i] := Xor(input[i], iv[offset]);
      MaskIsMod(offset + 1, k);
      offset := Mask(offset + 1, n);
      ProgressStep(Ofb, n, e, r, data, i, now, before, output[..]);
    }
    ProgressEnd(Ofb, n, e, r, data, Register(iv[..], offset, 0), output[..]);
    return Success, offset;
  }

  /** `muggle_aes_ofb128`: the same loop over blocks of sixteen bytes, after a check of the operation. */
  method AesOfbBytes(op: int, e: Cipher, input: array<Byte>, iv: array<Byte>, at: nat, output: array<Byte>)
    returns (err: Status, offset: nat)
    requires Sized(e, 16) && iv.Length == 16 && input.Length == output.Length && input != iv && output != iv
    modifies iv, output
    ensures at >= 16 || (op != ENCRYPT && op != DECRYPT) ==>
      err == InvalidParam && offset == at && iv[..] == old(iv[..]) && output[..] == old(output[..])
    ensures at < 16 && (op == ENCRYPT || op == DECRYPT) ==>
      var r := Register(old(iv[..]), at, 0);
      && err == Success
      && output[..] == Run(Ofb, 16, e, r, old(input[..]))
      && Register(iv[..], offset, 0) == Final(Ofb, 16, e, r, old(input[..]))
  {
    hide Final, Run;
    if at >= 16 {
      return InvalidParam, at;
    }
    if op != ENCRYPT && op != DECRYPT {
      return InvalidParam, at;
    }
    assert Pow2(4) == 16;
    err, offset := OfbBytes(16, 4, e, input, iv, at, output);
  }

  method Copy(from: seq<Byte>, to: array<Byte>)
    requires |from| == to.Length
    modifies to
    ensures to[..] == from
  {
    forall i | 0 <= i < to.Length {
      to[i] := from[i];
    }
  }

  /**
   * `muggle_aes_cfb128`, `muggle_des_cfb64`. When input and output are the same array the byte fed back is the output
   * byte whatever the operation, because it has replaced the input byte by then.
   */
  method CfbBytes(op: int, n: nat, ghost k: nat, e: Cipher, input: array<Byte>, iv: array<Byte>, at: nat,
                  output: array<Byte>)
    returns (err: Status, offset: nat)
    requires n == Pow2(k) && Sized(e, n) && iv.Length == n
    requires input.Length == output.Length && input != iv && output != iv
    modifies iv, output
    ensures at >= n || (op != ENCRYPT && op != DECRYPT) ==>
      err == InvalidParam && offset == at && iv[..] == old(iv[..]) && output[..] == old(output[..])
    ensures at < n && (op == ENCRYPT || op == DECRYPT) ==>
      var m := Cfb(op == ENCRYPT || input == output);
      var r := Register(old(iv[..]), at, 0);
      && err == Success
      && output[..] == Run(m, n, e, r, old(input[..]))
      && Register(iv[..], offset, 0) == Final(m, n, e, r, old(input[..]))
  {
    hide Final, Run, Slot, Mask, Progress;
    offset := at;
    if at >= n || (op != ENCRYPT && op != DECRYPT) {
      return InvalidParam, at;
    }
    ghost var m := Cfb(op == ENCRYPT || input == output);
    ghost var r := Register(iv[..], at, 0);
    ghost var data := input[..];
    ProgressStart(m, n, e, r, data, output[..]);
    for i := 0 to input.Length
      invariant offset < n && iv.Length == n
      invariant Progress(m, n, e, r, data, i, Register(iv[..], offset, 0), output[..])
      invariant forall j | i <= j < input.Length :: input[j] == data[j]
    {
      ghost var now, before := Register(iv[..], offset, 0), output[..];
      if offset == 0 {
        Copy(e(iv[..]), iv);
      }
      output[i] := Xor(input[i], iv[offset]);
      if op == ENCRYPT {
        iv[offset] := output[i];
      } else {
        iv[offset] := input[i];
      }
      MaskIsMod(offset + 1, k);
      offset := Mask(offset + 1, n);
      ProgressStep(m, n, e, r, data, i, now, before, output[..]);
    }
    ProgressEnd(m, n, e, r, data, Register(iv[..], offset, 0), output[..]);
    return Success, offset;
  }

  // ------------------------------------------------------------------------- the counter

  const WORD: nat := 0x1_0000_0000_0000_0000

  type Word = w: nat | w < WORD

  /** The value of a nonce held in two words, the low word first. */
  function Value(lo: Word, hi: Word): nat { lo + WORD * hi }

  /** Two words with a carry count modulo 2^128. */
  lemma CarryIsSuccessor(lo: Word, hi: Word)
    ensures Value(lo, hi) < WORD * WORD
    ensures var lo' := (lo + 1) % WORD;
      var hi' := if lo' == 0 then (hi + 1) % WORD else hi;
      Value(lo', hi') == Slot(Value(lo, hi) + 1, WORD * WORD)
  {
    var lo' := (lo + 1) % WORD;
    var v := Value(lo, hi) + 1;
    if lo + 1 < WORD {
      assert lo' == lo + 1;
      ModUnique(v, WORD * WORD, 0, v);
    } else if hi + 1 < WORD {
      assert lo' == 0 && v == WORD * (hi + 1);
      ModUnique(v, WORD * WORD, 0, v);
    } else {
      assert lo' == 0 && v == WORD * WORD;
      ModUnique(v, WORD * WORD, 1, 0);
    }
  }

  lemma BytesStep(x: nat, n: nat)
    requires n > 0
    ensures Bytes(x, n) == [(x % 256) as Byte] + Bytes(x / 256, n - 1)
  {
  }

  /** Taking off the lowest byte of a joined number. */
  lemma JoinStep(lo: nat, p: nat, hi: nat, q: nat)
    requires q == 256 * p && lo < q
    ensures lo / 256 < p && (lo + q * hi) / 256 == lo / 256 + p * hi && (lo + q * hi) % 256 == lo % 256
  {
    Regroup(lo, p, hi);
    ModUnique(lo + q * hi, 256, lo / 256 + p * hi, lo % 256);
  }

  lemma JoinFirst(x: nat, y: nat, lo: nat, hi: nat, i: nat, j: nat)
    requires i > 0 && x % 256 == lo % 256 && x / 256 == y && Bytes(y, i - 1 + j) == Bytes(lo / 256, i - 1) + Bytes(hi, j)
    ensures Bytes(x, i + j) == Bytes(lo, i) + Bytes(hi, j)
  {
    BytesStep(lo, i);
    BytesStep(x, i + j);
    hide Bytes;
  }

  lemma JoinNone(lo: nat, hi: nat, j: nat)
    requires lo < Pow2(0)
    ensures Bytes(lo + Pow2(0) * hi, j) == Bytes(lo, 0) + Bytes(hi, j)
  {
    assert lo == 0 && Pow2(0) == 1;
    assert lo + Pow2(0) * hi == hi;
    hide Bytes;
  }

  lemma {:induction false} BytesJoin(lo: nat, hi: nat, i: nat, j: nat)
    requires lo < Pow2(8 * i)
    ensures Bytes(lo + Pow2(8 * i) * hi, i + j) == Bytes(lo, i) + Bytes(hi, j)
    decreases i
  {
    hide Pow2, Bytes;
    if i == 0 {
      JoinNone(lo, hi, j);
    } else {
      var p, q := Pow2(8 * (i - 1)), Pow2(8 * i);
      PowByte(i);
      JoinStep(lo, p, hi, q);
      BytesJoin(lo / 256, hi, i - 1, j);
      JoinFirst(lo + q * hi, lo / 256 + p * hi, lo, hi, i, j);
    }
  }

  lemma PowByte(i: nat)
    requires i > 0
    ensures Pow2(8 * i) == 256 * Pow2(8 * (i - 1))
  {
    hide Pow2;
    var x := 8 * (i - 1);
    PowStep(x);
    PowStep(x + 1);
    PowStep(x + 2);
    PowStep(x + 3);
    PowStep(x + 4);
    PowStep(x + 5);
    PowStep(x + 6);
    PowStep(x + 7);
  }

  lemma PowStep(x: nat)
    ensures Pow2(x + 1) == 2 * Pow2(x)
  {
  }

  lemma Regroup(lo: nat, p: nat, hi: nat)
    ensures lo + 256 * p * hi == (lo / 256 + p * hi) * 256 + lo % 256
  {
    assert 256 * p * hi == 256 * (p * hi);
  }

  /** The bytes of the nonce array are the little-endian bytes of its value. */
  lemma NonceBytes(lo: Word, hi: Word)
    ensures Bytes(lo, 8) + Bytes(hi, 8) == Bytes(Value(lo, hi), 16)
  {
    assert Pow2(8 * 8) == WORD by { PowWords(); }
    BytesJoin(lo, hi, 8, 8);
  }

  method Advance(nonce: array<Word>)
    requires nonce.Length == 2
    modifies nonce
    ensures Value(nonce[0], nonce[1]) == Slot(old(Value(nonce[0], nonce[1])) + 1, WORD * WORD)
  {
    hide Value, Slot;
    CarryIsSuccessor(nonce[0], nonce[1]);
    nonce[0] := (nonce[0] + 1) % WORD;
    if nonce[0] == 0 {
      nonce[1] := (nonce[1] + 1) % WORD;
    }
  }

  /** `muggle_aes_ctr`: a nonce of two words; input and output may be the same array. */
  method CtrBytes(op: int, e: Cipher, input: array<Byte>, nonce: array<Word>, at: nat, stream: array<Byte>,
                  output: array<Byte>)
    returns (err: Status, offset: nat)
    requires Sized(e, 16) && stream.Length == 16 && nonce.Length == 2
    requires input.Length == output.Length && input != stream && output != stream
    requires nonce as object !in {input as object, stream as object, output as object}
    modifies nonce, stream, output
    ensures at >= 16 || (op != ENCRYPT && op != DECRYPT) ==>
      && err == InvalidParam && offset == at
      && nonce[..] == old(nonce[..]) && stream[..] == old(stream[..]) && output[..] == old(output[..])
    ensures at < 16 && (op == ENCRYPT || op == DECRYPT) ==>
      var m := Ctr(WORD * WORD);
      var r := Register(old(stream[..]), at, old(Value(nonce[0], nonce[1])));
      && err == Success
      && Valid(m, 16, r)
      && output[..] == Run(m, 16, e, r, old(input[..]))
      && Register(stream[..], offset, Value(nonce[0], nonce[1])) == Final(m, 16, e, r, old(input[..]))
  {
    hide Final, Run, Slot, Progress, Bytes, Value;
    offset := at;
    if at >= 16 || (op != ENCRYPT && op != DECRYPT) {
      return InvalidParam, at;
    }
    ghost var m := Ctr(WORD * WORD);
    ghost var r := Register(stream[..], at, Value(nonce[0], nonce[1]));
    ghost var data := input[..];
    CarryIsSuccessor(nonce[0], nonce[1]);
    ProgressStart(m, 16, e, r, data, output[..]);
    for i := 0 to input.Length
      invariant offset < 16 && stream.Length == 16 && nonce.Length == 2
      invariant Progress(m, 16, e, r, data, i, Register(stream[..], offset, Value(nonce[0], nonce[1])), output[..])
      invariant forall j | i <= j < input.Length :: input[j] == data[j]
    {
      ghost var now, before := Register(stream[..], offset, Value(nonce[0], nonce[1])), output[..];
      if offset == 0 {
        Advance(nonce);
        NonceBytes(nonce[0], nonce[1]);
        Copy(e(Bytes(nonce[0], 8) + Bytes(nonce[1], 8)), stream);
      }
      output[i] := Xor(input[i], stream[offset]);
      assert Pow2(4) == 16;
      MaskIsMod(offset + 1, 4);
      offset := Mask(offset + 1, 16);
      ProgressStep(m, 16, e, r, data, i, now, before, output[..]);
    }
    ProgressEnd(m, 16, e, r, data, Register(stream[..], offset, Value(nonce[0], nonce[1])), output[..]);
    return Success, offset;
  }

  /** `muggle_des_ctr` and `muggle_tdes_ctr`: a nonce of one word. */
  method CtrBytesOneWord(e: Cipher, input: array<Byte>, nonce: Word, at: nat, stream: array<Byte>, output: array<Byte>)
    returns (err: Status, counter: Word, offset: nat)
    requires Sized(e, 8) && stream.Length == 8
    requires input.Length == output.Length && input != stream && output != stream
    modifies stream, output
    ensures at >= 8 ==>
      && err == InvalidParam && offset == at && counter == nonce
      && stream[..] == old(stream[..]) && output[..] == old(output[..])
    ensures at < 8 ==>
      var r := Register(old(stream[..]), at, nonce);
      && err == Success
      && output[..] == Run(Ctr(WORD), 8, e, r, old(input[..]))
      && Register(stream[..], offset, counter) == Final(Ctr(WORD), 8, e, r, old(input[..]))
  {
    hide Final, Run, Progress, Bytes;
    offset, counter := at, nonce;
    if at >= 8 {
      return InvalidParam, nonce, at;
    }
    ghost var m, r := Ctr(WORD), Register(stream[..], at, nonce);
    ghost var data := input[..];
    ProgressStart(m, 8, e, r, data, output[..]);
    for i := 0 to input.Length
      invariant offset < 8 && stream.Length == 8
      invariant Progress(m, 8, e, r, data, i, Register(stream[..], offset, counter), output[..])
      invariant forall j | i <= j < input.Length :: input[j] == data[j]
    {
      ghost var now, before := Register(stream[..], offset, counter), output[..];
      if offset == 0 {
        counter := (counter + 1) % WORD;
        Copy(e(Bytes(counter, 8)), stream);
      }
      output[i] := Xor(input[i], stream[offset]);
      assert Pow2(3) == 8;
      MaskIsMod(offset + 1, 3);
      offset := Mask(offset + 1, 8);
      ProgressStep(m, 8, e, r, data, i, now, before, output[..]);
    }
    ProgressEnd(m, 8, e, r, data, Register(stream[..], offset, counter), output[..]);
    return Success, counter, offset;
  }
}
