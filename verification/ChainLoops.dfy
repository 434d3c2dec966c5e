/** The block loops of ECB and CBC over arrays, proved to be the block runs of `ChainModes`. */
module ChainLoops {
  import opened GaloisField
  import opened Ring
  import opened StreamModes
  import opened ChainModes
  import opened StreamLoops

  /** What a loop has done after `done` bytes. */
  ghost predicate Progressed(k: Kind, n: nat, f: Cipher, iv: seq<Byte>, data: seq<Byte>, done: nat,
                             chain: seq<Byte>, output: seq<Byte>)
    requires Ready(n, f, iv)
  {
    && done <= |data| && |output| == |data|
    && chain == Chain(k, n, f, iv, data[..done])
    && output[..done] == Blocks(k, n, f, iv, data[..done])
  }

  lemma Start(k: Kind, n: nat, f: Cipher, iv: seq<Byte>, data: seq<Byte>, output: seq<Byte>)
    requires Ready(n, f, iv) && |output| == |data|
    ensures Progressed(k, n, f, iv, data, 0, iv, output)
  {
    assert data[..0] == [] && output[..0] == [];
    BlocksNone(k, n, f, iv, []);
  }

  lemma Advanced(k: Kind, n: nat, f: Cipher, iv: seq<Byte>, data: seq<Byte>, i: nat, done: nat, chain: seq<Byte>,
                 output: seq<Byte>, output': seq<Byte>)
    requires Ready(n, f, iv) && Whole(n, done, i) && done + n <= |data|
    requires Progressed(k, n, f, iv, data, done, chain, output)
    requires |f(data[done..done + n])| == |chain| == n
    requires output' == output[..done] + Step(k, f, chain, data[done..done + n]) + output[done + n..]
    requires |output'| == |output|
    ensures var b := data[done..done + n];
      Progressed(k, n, f, iv, data, done + n, Chained(k, chain, b, Step(k, f, chain, b)), output')
  {
    hide Blocks, Chain, Step, Chained, Sized;
    var a, b := data[..done], data[done..done + n];
    assert data[..done + n] == a + b;
    ChainModes.Chunks(k, n, f, iv, a, i, b);
    BlocksOne(k, n, f, chain, b);
    assert output'[..done + n] == output[..done] + Step(k, f, chain, b);
  }

  lemma Finish(k: Kind, n: nat, f: Cipher, iv: seq<Byte>, data: seq<Byte>, chain: seq<Byte>, output: seq<Byte>)
    requires Ready(n, f, iv)
    requires Progressed(k, n, f, iv, data, |data|, chain, output)
    ensures chain == Chain(k, n, f, iv, data) && output == Blocks(k, n, f, iv, data)
  {
    assert data[..|data|] == data && output[..|data|] == output;
  }

  lemma WholeUp(n: nat, len: nat, i: nat)
    requires Whole(n, len, i)
    ensures Whole(n, len + n, i + 1)
  {
  }

  lemma WholeBelow(n: nat, done: nat, i: nat, total: nat, count: nat)
    requires n > 0 && Whole(n, done, i) && Whole(n, total, count)
    ensures i < count ==> done + n <= total
    ensures i == count ==> done == total
  {
    if i < count {
      MulSign(count - i, n);
      assert n * count - n * i == (count - i) * n;
    }
  }

  /** Overwrites one block. */
  method Put(block: seq<Byte>, to: array<Byte>, at: nat)
    requires at + |block| <= to.Length
    modifies to
    ensures to[..] == old(to[..at]) + block + old(to[at + |block|..])
  {
    forall j | 0 <= j < |block| {
      to[at + j] := block[j];
    }
  }

  /** The operation's chaining, given whether input and output are the same array. */
  function KindOf(op: int, inPlace: bool): Kind {
    if op == ENCRYPT then CbcEncrypt else if inPlace then CbcDecryptInPlace else CbcDecrypt
  }

  /** `muggle_aes_ecb` and its DES counterparts; input and output may be the same array. */
  method EcbBlocks(n: nat, f: Cipher, input: array<Byte>, output: array<Byte>) returns (err: Status)
    requires Sized(f, n) && input.Length == output.Length
    modifies output
    ensures input.Length % n != 0 ==> err == InvalidParam && output[..] == old(output[..])
    ensures input.Length % n == 0 ==>
      err == Success && Ready(n, f, All(n, 0)) && output[..] == Blocks(Ecb, n, f, All(n, 0), old(input[..]))
  {
    hide Blocks, Chain, Progressed, Whole;
    if input.Length % n != 0 {
      return InvalidParam;
    }
    ghost var iv, data := All(n, 0), input[..];
    var len := input.Length / n;
    var offset: nat := 0;
    DivWhole(n, input.Length);
    ZeroWhole(n);
    Start(Ecb, n, f, iv, data, output[..]);
    for i := 0 to len
      invariant Whole(n, offset, i) && offset <= input.Length
      invariant Progressed(Ecb, n, f, iv, data, offset, iv, output[..])
      invariant forall j | offset <= j < input.Length :: input[j] == data[j]
    {
      WholeBelow(n, offset, i, input.Length, len);
      ghost var before := output[..];
      assert input[offset..offset + n] == data[offset..offset + n];
      Put(f(input[offset..offset + n]), output, offset);
      Advanced(Ecb, n, f, iv, data, i, offset, iv, before, output[..]);
      WholeUp(n, offset, i);
      offset := offset + n;
    }
    WholeBelow(n, offset, len, input.Length, len);
    Finish(Ecb, n, f, iv, data, iv, output[..]);
    return Success;
  }

  lemma DivWhole(n: nat, len: nat)
    requires n > 0 && len % n == 0
    ensures Whole(n, len, len / n)
  {
  }

  lemma ZeroWhole(n: nat)
    ensures Whole(n, 0, 0)
  {
  }

  method EncryptBlock(n: nat, f: Cipher, input: array<Byte>, iv: array<Byte>, output: array<Byte>, offset: nat)
    requires Sized(f, n) && iv.Length == n && input.Length == output.Length && input != iv && output != iv
    requires offset + n <= input.Length
    modifies iv, output
    ensures var b := old(input[offset..offset + n]);
      && iv[..] == Step(CbcEncrypt, f, old(iv[..]), b)
      && output[..] == old(output[..offset]) + iv[..] + old(output[offset + n..])
  {
    hide Masked;
    Copy(Masked(input[offset..offset + n], iv[..]), iv);
    Put(f(iv[..]), output, offset);
    Copy(output[offset..offset + n], iv);
  }

  method DecryptBlock(n: nat, f: Cipher, input: array<Byte>, iv: array<Byte>, output: array<Byte>, offset: nat)
    requires Sized(f, n) && iv.Length == n && input.Length == output.Length && input != iv && output != iv
    requires offset + n <= input.Length
    modifies iv, output
    ensures var b := old(input[offset..offset + n]);
      var out := Step(CbcDecrypt, f, old(iv[..]), b);
      && iv[..] == (if input == output then out else b)
      && output[..] == old(output[..offset]) + out + old(output[offset + n..])
  {
    hide Masked;
    Put(f(input[offset..offset + n]), output, offset);
    assert output[offset..offset + n] == f(old(input[offset..offset + n]));
    Put(Masked(output[offset..offset + n], iv[..]), output, offset);
    Copy(input[offset..offset + n], iv);
  }

  /** `muggle_aes_cbc` and its DES counterparts. */
  method CbcBlocks(op: int, n: nat, f: Cipher, input: array<Byte>, iv: array<Byte>, output: array<Byte>)
    returns (err: Status)
    requires Sized(f, n) && iv.Length == n && input.Length == output.Length && input != iv && output != iv
    modifies iv, output
    ensures input.Length % n != 0 || (op != ENCRYPT && op != DECRYPT) ==>
      err == InvalidParam && iv[..] == old(iv[..]) && output[..] == old(output[..])
    ensures input.Length % n == 0 && (op == ENCRYPT || op == DECRYPT) ==>
      var k := KindOf(op, input == output);
      && err == Success
      && output[..] == Blocks(k, n, f, old(iv[..]), old(input[..]))
      && iv[..] == Chain(k, n, f, old(iv[..]), old(input[..]))
  {
    hide Blocks, Chain, Progressed, Whole, Masked;
    if input.Length % n != 0 || (op != ENCRYPT && op != DECRYPT) {
      return InvalidParam;
    }
    ghost var k, iv0, data := KindOf(op, input == output), iv[..], input[..];
    var len := input.Length / n;
    var offset: nat := 0;
    DivWhole(n, input.Length);
    ZeroWhole(n);
    Start(k, n, f, iv0, data, output[..]);
    for i := 0 to len
      invariant Whole(n, offset, i) && offset <= input.Length && iv.Length == n
      invariant Progressed(k, n, f, iv0, data, offset, iv[..], output[..])
      invariant forall j | offset <= j < input.Length :: input[j] == data[j]
    {
      WholeBelow(n, offset, i, input.Length, len);
      ghost var before, chain := output[..], iv[..];
      ghost var b := data[offset..offset + n];
      assert input[offset..offset + n] == b;
      if op == ENCRYPT {
        EncryptBlock(n, f, input, iv, output, offset);
      } else {
        DecryptBlock(n, f, input, iv, output, offset);
      }
      Advanced(k, n, f, iv0, data, i, offset, chain, before, output[..]);
      WholeUp(n, offset, i);
      offset := offset + n;
    }
    WholeBelow(n, offset, len, input.Length, len);
    Finish(k, n, f, iv0, data, iv[..], output[..]);
    return Success;
  }
}
