/**
 * ECB and CBC of `muggle/c/crypt/aes.c`, `des.c` and `tdes.c`, for any block function. `f` stands for the block
 * function of the operation: encryption of a block when encrypting, decryption of a block when decrypting.
 */
module ChainModes {
  import opened GaloisField
  import opened Ring
  import opened StreamModes

  /**
   * What a loop does with a block. In place, a decrypting CBC loop chains the plaintext block, because that has
   * replaced the ciphertext block by the time the block is copied.
   */
  datatype Kind = Ecb | CbcEncrypt | CbcDecrypt | CbcDecryptInPlace

  function Step(k: Kind, f: Cipher, iv: seq<Byte>, b: seq<Byte>): seq<Byte>
    requires |b| <= |iv| && |f(b)| <= |iv|
  {
    match k
    case Ecb => f(b)
    case CbcEncrypt => f(Masked(b, iv))
    case CbcDecrypt => Masked(f(b), iv)
    case CbcDecryptInPlace => Masked(f(b), iv)
  }

  function Chained(k: Kind, iv: seq<Byte>, b: seq<Byte>, out: seq<Byte>): seq<Byte> {
    match k
    case Ecb => iv
    case CbcEncrypt => out
    case CbcDecrypt => b
    case CbcDecryptInPlace => out
  }

  ghost predicate Ready(n: nat, f: Cipher, iv: seq<Byte>) { n > 0 && Sized(f, n) && |iv| == n }

  lemma StepSized(k: Kind, n: nat, f: Cipher, iv: seq<Byte>, b: seq<Byte>)
    requires Ready(n, f, iv) && |b| == n
    ensures |f(b)| == n && |Step(k, f, iv, b)| == n && |Chained(k, iv, b, Step(k, f, iv, b))| == n
  {
    hide Masked;
  }

  /** The bytes written for whole blocks of input. */
  function Blocks(k: Kind, n: nat, f: Cipher, iv: seq<Byte>, input: seq<Byte>): seq<Byte>
    requires Ready(n, f, iv)
    decreases |input|
  {
    if |input| < n then []
    else
      StepSized(k, n, f, iv, input[..n]);
      var out := Step(k, f, iv, input[..n]);
      out + Blocks(k, n, f, Chained(k, iv, input[..n], out), input[n..])
  }

  /** The chaining value left for the next call. */
  function Chain(k: Kind, n: nat, f: Cipher, iv: seq<Byte>, input: seq<Byte>): (iv': seq<Byte>)
    requires Ready(n, f, iv)
    ensures |iv'| == n
    decreases |input|
  {
    if |input| < n then iv
    else
      StepSized(k, n, f, iv, input[..n]);
      Chain(k, n, f, Chained(k, iv, input[..n], Step(k, f, iv, input[..n])), input[n..])
  }

  /** A whole number of blocks, counted. */
  predicate Whole(n: nat, len: nat, count: nat) { len == n * count }

  lemma WholeStep(n: nat, len: nat, count: nat)
    requires n > 0 && Whole(n, len, count)
    ensures len >= n <==> count > 0
    ensures count > 0 ==> Whole(n, len - n, count - 1)
  {
    MulSign(count, n);
    if count > 0 {
      assert n * (count - 1) == n * count - n;
    }
  }

  lemma {:induction false} BlocksLength(k: Kind, n: nat, f: Cipher, iv: seq<Byte>, input: seq<Byte>, count: nat)
    requires Ready(n, f, iv) && Whole(n, |input|, count)
    ensures |Blocks(k, n, f, iv, input)| == |input|
    decreases count
  {
    hide Whole, Step, Chained;
    WholeStep(n, |input|, count);
    if count > 0 {
      StepSized(k, n, f, iv, input[..n]);
      BlocksLength(k, n, f, Chained(k, iv, input[..n], Step(k, f, iv, input[..n])), input[n..], count - 1);
    } else {
      hide Blocks;
      BlocksNone(k, n, f, iv, input);
      EmptyWhole(n, |input|);
    }
  }

  lemma EmptyWhole(n: nat, len: nat)
    requires Whole(n, len, 0)
    ensures len == 0
  {
  }

  lemma BlocksNone(k: Kind, n: nat, f: Cipher, iv: seq<Byte>, input: seq<Byte>)
    requires Ready(n, f, iv) && |input| < n
    ensures Blocks(k, n, f, iv, input) == [] && Chain(k, n, f, iv, input) == iv
  {
  }

  // ------------------------------------------------------------------------- any split into calls

  lemma {:induction false} Chunks(k: Kind, n: nat, f: Cipher, iv: seq<Byte>, a: seq<Byte>, count: nat, b: seq<Byte>)
    requires Ready(n, f, iv) && Whole(n, |a|, count)
    ensures Blocks(k, n, f, iv, a + b) == Blocks(k, n, f, iv, a) + Blocks(k, n, f, Chain(k, n, f, iv, a), b)
    ensures Chain(k, n, f, iv, a + b) == Chain(k, n, f, Chain(k, n, f, iv, a), b)
    decreases count
  {
    hide Whole, Step, Chained, Sized;
    WholeStep(n, |a|, count);
    if count == 0 {
      EmptyWhole(n, |a|);
      assert a + b == b;
      BlocksNone(k, n, f, iv, a);
    } else {
      assert (a + b)[..n] == a[..n] && (a + b)[n..] == a[n..] + b;
      StepSized(k, n, f, iv, a[..n]);
      Chunks(k, n, f, Chained(k, iv, a[..n], Step(k, f, iv, a[..n])), a[n..], count - 1, b);
    }
  }

  // ------------------------------------------------------------------------- decryption

  function Inverse(k: Kind): Kind { if k == CbcEncrypt then CbcDecrypt else k }

  lemma StepInverse(k: Kind, n: nat, e: Cipher, d: Cipher, iv: seq<Byte>, b: seq<Byte>)
    requires (k == Ecb || k == CbcEncrypt) && Ready(n, e, iv) && Ready(n, d, iv) && Undoes(d, e, n) && |b| == n
    ensures |e(b)| == n && |Step(k, e, iv, b)| == n && |d(Step(k, e, iv, b))| == n
    ensures var c := Step(k, e, iv, b);
      Step(Inverse(k), d, iv, c) == b && Chained(Inverse(k), iv, c, b) == Chained(k, iv, b, c)
  {
    hide Masked;
    StepSized(k, n, e, iv, b);
    MaskedTwice(b, iv);
  }

  /** Decrypting with the same chaining value gives the input back, and leaves the same chaining value. */
  lemma {:induction false} BlocksInverse(k: Kind, n: nat, e: Cipher, d: Cipher, iv: seq<Byte>, p: seq<Byte>, count: nat)
    requires (k == Ecb || k == CbcEncrypt) && Ready(n, e, iv) && Ready(n, d, iv) && Undoes(d, e, n)
    requires Whole(n, |p|, count)
    ensures Blocks(Inverse(k), n, d, iv, Blocks(k, n, e, iv, p)) == p
    ensures Chain(Inverse(k), n, d, iv, Blocks(k, n, e, iv, p)) == Chain(k, n, e, iv, p)
    decreases count
  {
    hide Whole, Step, Chained, Sized, Undoes, Inverse;
    WholeStep(n, |p|, count);
    if count == 0 {
      EmptyWhole(n, |p|);
      BlocksNone(k, n, e, iv, p);
      BlocksNone(Inverse(k), n, d, iv, p);
    } else {
      StepInverse(k, n, e, d, iv, p[..n]);
      var c := Step(k, e, iv, p[..n]);
      StepSized(k, n, e, iv, p[..n]);
      var next := Chained(k, iv, p[..n], c);
      BlocksInverse(k, n, e, d, next, p[n..], count - 1);
      var all := Blocks(k, n, e, iv, p);
      assert all == c + Blocks(k, n, e, next, p[n..]);
      assert all[..n] == c && all[n..] == Blocks(k, n, e, next, p[n..]);
      assert p == p[..n] + p[n..];
    }
  }

  lemma BlocksOne(k: Kind, n: nat, f: Cipher, iv: seq<Byte>, b: seq<Byte>)
    requires Ready(n, f, iv) && |b| == n
    ensures |f(b)| == n && Blocks(k, n, f, iv, b) == Step(k, f, iv, b)
    ensures Chain(k, n, f, iv, b) == Chained(k, iv, b, Step(k, f, iv, b))
  {
    hide Step, Chained;
    StepSized(k, n, f, iv, b);
    assert b[..n] == b && b[n..] == [];
    BlocksNone(k, n, f, Chained(k, iv, b, Step(k, f, iv, b)), []);
  }

  // ------------------------------------------------------------------------- the equations of SP 800-38A

  /** Block `i` of a message. */
  function Part(n: nat, s: seq<Byte>, i: nat): (b: seq<Byte>)
    requires n * i + n <= |s|
    ensures |b| == n
  {
    s[n * i..n * i + n]
  }

  lemma PartFits(n: nat, len: nat, count: nat, i: nat)
    requires n > 0 && Whole(n, len, count) && i < count
    ensures n * i + n <= len && (i > 0 ==> n * (i - 1) + n <= len)
  {
    MulSign(count - i, n);
    assert n * count - n * i == (count - i) * n;
    assert i > 0 ==> n * (i - 1) == n * i - n;
  }

  lemma PartFirst(n: nat, a: seq<Byte>, s: seq<Byte>)
    requires |a| == n
    ensures n * 0 == 0 && Part(n, a + s, 0) == a
  {
    assert (a + s)[..n] == a;
  }

  lemma PartLater(n: nat, a: seq<Byte>, s: seq<Byte>, i: nat)
    requires |a| == n && n * i + n <= |s|
    ensures n * (i + 1) == n * i + n && Part(n, a + s, i + 1) == Part(n, s, i)
  {
  }

  /** What block `i` is chained with. */
  function Before(k: Kind, n: nat, iv: seq<Byte>, input: seq<Byte>, output: seq<Byte>, i: nat): (b: seq<Byte>)
    requires |iv| == n && |output| == |input| && n * i + n <= |input| && (i > 0 ==> n * (i - 1) + n <= |input|)
    ensures |b| == n
  {
    if i == 0 || k == Ecb then iv else if k == CbcDecrypt then Part(n, input, i - 1) else Part(n, output, i - 1)
  }

  lemma {:induction false} BlockAt(k: Kind, n: nat, f: Cipher, iv: seq<Byte>, input: seq<Byte>, count: nat, i: nat)
    requires Ready(n, f, iv) && Whole(n, |input|, count) && i < count
    ensures var output := Blocks(k, n, f, iv, input);
      && |output| == |input| && n * i + n <= |input| && (i > 0 ==> n * (i - 1) + n <= |input|)
      && |f(Part(n, input, i))| == n
      && Part(n, output, i) == Step(k, f, Before(k, n, iv, input, output, i), Part(n, input, i))
    decreases i
  {
    hide Whole, Step, Chained, Sized, Part;
    BlocksLength(k, n, f, iv, input, count);
    WholeStep(n, |input|, count);
    PartFits(n, |input|, count, i);
    var a, rest := input[..n], input[n..];
    assert input == a + rest;
    StepSized(k, n, f, iv, a);
    var out := Step(k, f, iv, a);
    var iv' := Chained(k, iv, a, out);
    var more := Blocks(k, n, f, iv', rest);
    assert Blocks(k, n, f, iv, input) == out + more;
    if i == 0 {
      PartFirst(n, a, rest);
      PartFirst(n, out, more);
    } else {
      BlockAt(k, n, f, iv', rest, count - 1, i - 1);
      PartLater(n, a, rest, i - 1);
      PartLater(n, out, more, i - 1);
      StepSized(k, n, f, iv, Part(n, input, i));
      BeforeLater(k, n, iv, a, rest, out, more, i);
    }
  }

  lemma BeforeLater(k: Kind, n: nat, iv: seq<Byte>, a: seq<Byte>, rest: seq<Byte>, out: seq<Byte>, more: seq<Byte>, i: nat)
    requires n > 0 && |iv| == |a| == |out| == n && |rest| == |more| && i > 0 && n * (i - 1) + n <= |rest|
    requires n * i + n <= |a + rest| && n * (i - 1) + n <= |a + rest| && (i > 1 ==> n * (i - 2) + n <= |rest|)
    requires |Chained(k, iv, a, out)| == n
    ensures Before(k, n, iv, a + rest, out + more, i) == Before(k, n, Chained(k, iv, a, out), rest, more, i - 1)
  {
    hide Part;
    if i == 1 {
      PartFirst(n, a, rest);
      PartFirst(n, out, more);
    } else {
      PartLater(n, a, rest, i - 2);
      PartLater(n, out, more, i - 2);
    }
  }

  /** Section 6.1: every block by itself. */
  lemma EcbEquation(n: nat, f: Cipher, iv: seq<Byte>, p: seq<Byte>, count: nat, i: nat)
    requires Ready(n, f, iv) && Whole(n, |p|, count) && i < count
    ensures var c := Blocks(Ecb, n, f, iv, p);
      |c| == |p| && n * i + n <= |p| && Part(n, c, i) == f(Part(n, p, i))
  {
    hide Whole, Blocks, Part;
    BlockAt(Ecb, n, f, iv, p, count, i);
  }

  /** Section 6.2: each block is masked with the ciphertext block before it, the first with the IV, and encrypted. */
  lemma CbcEncryptEquation(n: nat, e: Cipher, iv: seq<Byte>, p: seq<Byte>, count: nat, i: nat)
    requires Ready(n, e, iv) && Whole(n, |p|, count) && i < count
    ensures var c := Blocks(CbcEncrypt, n, e, iv, p);
      && |c| == |p| && n * i + n <= |p| && (i > 0 ==> n * (i - 1) + n <= |p|)
      && Part(n, c, i) == e(Masked(Part(n, p, i), if i == 0 then iv else Part(n, c, i - 1)))
  {
    hide Whole, Blocks, Part, Masked;
    BlockAt(CbcEncrypt, n, e, iv, p, count, i);
  }

  /** Section 6.2: each block is decrypted and masked with the ciphertext block before it. */
  lemma CbcDecryptEquation(n: nat, d: Cipher, iv: seq<Byte>, c: seq<Byte>, count: nat, i: nat)
    requires Ready(n, d, iv) && Whole(n, |c|, count) && i < count
    ensures var p := Blocks(CbcDecrypt, n, d, iv, c);
      && |p| == |c| && n * i + n <= |c| && (i > 0 ==> n * (i - 1) + n <= |c|) && |d(Part(n, c, i))| == n
      && Part(n, p, i) == Masked(d(Part(n, c, i)), if i == 0 then iv else Part(n, c, i - 1))
  {
    hide Whole, Blocks, Part, Masked;
    BlockAt(CbcDecrypt, n, d, iv, c, count, i);
  }

  /** In place the mask is the block just decrypted. */
  lemma CbcInPlaceEquation(n: nat, d: Cipher, iv: seq<Byte>, c: seq<Byte>, count: nat, i: nat)
    requires Ready(n, d, iv) && Whole(n, |c|, count) && i < count
    ensures var p := Blocks(CbcDecryptInPlace, n, d, iv, c);
      && |p| == |c| && n * i + n <= |c| && (i > 0 ==> n * (i - 1) + n <= |c|) && |d(Part(n, c, i))| == n
      && Part(n, p, i) == Masked(d(Part(n, c, i)), if i == 0 then iv else Part(n, p, i - 1))
  {
    hide Whole, Blocks, Part, Masked;
    BlockAt(CbcDecryptInPlace, n, d, iv, c, count, i);
  }

  /** The chaining value left is the last ciphertext block, and in place the last plaintext block. */
  lemma {:induction false} ChainIsLast(k: Kind, n: nat, f: Cipher, iv: seq<Byte>, input: seq<Byte>, count: nat)
    requires Ready(n, f, iv) && Whole(n, |input|, count) && count > 0 && k != Ecb
    ensures var output := Blocks(k, n, f, iv, input);
      && |output| == |input| && n * (count - 1) + n <= |input|
      && Chain(k, n, f, iv, input) == Part(n, if k == CbcDecrypt then input else output, count - 1)
    decreases count
  {
    hide Whole, Step, Sized, Part, Masked;
    BlocksLength(k, n, f, iv, input, count);
    WholeStep(n, |input|, count);
    PartFits(n, |input|, count, count - 1);
    var a, rest := input[..n], input[n..];
    assert input == a + rest;
    StepSized(k, n, f, iv, a);
    var out := Step(k, f, iv, a);
    var iv' := Chained(k, iv, a, out);
    var more := Blocks(k, n, f, iv', rest);
    assert Blocks(k, n, f, iv, input) == out + more;
    if count == 1 {
      EmptyWhole(n, |rest|);
      BlocksNone(k, n, f, iv', rest);
      PartFirst(n, a, rest);
      PartFirst(n, out, more);
    } else {
      ChainIsLast(k, n, f, iv', rest, count - 1);
      PartLater(n, a, rest, count - 2);
      PartLater(n, out, more, count - 2);
    }
  }
}
