/**
 * Decrypting CBC in place. `ChainLoops.CbcBlocks` shows that with one array for input and output the decrypting loop
 * chains plaintext blocks; this module says exactly which messages still come back.
 */
module InPlaceCbc {
  import opened GaloisField
  import opened StreamModes
  import opened ChainModes

  /** Every block but the last is left unchanged by the encryption. */
  ghost predicate Unmoved(n: nat, e: Cipher, iv: seq<Byte>, p: seq<Byte>)
    requires Ready(n, e, iv)
  {
    var c := Blocks(CbcEncrypt, n, e, iv, p);
    |p| >= n ==> |c| == |p| && c[..|p| - n] == p[..|p| - n]
  }

  /** What the in-place loop makes of the encrypted message. */
  ghost function Back(n: nat, e: Cipher, d: Cipher, k: seq<Byte>, j: seq<Byte>, p: seq<Byte>): seq<Byte>
    requires Ready(n, e, k) && Ready(n, d, j)
  {
    Blocks(CbcDecryptInPlace, n, d, j, Blocks(CbcEncrypt, n, e, k, p))
  }

  /** One block: encryption chained with `k`, decryption with `j`. */
  lemma StepBack(n: nat, e: Cipher, d: Cipher, k: seq<Byte>, j: seq<Byte>, b: seq<Byte>)
    requires Ready(n, e, k) && Ready(n, d, j) && Undoes(d, e, n) && |b| == n
    ensures |e(b)| == n && |Step(CbcEncrypt, e, k, b)| == n && |d(Step(CbcEncrypt, e, k, b))| == n
    ensures Step(CbcDecryptInPlace, d, j, Step(CbcEncrypt, e, k, b)) == b <==> k == j
  {
    hide Masked;
    StepSized(CbcEncrypt, n, e, k, b);
    StepSized(CbcDecryptInPlace, n, d, j, Step(CbcEncrypt, e, k, b));
    MaskedPair(b, k, j);
    assert k[..n] == k && j[..n] == j;
  }

  lemma BlocksHead(kind: Kind, n: nat, f: Cipher, iv: seq<Byte>, b: seq<Byte>, rest: seq<Byte>)
    requires Ready(n, f, iv) && |b| == n
    ensures |f(b)| == n && |Step(kind, f, iv, b)| == n && |Chained(kind, iv, b, Step(kind, f, iv, b))| == n
    ensures Blocks(kind, n, f, iv, b + rest)
            == Step(kind, f, iv, b) + Blocks(kind, n, f, Chained(kind, iv, b, Step(kind, f, iv, b)), rest)
  {
    hide Step, Chained;
    StepSized(kind, n, f, iv, b);
    assert (b + rest)[..n] == b && (b + rest)[n..] == rest;
  }

  /** The message comes back exactly if the chaining values agree and every block but the last is unmoved. */
  lemma {:induction false} BackExactly(n: nat, e: Cipher, d: Cipher, k: seq<Byte>, j: seq<Byte>, p: seq<Byte>, count: nat)
    requires Ready(n, e, k) && Ready(n, d, j) && Undoes(d, e, n) && count > 0 && Whole(n, |p|, count)
    ensures Back(n, e, d, k, j, p) == p <==> k == j && Unmoved(n, e, k, p)
    decreases count
  {
    hide Blocks, Step, Sized, Undoes, Whole;
    WholeStep(n, |p|, count);
    var b, rest := p[..n], p[n..];
    assert p == b + rest;
    StepBack(n, e, d, k, j, b);
    BlocksHead(CbcEncrypt, n, e, k, b, rest);
    var c := Step(CbcEncrypt, e, k, b);
    var cs := Blocks(CbcEncrypt, n, e, c, rest);
    BlocksHead(CbcDecryptInPlace, n, d, j, c, cs);
    var x := Step(CbcDecryptInPlace, d, j, c);
    JoinEqual(x, b, Back(n, e, d, c, x, rest), rest);
    BlocksLength(CbcEncrypt, n, e, c, rest, count - 1);
    if count == 1 {
      EmptyWhole(n, |rest|);
      BlocksNone(CbcEncrypt, n, e, c, rest);
      BlocksNone(CbcDecryptInPlace, n, d, x, []);
    } else {
      BackExactly(n, e, d, c, x, rest, count - 1);
      WholeStep(n, |rest|, count - 1);
      var m := |rest| - n;
      assert (c + cs)[..|p| - n] == c + cs[..m] && p[..|p| - n] == b + rest[..m];
      JoinEqual(c, b, cs[..m], rest[..m]);
    }
  }

  /** CBC decryption in place returns a message exactly if encryption leaves every block but the last as it is. */
  lemma InPlaceExactly(n: nat, e: Cipher, d: Cipher, iv: seq<Byte>, p: seq<Byte>, count: nat)
    requires Ready(n, e, iv) && Ready(n, d, iv) && Undoes(d, e, n) && Whole(n, |p|, count)
    ensures Blocks(CbcDecryptInPlace, n, d, iv, Blocks(CbcEncrypt, n, e, iv, p)) == p <==> Unmoved(n, e, iv, p)
  {
    hide Blocks, Sized, Undoes, Whole;
    if count == 0 {
      EmptyWhole(n, |p|);
      BlocksNone(CbcEncrypt, n, e, iv, p);
      BlocksNone(CbcDecryptInPlace, n, d, iv, p);
    } else {
      BackExactly(n, e, d, iv, iv, p, count);
    }
  }

  // ------------------------------------------------------------------------- for one cipher

  /** Under this cipher every message of `count` blocks comes back, whatever the chaining value. */
  ghost predicate InPlaceSafe(n: nat, e: Cipher, d: Cipher, count: nat)
    requires n > 0 && Sized(e, n) && Sized(d, n)
  {
    forall iv: seq<Byte>, p: seq<Byte> | |iv| == n && Whole(n, |p|, count) :: Back(n, e, d, iv, iv, p) == p
  }

  lemma MaskedZero(k: seq<Byte>)
    ensures Masked(All(|k|, 0), k) == k
  {
    hide Xor;
    forall i | 0 <= i < |k| ensures Masked(All(|k|, 0), k)[i] == k[i] {
      XorZero(k[i]);
    }
  }

  /** A block of zeros is moved under one of two chaining values. */
  lemma SomeMoved(n: nat, e: Cipher, d: Cipher) returns (iv: seq<Byte>)
    requires n > 0 && Sized(e, n) && Undoes(d, e, n)
    ensures |iv| == n && |e(All(n, 0))| == n && Step(CbcEncrypt, e, iv, All(n, 0)) != All(n, 0)
  {
    var z, o := All(n, 0), All(n, 1);
    assert z[0] != o[0];
    MaskedZero(z);
    MaskedZero(o);
    assert d(e(z)) != d(e(o));
    iv := if e(z) == z then o else z;
  }

  lemma ManyFail(n: nat, e: Cipher, d: Cipher, count: nat)
    requires n > 0 && Sized(e, n) && Sized(d, n) && Undoes(d, e, n) && count >= 2
    ensures !InPlaceSafe(n, e, d, count)
  {
    hide Blocks, Step, Undoes;
    var iv := SomeMoved(n, e, d);
    var z, p := All(n, 0), All(n * count, 0);
    assert n * count == n + n * (count - 1) && n * (count - 1) >= n by { Products(n, count); }
    assert p == z + All(n * (count - 1), 0);
    BlocksHead(CbcEncrypt, n, e, iv, z, All(n * (count - 1), 0));
    BlocksLength(CbcEncrypt, n, e, iv, p, count);
    var c := Blocks(CbcEncrypt, n, e, iv, p);
    assert c[..n] == Step(CbcEncrypt, e, iv, z);
    assert c[..|p| - n][..n] == c[..n] && p[..|p| - n][..n] == z;
    InPlaceExactly(n, e, d, iv, p, count);
    assert Back(n, e, d, iv, iv, p) != p;
  }

  lemma Products(n: nat, count: nat)
    requires n > 0 && count >= 2
    ensures n * count == n + n * (count - 1) && n * (count - 1) >= n
  {
  }

  /** In place, CBC decryption is right for one block and no more, under every single cipher. */
  lemma InPlaceSafeExactly(n: nat, e: Cipher, d: Cipher, count: nat)
    requires n > 0 && Sized(e, n) && Sized(d, n) && Undoes(d, e, n)
    ensures InPlaceSafe(n, e, d, count) <==> count <= 1
  {
    hide Blocks, Undoes, Sized;
    if count <= 1 {
      forall iv: seq<Byte>, p: seq<Byte> | |iv| == n && Whole(n, |p|, count) ensures Back(n, e, d, iv, iv, p) == p {
        InPlaceExactly(n, e, d, iv, p, count);
        BlocksLength(CbcEncrypt, n, e, iv, p, count);
        assert |p| >= n ==> |p| - n == 0;
      }
    } else {
      ManyFail(n, e, d, count);
    }
  }
}
