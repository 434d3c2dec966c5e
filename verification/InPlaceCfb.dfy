/**
 * Decrypting CFB in place. `StreamLoops.CfbBytes` shows that with one array for input and output the decrypting loop
 * runs with the feedback of encryption; this module says exactly which messages still come back.
 */
module InPlaceCfb {
  import opened GaloisField
  import opened Ring
  import opened StreamModes

  /** What the in-place loop, starting from register `s`, makes of a message encrypted from register `r`. */
  ghost function Back(n: nat, e: Cipher, r: Register, s: Register, p: seq<Byte>): seq<Byte>
    requires Sized(e, n) && Valid(Cfb(true), n, r) && Valid(Cfb(true), n, s)
  {
    Run(Cfb(true), n, e, s, Run(Cfb(true), n, e, r, p))
  }

  /** At each block boundary the encrypted registers, one of ciphertext and one of plaintext, agree on the bytes used. */
  ghost predicate Agree(n: nat, e: Cipher, c: seq<Byte>, x: seq<Byte>, p: seq<Byte>)
    requires Sized(e, n) && |c| == n && |x| == n
    decreases |p|
  {
    if |p| <= n then e(c)[..|p|] == e(x)[..|p|]
    else e(c) == e(x) && Agree(n, e, Masked(p[..n], e(c)), p[..n], p[n..])
  }

  /** Both runs over a first part that ends a block, then over the rest. */
  lemma BackSplit(n: nat, e: Cipher, r: Register, s: Register, k: seq<Byte>, j: seq<Byte>, a: seq<Byte>, rest: seq<Byte>)
    requires Sized(e, n) && Valid(Cfb(true), n, r) && Valid(Cfb(true), n, s) && r.offset == s.offset
    requires k == (if r.offset == 0 then e(r.block) else r.block) && j == (if s.offset == 0 then e(s.block) else s.block)
    requires |a| == n - r.offset
    ensures |k| == |j| == n
    ensures var c := Masked(a, k[r.offset..]);
      var x := Masked(c, j[r.offset..]);
      var r', s' := Register(k[..r.offset] + c, 0, r.counter), Register(j[..r.offset] + x, 0, s.counter);
      Back(n, e, r, s, a + rest) == x + Back(n, e, r', s', rest)
  {
    hide Run, Final, Masked, Slot;
    var m, o := Cfb(true), r.offset;
    CfbFrom(n, e, r, k, a);
    var c := Masked(a, k[o..]);
    CfbFrom(n, e, s, j, c);
    var x := Masked(c, j[o..]);
    TurnsStep(0, n);
    TurnsBelow(0, n);
    assert k[..o] + c + k[n..] == k[..o] + c && j[..o] + x + j[n..] == j[..o] + x;
    Chunks(m, n, e, r, a, rest);
    Chunks(m, n, e, s, c, Run(m, n, e, Final(m, n, e, r, a), rest));
  }

  lemma {:induction false} BackExactly(n: nat, e: Cipher, c: seq<Byte>, x: seq<Byte>, u: nat, v: nat, p: seq<Byte>)
    requires Sized(e, n) && |c| == n && |x| == n
    ensures Back(n, e, Register(c, 0, u), Register(x, 0, v), p) == p <==> Agree(n, e, c, x, p)
    decreases |p|
  {
    hide Run, Masked;
    var r, s := Register(c, 0, u), Register(x, 0, v);
    var k, j := e(c), e(x);
    if p == [] {
      RunNone(Cfb(true), n, e, r);
      RunNone(Cfb(true), n, e, s);
    } else if |p| <= n {
      CfbWithin(n, e, c, u, p);
      CfbWithin(n, e, x, v, Masked(p, k));
      MaskedPair(p, k, j);
    } else {
      var a, rest := p[..n], p[n..];
      assert p == a + rest;
      BackSplit(n, e, r, s, k, j, a, rest);
      assert k[0..] == k && j[0..] == j && k[..0] == [] && j[..0] == [];
      var c', x' := Masked(a, k), Masked(Masked(a, k), j);
      assert k[..0] + c' == c' && j[..0] + x' == x';
      MaskedPair(a, k, j);
      assert k[..n] == k && j[..n] == j;
      JoinEqual(x', a, Back(n, e, Register(c', 0, u), Register(x', 0, v), rest), rest);
      BackExactly(n, e, c', x', u, v, rest);
    }
  }

  /** The message comes back up to the end of the current block, and from there on exactly while the registers agree. */
  lemma InPlaceExactly(n: nat, e: Cipher, r: Register, k: seq<Byte>, p: seq<Byte>)
    requires Sized(e, n) && Valid(Cfb(true), n, r)
    requires k == if r.offset == 0 then e(r.block) else r.block
    ensures |k| == n
    ensures |p| <= n - r.offset ==> Back(n, e, r, r, p) == p
    ensures |p| > n - r.offset ==>
      var a := p[..n - r.offset];
      Back(n, e, r, r, p) == p <==>
      Agree(n, e, k[..r.offset] + Masked(a, k[r.offset..]), k[..r.offset] + a, p[n - r.offset..])
  {
    hide Run, Masked;
    var o := r.offset;
    if p == [] {
      RunNone(Cfb(true), n, e, r);
    } else if |p| <= n - o {
      CfbFrom(n, e, r, k, p);
      CfbFrom(n, e, r, k, Masked(p, k[o..]));
      MaskedTwice(p, k[o..]);
    } else {
      var a, rest := p[..n - o], p[n - o..];
      assert p == a + rest;
      BackSplit(n, e, r, r, k, k, a, rest);
      MaskedTwice(a, k[o..]);
      var c, x := k[..o] + Masked(a, k[o..]), k[..o] + a;
      JoinEqual(a, a, Back(n, e, Register(c, 0, r.counter), Register(x, 0, r.counter), rest), rest);
      BackExactly(n, e, c, x, r.counter, r.counter, rest);
    }
  }

  // ------------------------------------------------------------------------- for one cipher

  /** Under this cipher every message of this length comes back, whatever the register. */
  ghost predicate InPlaceSafe(n: nat, e: Cipher, offset: nat, len: nat)
    requires offset < n && Sized(e, n)
  {
    forall b: seq<Byte>, p: seq<Byte> | |b| == n && |p| == len ::
      Back(n, e, Register(b, offset, 0), Register(b, offset, 0), p) == p
  }

  /** Up to the end of the current block in place is always right. */
  lemma ShortIsSafe(n: nat, e: Cipher, offset: nat, len: nat)
    requires offset < n && Sized(e, n) && len <= n - offset
    ensures InPlaceSafe(n, e, offset, len)
  {
    hide Sized, Back;
    forall b: seq<Byte>, p: seq<Byte> | |b| == n && |p| == len
      ensures Back(n, e, Register(b, offset, 0), Register(b, offset, 0), p) == p
    {
      ShortReturns(n, e, Register(b, offset, 0), p);
    }
  }

  lemma ShortReturns(n: nat, e: Cipher, r: Register, p: seq<Byte>)
    requires Sized(e, n) && Valid(Cfb(true), n, r) && |p| <= n - r.offset
    ensures Back(n, e, r, r, p) == p
  {
    hide Run;
    InPlaceExactly(n, e, r, if r.offset == 0 then e(r.block) else r.block, p);
  }

  lemma XorThird(x: Byte, y: Byte)
    ensures Xor(y, Xor(x, y)) == x
  {
    hide Xor;
    XorComm(y, Xor(x, y));
    XorAssoc(x, y, y);
    XorZero(y);
    XorZero(x);
  }

  lemma MaskedThird(x: seq<Byte>, y: seq<Byte>)
    requires |x| == |y|
    ensures Masked(y, Masked(x, y)) == x
  {
    hide Xor;
    forall i | 0 <= i < |x| ensures Masked(y, Masked(x, y))[i] == x[i] {
      XorThird(x[i], y[i]);
    }
  }

  /** Two blocks whose encryptions differ in the first byte, as ciphertext and plaintext of the first block. */
  lemma LongFails(n: nat, e: Cipher, d: Cipher, len: nat)
    requires n > 0 && Sized(e, n) && Sized(d, n) && Undoes(e, d, n) && len > n
    ensures !InPlaceSafe(n, e, 0, len)
  {
    hide Masked, Back;
    var x, y := d(All(n, 0)), d(All(n, 1));
    var k := Masked(x, y);
    var b, rest := d(k), All(len - n, 0);
    var p := y + rest;
    MaskedThird(x, y);
    var r := Register(b, 0, 0);
    InPlaceExactly(n, e, r, k, p);
    assert p[..n] == y && p[n..] == rest && k[..0] == [] && k[0..] == k;
    assert [] + x == x && [] + y == y;
    assert e(x)[0] == 0 && e(y)[0] == 1;
    Disagree(n, e, x, y, rest);
    assert Back(n, e, r, r, p) != p;
  }

  lemma Disagree(n: nat, e: Cipher, c: seq<Byte>, x: seq<Byte>, p: seq<Byte>)
    requires Sized(e, n) && |c| == n && |x| == n && p != [] && e(c)[0] != e(x)[0]
    ensures !Agree(n, e, c, x, p)
  {
    if |p| <= n {
      assert e(c)[..|p|][0] != e(x)[..|p|][0];
    }
  }

  lemma FarDisagree(n: nat, e: Cipher, c: seq<Byte>, x: seq<Byte>, p: seq<Byte>)
    requires Sized(e, n) && |c| == n && |x| == n && |p| >= n && e(c) != e(x)
    ensures !Agree(n, e, c, x, p)
  {
    if |p| == n {
      assert e(c)[..n] == e(c) && e(x)[..n] == e(x);
    }
  }

  /** A whole block past the boundary tells any two registers apart. */
  lemma FarFails(n: nat, e: Cipher, d: Cipher, offset: nat, len: nat)
    requires 0 < offset < n && Sized(e, n) && Undoes(d, e, n) && len >= 2 * n - offset
    ensures !InPlaceSafe(n, e, offset, len)
  {
    hide Masked, Back, Agree;
    var b, p := All(n, 1), All(len, 0);
    var r := Register(b, offset, 0);
    InPlaceExactly(n, e, r, b, p);
    var a, rest := p[..n - offset], p[n - offset..];
    MaskedOnes(n - offset, b[offset..]);
    var c, x := b[..offset] + Masked(a, b[offset..]), b[..offset] + a;
    assert a == All(n - offset, 0);
    assert c[n - 1] == 1 && x[n - 1] == 0;
    assert d(e(c)) != d(e(x));
    FarDisagree(n, e, c, x, rest);
    assert Back(n, e, r, r, p) != p;
  }

  lemma MaskedOnes(len: nat, k: seq<Byte>)
    requires len <= |k| && forall i | 0 <= i < |k| :: k[i] == 1
    ensures Masked(All(len, 0), k) == All(len, 1)
  {
    assert Xor(0, 1) == 1;
  }

  /** The first `m` bytes of an encrypted block are settled by the first `offset` bytes of the block. */
  ghost predicate Settled(n: nat, e: Cipher, offset: nat, m: nat)
    requires offset <= n && m <= n && Sized(e, n)
  {
    forall c: seq<Byte>, x: seq<Byte> | |c| == n && |x| == n && c[..offset] == x[..offset] :: e(c)[..m] == e(x)[..m]
  }

  lemma SettledReturns(n: nat, e: Cipher, r: Register, p: seq<Byte>)
    requires Sized(e, n) && Valid(Cfb(true), n, r) && r.offset > 0 && n - r.offset < |p| < 2 * n - r.offset
    requires Settled(n, e, r.offset, |p| - (n - r.offset))
    ensures Back(n, e, r, r, p) == p
  {
    hide Back, Masked;
    var o := r.offset;
    InPlaceExactly(n, e, r, r.block, p);
    var a := p[..n - o];
    var c, x := r.block[..o] + Masked(a, r.block[o..]), r.block[..o] + a;
    assert c[..o] == x[..o];
  }

  /** Any two blocks with the same beginning occur as the registers of one message. */
  lemma UnsettledFails(n: nat, e: Cipher, offset: nat, len: nat, c: seq<Byte>, x: seq<Byte>)
    requires 0 < offset < n && Sized(e, n) && n - offset < len < 2 * n - offset
    requires |c| == n && |x| == n && c[..offset] == x[..offset]
    requires e(c)[..len - (n - offset)] != e(x)[..len - (n - offset)]
    ensures !InPlaceSafe(n, e, offset, len)
  {
    hide Masked, Back;
    var a, rest := x[offset..], All(len - (n - offset), 0);
    var b, p := c[..offset] + Masked(c[offset..], a), a + rest;
    var r := Register(b, offset, 0);
    MaskedThird(c[offset..], a);
    InPlaceExactly(n, e, r, b, p);
    assert p[..n - offset] == a && p[n - offset..] == rest;
    assert b[..offset] == c[..offset] && b[offset..] == Masked(c[offset..], a);
    assert c[..offset] + c[offset..] == c && x[..offset] + x[offset..] == x;
    assert Back(n, e, r, r, p) != p;
  }

  /**
   * Which lengths are safe in place under a single cipher. From the start of a block: up to one block. From inside a
   * block: up to its end, and further, by less than a block, only where the beginning of a block settles the bytes used.
   */
  lemma InPlaceSafeExactly(n: nat, e: Cipher, d: Cipher, offset: nat, len: nat)
    requires offset < n && Sized(e, n) && Sized(d, n)
    requires Undoes(d, e, n) && Undoes(e, d, n)
    ensures offset == 0 ==> (InPlaceSafe(n, e, offset, len) <==> len <= n)
    ensures offset > 0 ==>
      (InPlaceSafe(n, e, offset, len) <==>
       len <= n - offset || (len < 2 * n - offset && Settled(n, e, offset, len - (n - offset))))
  {
    hide InPlaceSafe, Settled;
    if len <= n - offset {
      ShortIsSafe(n, e, offset, len);
    } else if offset == 0 {
      LongFails(n, e, d, len);
    } else if len >= 2 * n - offset {
      FarFails(n, e, d, offset, len);
    } else {
      MiddleExactly(n, e, offset, len);
    }
  }

  lemma MiddleExactly(n: nat, e: Cipher, offset: nat, len: nat)
    requires 0 < offset < n && Sized(e, n) && n - offset < len < 2 * n - offset
    ensures InPlaceSafe(n, e, offset, len) <==> Settled(n, e, offset, len - (n - offset))
  {
    hide Back;
    var m := len - (n - offset);
    if Settled(n, e, offset, m) {
      forall b: seq<Byte>, p: seq<Byte> | |b| == n && |p| == len
        ensures Back(n, e, Register(b, offset, 0), Register(b, offset, 0), p) == p
      {
        SettledReturns(n, e, Register(b, offset, 0), p);
      }
    } else {
      var c: seq<Byte>, x: seq<Byte> :| |c| == n && |x| == n && c[..offset] == x[..offset] && e(c)[..m] != e(x)[..m];
      UnsettledFails(n, e, offset, len, c, x);
    }
  }
}
