/**
 * CFB, OFB and CTR of `muggle/c/crypt/aes.c` (and, with a block of 8 bytes, of `des.c` and `tdes.c`), for any block
 * function. The functions describe one byte and a run of bytes; the methods are the loops over arrays.
 */
module StreamModes {
  import opened GaloisField
  import opened Ring

  /** A block function; `Sized` says that it maps blocks of `n` bytes to blocks of `n` bytes. */
  type Cipher = seq<Byte> -> seq<Byte>

  ghost predicate Sized(e: Cipher, n: nat) { n > 0 && forall b | |b| == n :: |e(b)| == n }

  /** `d` is a left inverse of `e` on blocks. */
  ghost predicate Undoes(d: Cipher, e: Cipher, n: nat) { forall b | |b| == n :: d(e(b)) == b }

  datatype Mode = Cfb(encrypting: bool) | Ofb | Ctr(modulus: nat)

  /** The register an API call leaves behind for the next one. */
  datatype Register = Register(block: seq<Byte>, offset: nat, counter: nat)

  ghost predicate Valid(m: Mode, n: nat, r: Register) {
    && |r.block| == n && r.offset < n
    && (m.Ctr? ==> r.counter < m.modulus)
  }

  /** Little-endian bytes. */
  function Bytes(v: nat, n: nat): (b: seq<Byte>)
    ensures |b| == n
  {
    if n == 0 then [] else [(v % 256) as bv8] + Bytes(v / 256, n - 1)
  }

  // ------------------------------------------------------------------------- one byte, a run of bytes

  /** A new keystream block is made when the offset is back at zero. */
  function Refill(m: Mode, n: nat, e: Cipher, r: Register): Register
    requires m.Ctr? ==> m.modulus > 0
  {
    if r.offset != 0 then r
    else match m
      case Cfb(_) => r.(block := e(r.block))
      case Ofb => r.(block := e(r.block))
      case Ctr(modulus) =>
        var c := Slot(r.counter + 1, modulus);
        r.(counter := c, block := e(Bytes(c, n)))
  }

  /** CFB feeds the ciphertext byte back: the output when encrypting, the input when decrypting. */
  function Feedback(m: Mode, block: seq<Byte>, i: nat, x: Byte, y: Byte): seq<Byte>
    requires i < |block|
  {
    match m
    case Cfb(encrypting) => block[i := if encrypting then y else x]
    case Ofb => block
    case Ctr(_) => block
  }

  lemma RefillValid(m: Mode, n: nat, e: Cipher, r: Register)
    requires Sized(e, n) && Valid(m, n, r)
    ensures Valid(m, n, Refill(m, n, e, r)) && Refill(m, n, e, r).offset == r.offset
  {
  }

  function Output(m: Mode, n: nat, e: Cipher, r: Register, x: Byte): Byte
    requires Sized(e, n) && Valid(m, n, r)
  {
    RefillValid(m, n, e, r);
    Xor(x, Refill(m, n, e, r).block[r.offset])
  }

  function Next(m: Mode, n: nat, e: Cipher, r: Register, x: Byte): (r': Register)
    requires Sized(e, n) && Valid(m, n, r)
    ensures Valid(m, n, r')
  {
    RefillValid(m, n, e, r);
    var q := Refill(m, n, e, r);
    q.(block := Feedback(m, q.block, r.offset, x, Output(m, n, e, r, x)), offset := Slot(r.offset + 1, n))
  }

  function Final(m: Mode, n: nat, e: Cipher, r: Register, input: seq<Byte>): (r': Register)
    requires Sized(e, n) && Valid(m, n, r)
    ensures Valid(m, n, r')
    decreases |input|
  {
    if input == [] then r else Final(m, n, e, Next(m, n, e, r, input[0]), input[1..])
  }

  function Run(m: Mode, n: nat, e: Cipher, r: Register, input: seq<Byte>): (output: seq<Byte>)
    requires Sized(e, n) && Valid(m, n, r)
    ensures |output| == |input|
    decreases |input|
  {
    if input == [] then []
    else [Output(m, n, e, r, input[0])] + Run(m, n, e, Next(m, n, e, r, input[0]), input[1..])
  }

  // ------------------------------------------------------------------------- any split into calls

  /** Two calls in a row are one call on the joined input. */
  lemma {:induction false} Chunks(m: Mode, n: nat, e: Cipher, r: Register, a: seq<Byte>, b: seq<Byte>)
    requires Sized(e, n) && Valid(m, n, r)
    ensures Run(m, n, e, r, a + b) == Run(m, n, e, r, a) + Run(m, n, e, Final(m, n, e, r, a), b)
    ensures Final(m, n, e, r, a + b) == Final(m, n, e, Final(m, n, e, r, a), b)
    decreases |a|
  {
    hide Sized, Valid, Next, Output;
    if a == [] {
      assert a + b == b;
    } else {
      assert (a + b)[1..] == a[1..] + b;
      Chunks(m, n, e, Next(m, n, e, r, a[0]), a[1..], b);
    }
  }

  // ------------------------------------------------------------------------- decryption

  /** The mode that undoes a mode: the direction matters to CFB alone. */
  function Inverse(m: Mode): Mode {
    match m
    case Cfb(encrypting) => Cfb(!encrypting)
    case Ofb => m
    case Ctr(_) => m
  }

  lemma StepInverse(m: Mode, n: nat, e: Cipher, r: Register, x: Byte)
    requires Sized(e, n) && Valid(m, n, r)
    ensures Valid(Inverse(m), n, r)
    ensures var y := Output(m, n, e, r, x);
      Output(Inverse(m), n, e, r, y) == x && Next(Inverse(m), n, e, r, y) == Next(m, n, e, r, x)
  {
    hide Xor, Sized;
    var q := Refill(m, n, e, r);
    RefillValid(m, n, e, r);
    assert Refill(Inverse(m), n, e, r) == q;
    var k := q.block[r.offset];
    XorAssoc(x, k, k);
    XorZero(k);
    XorZero(x);
  }

  /** Decrypting what was encrypted from the same register gives the input back and leaves the same register. */
  lemma {:induction false} RunInverse(m: Mode, n: nat, e: Cipher, r: Register, input: seq<Byte>)
    requires Sized(e, n) && Valid(m, n, r)
    ensures Valid(Inverse(m), n, r)
    ensures Run(Inverse(m), n, e, r, Run(m, n, e, r, input)) == input
    ensures Final(Inverse(m), n, e, r, Run(m, n, e, r, input)) == Final(m, n, e, r, input)
    decreases |input|
  {
    hide Sized, Valid, Next, Output, Inverse;
    if input == [] {
      StepInverse(m, n, e, r, 0);
    } else {
      StepInverse(m, n, e, r, input[0]);
      var rest := Run(m, n, e, Next(m, n, e, r, input[0]), input[1..]);
      assert Run(m, n, e, r, input)[1..] == rest;
      RunInverse(m, n, e, Next(m, n, e, r, input[0]), input[1..]);
    }
  }

  // ------------------------------------------------------------------------- the keystream of OFB and CTR

  function Power(e: Cipher, k: nat, b: seq<Byte>): seq<Byte> {
    if k == 0 then b else Power(e, k - 1, e(b))
  }

  /** Whole turns of a ring of `n`. */
  function Turns(i: nat, n: nat): nat
    requires n > 0
  {
    i / n
  }

  lemma TurnsStep(i: nat, n: nat)
    requires n > 0
    ensures Turns(n + i, n) == 1 + Turns(i, n) && Slot(n + i, n) == Slot(i, n)
  {
    assert i == i / n * n + i % n;
    ModUnique(n + i, n, i / n + 1, i % n);
  }

  lemma TurnsBelow(i: nat, n: nat)
    requires i < n
    ensures Turns(i, n) == 0 && Slot(i, n) == i
  {
  }

  /** How many blocks are made up to byte `i` of a call that starts at `offset`. */
  function Refills(n: nat, offset: nat, i: nat): nat
    requires n > 0
  {
    Turns(offset + i, n) + if offset == 0 then 1 else 0
  }

  /** The block that masks byte `i`: the cipher iterated (OFB), the cipher of a counter value (CTR). */
  function Pad(m: Mode, n: nat, e: Cipher, r: Register, i: nat): seq<Byte>
    requires n > 0 && (m.Ctr? ==> m.modulus > 0)
  {
    var k := Refills(n, r.offset, i);
    if k == 0 then r.block
    else if m.Ctr? then e(Bytes(Slot(r.counter + k, m.modulus), n))
    else Power(e, k, r.block)
  }

  lemma RefillsStep(n: nat, offset: nat, i: nat)
    requires n > 0 && offset < n && i > 0
    ensures Refills(n, offset, i) == Refills(n, Slot(offset + 1, n), i - 1) + if offset == 0 then 1 else 0
    ensures Slot(offset + i, n) == Slot(Slot(offset + 1, n) + (i - 1), n)
  {
    hide Slot, Turns;
    if offset + 1 == n {
      TurnsStep(0, n);
      TurnsBelow(0, n);
      TurnsStep(i - 1, n);
    } else {
      TurnsBelow(offset + 1, n);
    }
  }

  lemma SlotStep(c: nat, k: nat, modulus: nat)
    requires modulus > 0
    ensures Slot(Slot(c + 1, modulus) + k, modulus) == Slot(c + (k + 1), modulus)
  {
    var q, d := (c + 1) / modulus, (c + 1) % modulus;
    assert c + 1 == q * modulus + d;
    var q', d' := (d + k) / modulus, (d + k) % modulus;
    assert d + k == q' * modulus + d';
    assert c + (k + 1) == (q + q') * modulus + d' by { Distribute(q, q', modulus); }
    ModUnique(c + (k + 1), modulus, q + q', d');
  }

  lemma Distribute(p: int, q: int, m: int)
    ensures (p + q) * m == p * m + q * m
  {
  }

  /** One byte on, the pad of a position is still the same block. */
  lemma PadStep(m: Mode, n: nat, e: Cipher, r: Register, x: Byte, i: nat)
    requires Sized(e, n) && Valid(m, n, r) && !m.Cfb? && i > 0
    ensures Pad(m, n, e, r, i) == Pad(m, n, e, Next(m, n, e, r, x), i - 1)
  {
    hide Sized, Refills, Output, Bytes, Slot;
    RefillsStep(n, r.offset, i);
    if r.offset == 0 {
      var k := Refills(n, Slot(r.offset + 1, n), i - 1);
      if m.Ctr? {
        SlotStep(r.counter, k, m.modulus);
      } else {
        PowerStep(e, k, r.block);
      }
    }
  }

  lemma PowerStep(e: Cipher, k: nat, b: seq<Byte>)
    ensures Power(e, k + 1, b) == Power(e, k, e(b))
  {
  }

  lemma RefillsFirst(n: nat, offset: nat)
    requires n > 0 && offset < n
    ensures Refills(n, offset, 0) == (if offset == 0 then 1 else 0) && Slot(offset + 0, n) == offset
  {
    hide Slot, Turns;
    TurnsBelow(offset, n);
  }

  lemma PadFirst(m: Mode, n: nat, e: Cipher, r: Register)
    requires Sized(e, n) && Valid(m, n, r) && !m.Cfb?
    ensures Pad(m, n, e, r, 0) == Refill(m, n, e, r).block && Slot(r.offset + 0, n) == r.offset
  {
    hide Sized, Refills, Slot, Bytes;
    RefillsFirst(n, r.offset);
    PowerStep(e, 0, r.block);
  }

  /** Output byte `i` is the input masked with byte (offset + i) mod n of that block. */
  lemma {:induction false} KeystreamAt(m: Mode, n: nat, e: Cipher, r: Register, input: seq<Byte>, i: nat)
    requires Sized(e, n) && Valid(m, n, r) && !m.Cfb? && i < |input|
    ensures |Pad(m, n, e, r, i)| == n
    ensures Run(m, n, e, r, input)[i] == Xor(input[i], Pad(m, n, e, r, i)[Slot(r.offset + i, n)])
    decreases i
  {
    hide Sized, Refills, Xor, Slot, Pad;
    if i == 0 {
      PadFirst(m, n, e, r);
      RefillValid(m, n, e, r);
    } else {
      hide Next, Output, Valid;
      var next := Next(m, n, e, r, input[0]);
      assert Run(m, n, e, r, input)[i] == Run(m, n, e, next, input[1..])[i - 1];
      KeystreamAt(m, n, e, next, input[1..], i - 1);
      PadStep(m, n, e, r, input[0], i);
      NextOffset(m, n, e, r, input[0]);
      RefillsStep(n, r.offset, i);
    }
  }

  lemma NextOffset(m: Mode, n: nat, e: Cipher, r: Register, x: Byte)
    requires Sized(e, n) && Valid(m, n, r)
    ensures Next(m, n, e, r, x).offset == Slot(r.offset + 1, n) && r.offset < n
  {
  }

  // ------------------------------------------------------------------------- CFB, block by block

  function Masked(p: seq<Byte>, k: seq<Byte>): (c: seq<Byte>)
    requires |p| <= |k|
    ensures |c| == |p|
  {
    seq(|p|, i requires 0 <= i < |p| => Xor(p[i], k[i]))
  }

  lemma XorPair(p: Byte, k: Byte, j: Byte)
    ensures Xor(Xor(p, k), j) == p <==> k == j
  {
    hide Xor;
    XorAssoc(p, k, j);
    XorZero(p);
    XorZero(k);
    XorZero(j);
    if Xor(Xor(p, k), j) == p {
      XorAssoc(p, p, Xor(k, j));
      XorZero(Xor(k, j));
      XorAssoc(k, j, j);
    }
  }

  /** Two masks cancel exactly if they are the same. */
  lemma MaskedPair(p: seq<Byte>, k: seq<Byte>, j: seq<Byte>)
    requires |p| <= |k| && |p| <= |j|
    ensures Masked(Masked(p, k), j) == p <==> k[..|p|] == j[..|p|]
  {
    hide Xor;
    forall i | 0 <= i < |p| ensures Masked(Masked(p, k), j)[i] == p[i] <==> k[i] == j[i] {
      XorPair(p[i], k[i], j[i]);
    }
    assert forall i | 0 <= i < |p| :: k[..|p|][i] == k[i] && j[..|p|][i] == j[i];
  }

  lemma MaskedTwice(p: seq<Byte>, k: seq<Byte>)
    requires |p| <= |k|
    ensures Masked(Masked(p, k), k) == p
  {
    MaskedPair(p, k, k);
  }

  lemma JoinEqual(a: seq<Byte>, b: seq<Byte>, x: seq<Byte>, y: seq<Byte>)
    requires |a| == |b|
    ensures a + x == b + y <==> a == b && x == y
  {
    if a + x == b + y {
      assert (a + x)[..|a|] == (b + y)[..|a|] && (a + x)[|a|..] == (b + y)[|a|..];
    }
  }

  function All(len: nat, v: Byte): seq<Byte> { seq(len, i => v) }

  /** CFB encryption of section 6.3 of NIST SP 800-38A, with full blocks and a shorter last one. */
  function CfbBlocks(n: nat, e: Cipher, iv: seq<Byte>, p: seq<Byte>): seq<Byte>
    requires Sized(e, n) && |iv| == n
    decreases |p|
  {
    if |p| <= n then Masked(p, e(iv))
    else
      var c := Masked(p[..n], e(iv));
      c + CfbBlocks(n, e, c, p[n..])
  }

  lemma RunOne(m: Mode, n: nat, e: Cipher, r: Register, x: Byte)
    requires Sized(e, n) && Valid(m, n, r)
    ensures Run(m, n, e, r, [x]) == [Output(m, n, e, r, x)] && Final(m, n, e, r, [x]) == Next(m, n, e, r, x)
  {
    hide Sized, Valid, Output, Next;
    assert [x][1..] == [];
  }

  /** The last byte of a run. */
  lemma RunLast(m: Mode, n: nat, e: Cipher, r: Register, p: seq<Byte>)
    requires Sized(e, n) && Valid(m, n, r) && p != []
    ensures var a, x := p[..|p| - 1], p[|p| - 1];
      var q := Final(m, n, e, r, a);
      Run(m, n, e, r, p) == Run(m, n, e, r, a) + [Output(m, n, e, q, x)] && Final(m, n, e, r, p) == Next(m, n, e, q, x)
  {
    hide Sized, Valid, Output, Next;
    var a, x := p[..|p| - 1], p[|p| - 1];
    assert p == a + [x];
    Chunks(m, n, e, r, a, [x]);
    RunOne(m, n, e, Final(m, n, e, r, a), x);
  }

  lemma MaskedLast(p: seq<Byte>, k: seq<Byte>)
    requires p != [] && |p| <= |k|
    ensures var i := |p| - 1; Masked(p, k) == Masked(p[..i], k) + [Xor(p[i], k[i])]
    ensures var i := |p| - 1; (Masked(p[..i], k) + k[i..])[i := Xor(p[i], k[i])] == Masked(p, k) + k[|p|..]
  {
    hide Xor;
  }

  lemma CfbStep(n: nat, e: Cipher, r: Register, k: seq<Byte>, x: Byte)
    requires Sized(e, n) && Valid(Cfb(true), n, r)
    requires k == if r.offset == 0 then e(r.block) else r.block
    ensures |k| == n
    ensures var y := Xor(x, k[r.offset]);
      && Output(Cfb(true), n, e, r, x) == y
      && Next(Cfb(true), n, e, r, x) == Register(k[r.offset := y], Slot(r.offset + 1, n), r.counter)
  {
  }

  lemma TailStep(x: seq<Byte>, k: seq<Byte>, p: seq<Byte>, o: nat)
    requires p != [] && o + |p| <= |k|
    requires x == k[..o] + Masked(p[..|p| - 1], k[o..]) + k[o + |p| - 1..]
    ensures |x| == |k| && x[o + |p| - 1] == k[o + |p| - 1] == k[o..][|p| - 1]
    ensures x[o + |p| - 1 := Xor(p[|p| - 1], k[o..][|p| - 1])] == k[..o] + Masked(p, k[o..]) + k[o + |p|..]
  {
    hide Xor, Masked;
    MaskedLast(p, k[o..]);
  }

  lemma FirstOfTail(k: seq<Byte>, x: Byte, o: nat)
    requires o < |k|
    ensures k[o := Xor(x, k[o])] == k[..o] + Masked([x], k[o..]) + k[o + 1..]
  {
    hide Xor, Masked;
    MaskedNone(k[o..]);
    assert [x][..0] == [] && k == k[..o] + [] + k[o..];
    TailStep(k, k, [x], o);
  }

  /** The register after a run inside a block: the output has replaced the bytes of the pad. */
  function Replaced(n: nat, r: Register, k: seq<Byte>, p: seq<Byte>): Register
    requires |k| == n && r.offset + |p| <= n && n > 0
  {
    var o := r.offset;
    Register(k[..o] + Masked(p, k[o..]) + k[o + |p|..], Slot(o + |p|, n), r.counter)
  }

  lemma ReplacedFirst(n: nat, e: Cipher, r: Register, k: seq<Byte>, x: Byte)
    requires Sized(e, n) && Valid(Cfb(true), n, r) && k == if r.offset == 0 then e(r.block) else r.block
    ensures |k| == n && Output(Cfb(true), n, e, r, x) == Xor(x, k[r.offset])
    ensures Next(Cfb(true), n, e, r, x) == Replaced(n, r, k, [x])
  {
    hide Xor, Slot, Output, Next, Masked;
    CfbStep(n, e, r, k, x);
    FirstOfTail(k, x, r.offset);
  }

  lemma ReplacedNext(n: nat, e: Cipher, r: Register, k: seq<Byte>, p: seq<Byte>)
    requires Sized(e, n) && |k| == n && |p| > 1 && r.offset + |p| <= n
    ensures var i := |p| - 1;
      var q := Replaced(n, r, k, p[..i]);
      && Valid(Cfb(true), n, q) && Output(Cfb(true), n, e, q, p[i]) == Xor(p[i], k[r.offset + i])
      && Next(Cfb(true), n, e, q, p[i]) == Replaced(n, r, k, p)
  {
    hide Xor, Slot, Output, Next, Masked;
    var o, i := r.offset, |p| - 1;
    var q := Replaced(n, r, k, p[..i]);
    TurnsBelow(o + i, n);
    TailStep(q.block, k, p, o);
    CfbStep(n, e, q, q.block, p[i]);
  }

  /** Inside a block the output is the mask with the pad, whose bytes the output then replaces. */
  lemma {:induction false} CfbFrom(n: nat, e: Cipher, r: Register, k: seq<Byte>, p: seq<Byte>)
    requires Sized(e, n) && Valid(Cfb(true), n, r) && 0 < |p| <= n - r.offset
    requires k == if r.offset == 0 then e(r.block) else r.block
    ensures |k| == n && Run(Cfb(true), n, e, r, p) == Masked(p, k[r.offset..])
    ensures Final(Cfb(true), n, e, r, p) == Replaced(n, r, k, p)
    decreases |p|
  {
    hide Sized, Xor, Run, Final, Output, Next, Masked, Replaced;
    var m, o, i := Cfb(true), r.offset, |p| - 1;
    ReplacedFirst(n, e, r, k, p[0]);
    RunLast(m, n, e, r, p);
    MaskedLast(p, k[o..]);
    assert k[o..][i] == k[o + i];
    if i == 0 {
      assert p[..0] == [] && p == [p[0]];
      RunNone(m, n, e, r);
      MaskedNone(k[o..]);
    } else {
      CfbFrom(n, e, r, k, p[..i]);
      ReplacedNext(n, e, r, k, p);
    }
  }

  lemma MaskedNone(k: seq<Byte>)
    ensures Masked([], k) == []
  {
  }

  lemma CfbWithin(n: nat, e: Cipher, iv: seq<Byte>, c: nat, p: seq<Byte>)
    requires Sized(e, n) && |iv| == n && 0 < |p| <= n
    ensures |e(iv)| == n && Run(Cfb(true), n, e, Register(iv, 0, c), p) == Masked(p, e(iv))
    ensures Final(Cfb(true), n, e, Register(iv, 0, c), p)
            == Register(Masked(p, e(iv)) + e(iv)[|p|..], Slot(|p|, n), c)
  {
    hide Masked, Run, Final, Slot;
    var k := e(iv);
    CfbFrom(n, e, Register(iv, 0, c), k, p);
    assert k[0..] == k && k[..0] == [];
  }

  lemma RunNone(m: Mode, n: nat, e: Cipher, r: Register)
    requires Sized(e, n) && Valid(m, n, r)
    ensures Run(m, n, e, r, []) == [] && Final(m, n, e, r, []) == r
  {
  }

  /** The byte loop computes CFB of the standard, the last block cut short. */
  lemma {:induction false} CfbMatches(n: nat, e: Cipher, iv: seq<Byte>, c: nat, p: seq<Byte>)
    requires Sized(e, n) && |iv| == n
    ensures Run(Cfb(true), n, e, Register(iv, 0, c), p) == CfbBlocks(n, e, iv, p)
    decreases |p|
  {
    hide Run, Final, Masked, Slot;
    var m, r := Cfb(true), Register(iv, 0, c);
    if p == [] {
      RunNone(m, n, e, r);
    } else if |p| <= n {
      CfbWithin(n, e, iv, c, p);
    } else {
      assert p == p[..n] + p[n..];
      Chunks(m, n, e, r, p[..n], p[n..]);
      CfbWithin(n, e, iv, c, p[..n]);
      TurnsStep(0, n);
      TurnsBelow(0, n);
      var b := Masked(p[..n], e(iv));
      assert b + e(iv)[n..] == b;
      CfbMatches(n, e, b, c, p[n..]);
    }
  }
}
