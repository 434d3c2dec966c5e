/** Feistel rounds as `muggle/c/crypt/des.c` and `tdes.c` run them, for any round function. */
module Feistel {

  type Bits = seq<bool>

  /** The two 32-bit words of a block. */
  datatype Pair = Pair(l: Bits, h: Bits)

  type RoundFunction<!K> = (Bits, K) -> Bits

  ghost predicate Proper<K(!new)>(f: RoundFunction<K>) { forall x, k | |x| == 32 :: |f(x, k)| == 32 }

  ghost predicate Sized(p: Pair) { |p.l| == 32 && |p.h| == 32 }

  function XorBits(a: Bits, b: Bits): Bits
    requires |a| == |b|
  {
    seq(|a|, i requires 0 <= i < |a| => a[i] != b[i])
  }

  lemma XorBitsTwice(a: Bits, b: Bits)
    requires |a| == |b|
    ensures |XorBits(a, b)| == |a| && XorBits(XorBits(a, b), b) == a
  {
  }

  function Round<K(!new)>(f: RoundFunction<K>, k: K, p: Pair): (q: Pair)
    requires Proper(f) && Sized(p)
    ensures Sized(q)
  {
    Pair(p.h, XorBits(p.l, f(p.h, k)))
  }

  function Rounds<K(!new)>(f: RoundFunction<K>, ks: seq<K>, p: Pair): (q: Pair)
    requires Proper(f) && Sized(p)
    ensures Sized(q)
    decreases |ks|
  {
    if ks == [] then p else Rounds(f, ks[1..], Round(f, ks[0], p))
  }

  function Swap(p: Pair): Pair { Pair(p.h, p.l) }

  function Reverse<K>(ks: seq<K>): (r: seq<K>)
    ensures |r| == |ks|
    ensures forall i | 0 <= i < |ks| :: r[i] == ks[|ks| - 1 - i]
  {
    if ks == [] then [] else Reverse(ks[1..]) + [ks[0]]
  }

  lemma ReverseTwice<K>(ks: seq<K>)
    ensures Reverse(Reverse(ks)) == ks
  {
  }

  lemma ReverseJoin<K>(a: seq<K>, b: seq<K>)
    ensures Reverse(a + b) == Reverse(b) + Reverse(a)
  {
  }

  /** A round between two swaps undoes itself. */
  lemma RoundUndone<K(!new)>(f: RoundFunction<K>, k: K, p: Pair)
    requires Proper(f) && Sized(p)
    ensures Round(f, k, Swap(Round(f, k, p))) == Swap(p)
  {
    XorBitsTwice(p.l, f(p.h, k));
  }

  lemma {:induction false} RoundsJoin<K(!new)>(f: RoundFunction<K>, a: seq<K>, b: seq<K>, p: Pair)
    requires Proper(f) && Sized(p)
    ensures Rounds(f, a + b, p) == Rounds(f, b, Rounds(f, a, p))
    decreases |a|
  {
    hide Proper, Sized, Round;
    if a == [] {
      assert a + b == b;
    } else {
      assert (a + b)[1..] == a[1..] + b;
      RoundsJoin(f, a[1..], b, Round(f, a[0], p));
    }
  }

  lemma RoundsOne<K(!new)>(f: RoundFunction<K>, k: K, p: Pair)
    requires Proper(f) && Sized(p)
    ensures Rounds(f, [k], p) == Round(f, k, p)
  {
    hide Proper, Sized, Round;
    assert [k][1..] == [];
  }

  /** The rounds in reverse key order, between swaps, undo the rounds. */
  lemma {:induction false} RoundsUndone<K(!new)>(f: RoundFunction<K>, ks: seq<K>, p: Pair)
    requires Proper(f) && Sized(p)
    ensures Rounds(f, Reverse(ks), Swap(Rounds(f, ks, p))) == Swap(p)
    decreases |ks|
  {
    hide Proper, Round;
    if ks != [] {
      var q := Round(f, ks[0], p);
      RoundsUndone(f, ks[1..], q);
      RoundsJoin(f, Reverse(ks[1..]), [ks[0]], Swap(Rounds(f, ks, p)));
      RoundsOne(f, ks[0], Swap(q));
      RoundUndone(f, ks[0], p);
    }
  }

  /** Different states stay different. */
  lemma RoundsInjective<K(!new)>(f: RoundFunction<K>, ks: seq<K>, p: Pair, q: Pair)
    requires Proper(f) && Sized(p) && Sized(q) && Rounds(f, ks, p) == Rounds(f, ks, q)
    ensures p == q
  {
    hide Proper, Rounds;
    RoundsUndone(f, ks, p);
    RoundsUndone(f, ks, q);
  }
}
