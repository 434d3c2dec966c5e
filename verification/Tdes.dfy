/** Triple DES of `muggle/c/crypt/tdes.c`: three stages of rounds inside one pair of permutations. */
module Tdes {
  import opened Feistel
  import opened Des

  /** `muggle_tdes_crypt`: the halves are swapped once, after the last stage. */
  function Crypt3<K(!new)>(f: RoundFunction<K>, k1: seq<K>, k2: seq<K>, k3: seq<K>, b: Block): Block
    requires Proper(f)
  {
    Fp(Join(Swap(Rounds(f, k3, Rounds(f, k2, Rounds(f, k1, Halves(Ip(b))))))))
  }

  method TdesCrypt<K(!new)>(f: RoundFunction<K>, k1: seq<K>, k2: seq<K>, k3: seq<K>, input: Block)
    returns (output: Block)
    requires Proper(f) && |k1| == |k2| == |k3| == 16
    ensures output == Crypt3(f, k1, k2, k3, input)
  {
    hide Proper, Ip, Fp, Rounds;
    var b := Halves(Ip(input));
    b := RunRounds(f, k1, b);
    b := RunRounds(f, k2, b);
    b := RunRounds(f, k3, b);
    output := Fp(Join(Pair(b.h, b.l)));
  }

  /** The subkeys `muggle_tdes_set_key` puts in the three contexts, from the schedules of the three keys. */
  function Contexts<K>(op: int, s1: seq<K>, s2: seq<K>, s3: seq<K>): (seq<K>, seq<K>, seq<K>) {
    if op == ENCRYPT then (Ordered(ENCRYPT, s1), Ordered(DECRYPT, s2), Ordered(ENCRYPT, s3))
    else (Ordered(DECRYPT, s3), Ordered(ENCRYPT, s2), Ordered(DECRYPT, s1))
  }

  /** Three stages are one run of all the subkeys. */
  lemma Crypt3IsCrypt<K(!new)>(f: RoundFunction<K>, k1: seq<K>, k2: seq<K>, k3: seq<K>, b: Block)
    requires Proper(f)
    ensures Crypt3(f, k1, k2, k3, b) == Crypt(f, k1 + k2 + k3, b)
  {
    hide Proper, Ip, Fp, Rounds;
    var p := Halves(Ip(b));
    RoundsJoin(f, k1, k2, p);
    RoundsJoin(f, k1 + k2, k3, p);
  }

  /** Decryption undoes encryption for every three keys. */
  lemma Crypt3Inverse<K(!new)>(f: RoundFunction<K>, s1: seq<K>, s2: seq<K>, s3: seq<K>, b: Block)
    requires Proper(f)
    ensures var e, d := Contexts(ENCRYPT, s1, s2, s3), Contexts(DECRYPT, s1, s2, s3);
      Crypt3(f, d.0, d.1, d.2, Crypt3(f, e.0, e.1, e.2, b)) == b
  {
    hide Proper, Crypt, Crypt3, Reverse;
    var e, d := Contexts(ENCRYPT, s1, s2, s3), Contexts(DECRYPT, s1, s2, s3);
    Crypt3IsCrypt(f, e.0, e.1, e.2, b);
    var c := Crypt3(f, e.0, e.1, e.2, b);
    Crypt3IsCrypt(f, d.0, d.1, d.2, c);
    ReverseJoin(s1 + Reverse(s2), s3);
    ReverseJoin(s1, Reverse(s2));
    ReverseTwice(s2);
    assert d.0 + d.1 + d.2 == Reverse(e.0 + e.1 + e.2);
    CryptInverse(f, e.0 + e.1 + e.2, b);
  }

  /** The outer contexts encrypt with their keys, and the middle one decrypts what its key encrypted. */
  lemma EncryptContexts<K(!new)>(f: RoundFunction<K>, s1: seq<K>, s2: seq<K>, s3: seq<K>, b: Block)
    requires Proper(f)
    ensures var e := Contexts(ENCRYPT, s1, s2, s3);
      && e.0 == s1 && e.2 == s3
      && Crypt(f, e.1, Crypt(f, s2, b)) == b && Crypt(f, s2, Crypt(f, e.1, b)) == b
  {
    hide Proper, Crypt, Reverse;
    CryptInverse(f, s2, b);
    CryptInverse(f, Reverse(s2), b);
    ReverseTwice(s2);
  }

  /** For decryption the outer contexts decrypt, in the opposite order, and the middle one encrypts. */
  lemma DecryptContexts<K(!new)>(f: RoundFunction<K>, s1: seq<K>, s2: seq<K>, s3: seq<K>, b: Block)
    requires Proper(f)
    ensures var d := Contexts(DECRYPT, s1, s2, s3);
      && d.1 == s2
      && Crypt(f, d.0, Crypt(f, s3, b)) == b && Crypt(f, s3, Crypt(f, d.0, b)) == b
      && Crypt(f, d.2, Crypt(f, s1, b)) == b && Crypt(f, s1, Crypt(f, d.2, b)) == b
  {
    hide Proper, Crypt, Reverse;
    CryptInverse(f, s3, b);
    CryptInverse(f, Reverse(s3), b);
    ReverseTwice(s3);
    CryptInverse(f, s1, b);
    CryptInverse(f, Reverse(s1), b);
    ReverseTwice(s1);
  }
}
