/** The block functions of `muggle/c/crypt/des.c` and `tdes.c` (the build without MUGGLE_CRYPT_OPTIMIZATION). */
module Des {
  import opened Feistel

  type Block = b: Bits | |b| == 64 witness seq(64, i => false)

  // ------------------------------------------------------------------------- the two fixed permutations

  /** The input bit that `muggle_des_ip` moves to position `i`. */
  function IpSource(i: nat): (j: nat)
    requires i < 64
    ensures j < 64
  {
    if i < 32 then 57 + 2 * (i / 8) - 8 * (i % 8) else 56 + 2 * (i / 8 - 4) - 8 * (i % 8)
  }

  /** The input bit that `muggle_des_fp` moves to position `i`. */
  function FpSource(i: nat): (j: nat)
    requires i < 64
    ensures j < 64
  {
    if i % 2 == 0 then 39 - i / 8 + 8 * (i % 8 / 2) else 7 - i / 8 + 8 * (i % 8 / 2)
  }

  function Ip(b: Block): Block { seq(64, i requires 0 <= i < 64 => b[IpSource(i)]) }

  function Fp(b: Block): Block { seq(64, i requires 0 <= i < 64 => b[FpSource(i)]) }

  /** Bit 8r + c of the initial permutation. */
  lemma IpAt(r: nat, c: nat)
    requires r < 8 && c < 8
    ensures IpSource(8 * r + c) == 8 * (7 - c) + if r < 4 then 2 * r + 1 else 2 * (r - 4)
  {
    assert (8 * r + c) / 8 == r && (8 * r + c) % 8 == c;
  }

  /** Bit 8r + 2q + o of the final permutation. */
  lemma FpAt(r: nat, q: nat, o: nat)
    requires r < 8 && q < 4 && o < 2
    ensures FpSource(8 * r + (2 * q + o)) == 8 * (if o == 0 then 4 + q else q) + (7 - r)
  {
    var c := 2 * q + o;
    assert (8 * r + c) / 8 == r && (8 * r + c) % 8 == c && c / 2 == q && (8 * r + c) % 2 == o;
  }

  lemma SourcesInverse(i: nat)
    requires i < 64
    ensures IpSource(FpSource(i)) == i && FpSource(IpSource(i)) == i
  {
    hide IpSource, FpSource;
    var r, c := i / 8, i % 8;
    var q, o := c / 2, c % 2;
    FpAt(r, q, o);
    IpAt(if o == 0 then 4 + q else q, 7 - r);
    IpAt(r, c);
    FpAt(7 - c, if r < 4 then r else r - 4, if r < 4 then 1 else 0);
  }

  /** The final permutation is the inverse of the initial one, on both sides. */
  lemma PermutationsInverse(b: Block)
    ensures Fp(Ip(b)) == b && Ip(Fp(b)) == b
  {
    hide IpSource, FpSource;
    forall i | 0 <= i < 64 ensures Fp(Ip(b))[i] == b[i] && Ip(Fp(b))[i] == b[i] {
      SourcesInverse(i);
    }
  }

  // ------------------------------------------------------------------------- DES

  function Halves(b: Block): (p: Pair)
    ensures Sized(p)
  {
    Pair(b[..32], b[32..])
  }

  function Join(p: Pair): Block
    requires Sized(p)
  {
    p.l + p.h
  }

  lemma HalvesJoin(p: Pair)
    requires Sized(p)
    ensures Halves(Join(p)) == p
  {
  }

  lemma JoinHalves(b: Block)
    ensures Join(Halves(b)) == b
  {
  }

  /** `muggle_des_crypt` with the given subkeys. */
  function Crypt<K(!new)>(f: RoundFunction<K>, ks: seq<K>, b: Block): Block
    requires Proper(f)
  {
    Fp(Join(Swap(Rounds(f, ks, Halves(Ip(b))))))
  }

  lemma CryptInside<K(!new)>(f: RoundFunction<K>, ks: seq<K>, b: Block)
    requires Proper(f)
    ensures Halves(Ip(Crypt(f, ks, b))) == Swap(Rounds(f, ks, Halves(Ip(b))))
  {
    hide Proper, Ip, Fp, Rounds, Join, Halves;
    var p := Swap(Rounds(f, ks, Halves(Ip(b))));
    PermutationsInverse(Join(p));
    HalvesJoin(p);
  }

  lemma InsideEqual(b: Block, c: Block)
    requires Halves(Ip(b)) == Halves(Ip(c))
    ensures b == c
  {
    hide Ip, Fp, Join, Halves;
    JoinHalves(Ip(b));
    JoinHalves(Ip(c));
    PermutationsInverse(b);
    PermutationsInverse(c);
  }

  /** With the subkeys in reverse order the block comes back, whatever the round function and the number of rounds. */
  lemma CryptInverse<K(!new)>(f: RoundFunction<K>, ks: seq<K>, b: Block)
    requires Proper(f)
    ensures Crypt(f, Reverse(ks), Crypt(f, ks, b)) == b
  {
    hide Proper, Ip, Rounds, Halves, Crypt;
    CryptInside(f, ks, b);
    var c := Crypt(f, ks, b);
    CryptInside(f, Reverse(ks), c);
    RoundsUndone(f, ks, Halves(Ip(b)));
    InsideEqual(Crypt(f, Reverse(ks), c), b);
  }

  // ------------------------------------------------------------------------- subkeys

  const DECRYPT := 0
  const ENCRYPT := 1

  /** Subkeys in the order in which the schedule makes them: `turn` is the shift of a round, `choose` is PC-2. */
  function Schedule<S, K>(turn: (S, nat) -> S, choose: S -> K, s: S, i: nat, n: nat): (ks: seq<K>)
    requires i <= n
    ensures |ks| == n - i
    decreases n - i
  {
    if i == n then [] else [choose(turn(s, i))] + Schedule(turn, choose, turn(s, i), i + 1, n)
  }

  lemma {:induction false} ScheduleLast<S, K>(turn: (S, nat) -> S, choose: S -> K, s: S, i: nat, n: nat)
    requires i <= n
    ensures Schedule(turn, choose, s, i, n + 1)
            == Schedule(turn, choose, s, i, n) + [choose(turn(Turned(turn, s, i, n), n))]
    decreases n - i
  {
    if i < n {
      ScheduleLast(turn, choose, turn(s, i), i + 1, n);
    }
  }

  function Turned<S>(turn: (S, nat) -> S, s: S, i: nat, n: nat): S
    requires i <= n
    decreases n - i
  {
    if i == n then s else Turned(turn, turn(s, i), i + 1, n)
  }

  lemma {:induction false} TurnedLast<S>(turn: (S, nat) -> S, s: S, i: nat, n: nat)
    requires i <= n
    ensures Turned(turn, s, i, n + 1) == turn(Turned(turn, s, i, n), n)
    decreases n - i
  {
    if i < n {
      TurnedLast(turn, turn(s, i), i + 1, n);
    }
  }

  function Ordered<K>(op: int, ks: seq<K>): seq<K> { if op == DECRYPT then Reverse(ks) else ks }

  /** `muggle_des_set_key_inner`: for decryption each subkey goes to the mirrored place. */
  method SetKey<S, K(0)>(op: int, turn: (S, nat) -> S, choose: S -> K, key: S, sk: array<K>)
    requires sk.Length == 16
    modifies sk
    ensures sk[..] == Ordered(op, Schedule(turn, choose, key, 0, 16))
  {
    hide Schedule, Turned;
    var out := key;
    ghost var made: seq<K> := [];
    assert Schedule(turn, choose, key, 0, 0) == [] && Turned(turn, key, 0, 0) == key by { ScheduleNone(turn, choose, key); }
    for i := 0 to 16
      invariant made == Schedule(turn, choose, key, 0, i) && out == Turned(turn, key, 0, i)
      invariant forall j | 0 <= j < i :: sk[if op == DECRYPT then 15 - j else j] == made[j]
    {
      ScheduleLast(turn, choose, key, 0, i);
      TurnedLast(turn, key, 0, i);
      out := turn(out, i);
      var idx := i;
      if op == DECRYPT {
        idx := 15 - i;
      }
      sk[idx] := choose(out);
      made := made + [choose(out)];
    }
    forall j | 0 <= j < 16 ensures sk[j] == Ordered(op, made)[j] {
      assert sk[if op == DECRYPT then 15 - (15 - j) else j] == made[if op == DECRYPT then 15 - j else j];
    }
  }

  lemma ScheduleNone<S, K>(turn: (S, nat) -> S, choose: S -> K, s: S)
    ensures Schedule(turn, choose, s, 0, 0) == [] && Turned(turn, s, 0, 0) == s
  {
  }

  // ------------------------------------------------------------------------- the loops

  /** Sixteen rounds in place. */
  method RunRounds<K(!new)>(f: RoundFunction<K>, ks: seq<K>, p: Pair) returns (q: Pair)
    requires Proper(f) && Sized(p) && |ks| == 16
    ensures q == Rounds(f, ks, p)
  {
    hide Proper, Rounds;
    var l, h := p.l, p.h;
    RoundsNone(f, p);
    assert ks[..0] == [];
    for i := 0 to 16
      invariant Sized(Pair(l, h)) && Pair(l, h) == Rounds(f, ks[..i], p)
    {
      assert ks[..i + 1] == ks[..i] + [ks[i]];
      RoundsJoin(f, ks[..i], [ks[i]], p);
      RoundsOne(f, ks[i], Pair(l, h));
      RoundSized(f, h, ks[i]);
      var tmp := XorBits(l, f(h, ks[i]));
      l := h;
      h := tmp;
    }
    assert ks[..16] == ks;
    q := Pair(l, h);
  }

  lemma RoundSized<K(!new)>(f: RoundFunction<K>, x: Bits, k: K)
    requires Proper(f) && |x| == 32
    ensures |f(x, k)| == 32
  {
  }

  lemma RoundsNone<K(!new)>(f: RoundFunction<K>, p: Pair)
    requires Proper(f) && Sized(p)
    ensures Rounds(f, [], p) == p
  {
  }

  method DesCrypt<K(!new)>(f: RoundFunction<K>, ks: seq<K>, input: Block) returns (output: Block)
    requires Proper(f) && |ks| == 16
    ensures output == Crypt(f, ks, input)
  {
    hide Proper, Ip, Fp, Rounds;
    var b := Halves(Ip(input));
    b := RunRounds(f, ks, b);
    output := Fp(Join(Pair(b.h, b.l)));
  }
}
