/** Accounting for numbered blocks: some wait in a ring, the others are out. */
module Accounts {

  type Block = nat

  /** All blocks created so far; the pool numbers them in order of creation. */
  function Blocks(n: nat): seq<Block> { seq(n, i => i) }

  /** `ring` waits and `out` is with callers: together all `n` blocks, each exactly once. */
  ghost predicate Partition(ring: seq<Block>, out: multiset<Block>, n: nat) {
    multiset(ring) + out == multiset(Blocks(n))
  }

  lemma {:induction false} BlocksOnce(n: nat)
    ensures |multiset(Blocks(n))| == n && forall b: Block :: multiset(Blocks(n))[b] == if b < n then 1 else 0
  {
    if n > 0 {
      BlocksOnce(n - 1);
      assert Blocks(n) == Blocks(n - 1) + [n - 1];
    }
  }

  /** In a partition no block waits twice, and none waits while it is out. */
  lemma PartitionMeans(ring: seq<Block>, out: multiset<Block>, n: nat)
    requires Partition(ring, out, n)
    ensures |ring| + |out| == n
    ensures forall b: Block :: multiset(ring)[b] + out[b] == if b < n then 1 else 0
  {
    BlocksOnce(n);
    forall b: Block ensures multiset(ring)[b] + out[b] == multiset(Blocks(n))[b] {
      assert (multiset(ring) + out)[b] == multiset(Blocks(n))[b];
    }
  }

  lemma PartitionTake(b: Block, ring: seq<Block>, out: multiset<Block>, n: nat)
    requires Partition([b] + ring, out, n)
    ensures Partition(ring, out + multiset{b}, n)
  {
  }

  lemma PartitionGive(b: Block, ring: seq<Block>, out: multiset<Block>, n: nat)
    requires Partition(ring, out, n) && b in out
    ensures Partition(ring + [b], out - multiset{b}, n)
  {
  }

  lemma {:induction false} PartitionGrow(ring: seq<Block>, out: multiset<Block>, n: nat, m: nat)
    requires Partition(ring, out, n) && n <= m
    ensures Partition(ring + Blocks(m)[n..], out, m)
    decreases m
  {
    if n == m {
      assert ring + Blocks(m)[n..] == ring;
    } else {
      PartitionGrow(ring, out, n, m - 1);
      assert Blocks(m) == Blocks(m - 1) + [m - 1];
      assert ring + Blocks(m)[n..] == ring + Blocks(m - 1)[n..] + [m - 1];
    }
  }
}
