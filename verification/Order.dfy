/** Comparison callbacks (`muggle_dsaa_data_cmp`): negative, zero or positive. */
module Order {

  /** What a comparison callback has to satisfy: a total preorder with consistent signs. */
  ghost predicate Lawful<K(!new)>(cmp: (K, K) -> int) {
    && (forall a, b :: cmp(a, b) < 0 <==> cmp(b, a) > 0)
    && (forall a, b, c :: cmp(a, b) <= 0 && cmp(b, c) <= 0 ==> cmp(a, c) <= 0)
  }

  lemma Flip<K(!new)>(cmp: (K, K) -> int, a: K, b: K)
    requires Lawful(cmp)
    ensures (cmp(a, b) < 0) == (cmp(b, a) > 0) && (cmp(a, b) > 0) == (cmp(b, a) < 0) && (cmp(a, b) == 0) == (cmp(b, a) == 0)
  {
  }

  /** Keys that compare equal compare alike with others. */
  lemma SameKey<K(!new)>(cmp: (K, K) -> int, a: K, b: K, k: K)
    requires Lawful(cmp) && cmp(a, b) == 0
    ensures (cmp(a, k) == 0) == (cmp(b, k) == 0) && (cmp(a, k) < 0) == (cmp(b, k) < 0) && (cmp(a, k) > 0) == (cmp(b, k) > 0)
  {
    assert cmp(b, a) == 0;
    assert cmp(a, k) <= 0 <==> cmp(b, k) <= 0;
    assert cmp(k, a) <= 0 <==> cmp(k, b) <= 0;
  }

  /** Strictness on either side of a chain makes the whole chain strict. */
  lemma LessTrans<K(!new)>(cmp: (K, K) -> int, a: K, b: K, c: K)
    requires Lawful(cmp)
    requires cmp(a, b) <= 0 && cmp(b, c) <= 0 && (cmp(a, b) < 0 || cmp(b, c) < 0)
    ensures cmp(a, c) < 0
  {
    assert cmp(c, a) <= 0 ==> cmp(b, a) <= 0 && cmp(c, b) <= 0;
  }
}
