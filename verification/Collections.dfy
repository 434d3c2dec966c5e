/** Optional values, sequences without one element, and multisets of sequences with one element replaced. */
module Collections {

  datatype Option<T> = None | Some(value: T)

  /** `s` without the element at place `k`. */
  function Without<T>(s: seq<T>, k: nat): seq<T>
    requires k < |s|
  {
    s[..k] + s[k + 1..]
  }

  lemma BagWithout<T>(s: seq<T>, k: nat)
    requires k < |s|
    ensures multiset(s) == multiset(Without(s, k)) + multiset{s[k]}
  {
    assert s == s[..k] + [s[k]] + s[k + 1..];
  }

  lemma BagPut<T>(s: seq<T>, i: nat, x: T)
    requires i < |s|
    ensures s[i] in multiset(s) && multiset(s[i := x]) == multiset(s) - multiset{s[i]} + multiset{x}
  {
  }

  /** Moving an element into the hole moves the hole. */
  lemma BagMove<T>(s: seq<T>, i: nat, j: nat, x: T)
    requires i < |s| && j < |s| && i != j
    ensures multiset(s[i := s[j]][j := x]) == multiset(s[i := x])
  {
    BagPut(s, i, x);
    BagPut(s, i, s[j]);
    BagPut(s[i := s[j]], j, x);
    Exchange(multiset(s), s[i], s[j], x);
  }

  lemma Exchange<T>(m: multiset<T>, u: T, v: T, x: T)
    requires u in m
    ensures m - multiset{u} + multiset{v} - multiset{v} + multiset{x} == m - multiset{u} + multiset{x}
  {
    assert m - multiset{u} + multiset{v} - multiset{v} == m - multiset{u};
  }
}
