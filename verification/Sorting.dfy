/** What the sorts of `muggle/c/dsaa/sort.c` promise, and insertion with a stride. */
module Sorting {
  import opened Collections
  import opened Order

  type Comparison<!T> = (T, T) -> int

  /** Ascending between `lo` and `hi`. */
  ghost predicate Sorted<T(!new)>(cmp: Comparison<T>, s: seq<T>, lo: nat, hi: nat)
    requires hi <= |s|
  {
    forall i, j | lo <= i < j < hi :: cmp(s[i], s[j]) <= 0
  }

  /** Element `p` is not below the one a stride of `h` before it. */
  predicate Step<T(!new)>(cmp: Comparison<T>, s: seq<T>, h: nat, p: nat)
    requires h <= p < |s|
  {
    cmp(s[p - h], s[p]) <= 0
  }

  ghost predicate GapSorted<T(!new)>(cmp: Comparison<T>, s: seq<T>, h: nat, lo: nat, hi: nat)
    requires hi <= |s|
  {
    forall p {:trigger Step(cmp, s, h, p)} | lo + h <= p < hi :: Step(cmp, s, h, p)
  }

  /** With a stride of one, neighbours in order are all in order. */
  lemma {:induction false} GapOneAt<T(!new)>(cmp: Comparison<T>, s: seq<T>, lo: nat, hi: nat, i: nat, j: nat)
    requires Lawful(cmp) && hi <= |s| && GapSorted(cmp, s, 1, lo, hi) && lo <= i < j < hi
    ensures cmp(s[i], s[j]) <= 0
    decreases j
  {
    assert Step(cmp, s, 1, j);
    if i < j - 1 {
      GapOneAt(cmp, s, lo, hi, i, j - 1);
      assert cmp(s[i], s[j - 1]) <= 0 && cmp(s[j - 1], s[j]) <= 0;
    }
  }

  lemma GapOne<T(!new)>(cmp: Comparison<T>, s: seq<T>, lo: nat, hi: nat)
    requires Lawful(cmp) && hi <= |s| && GapSorted(cmp, s, 1, lo, hi)
    ensures Sorted(cmp, s, lo, hi)
  {
    hide Lawful, GapSorted;
    forall i, j | lo <= i < j < hi ensures cmp(s[i], s[j]) <= 0 {
      GapOneAt(cmp, s, lo, hi, i, j);
    }
  }

  // ------------------------------------------------------------------------- a hole in a chain

  /** The order up to `i` that does not involve element `j`, and the order between its neighbours. */
  ghost predicate Around<T(!new)>(cmp: Comparison<T>, s: seq<T>, h: nat, lo: nat, i: nat, j: nat)
    requires 0 < h && lo <= j <= i < |s|
  {
    && (forall p {:trigger Step(cmp, s, h, p)} | lo + h <= p <= i && p != j && p != j + h :: Step(cmp, s, h, p))
    && (lo + h <= j && j + h <= i ==> cmp(s[j - h], s[j + h]) <= 0)
  }

  predicate FitsRight<T(!new)>(cmp: Comparison<T>, s: seq<T>, h: nat, i: nat, j: nat, x: T)
    requires i < |s|
  {
    j + h <= i ==> cmp(x, s[j + h]) <= 0
  }

  predicate FitsLeft<T(!new)>(cmp: Comparison<T>, s: seq<T>, h: nat, lo: nat, j: nat, x: T)
    requires j < |s|
  {
    lo + h <= j ==> cmp(s[j - h], x) <= 0
  }

  lemma Open<T(!new)>(cmp: Comparison<T>, s: seq<T>, h: nat, lo: nat, i: nat)
    requires 0 < h && lo <= i < |s| && GapSorted(cmp, s, h, lo, i)
    ensures Around(cmp, s, h, lo, i, i) && FitsRight(cmp, s, h, i, i, s[i])
  {
    hide Step;
  }

  lemma MoveLeft<T(!new)>(cmp: Comparison<T>, s: seq<T>, h: nat, lo: nat, i: nat, j: nat, x: T)
    requires 0 < h && lo + h <= j <= i < |s| && Around(cmp, s, h, lo, i, j) && cmp(x, s[j - h]) <= 0
    ensures Around(cmp, s[j := s[j - h]], h, lo, i, j - h)
    ensures FitsRight(cmp, s[j := s[j - h]], h, i, j - h, x)
  {
    var t := s[j := s[j - h]];
    forall p | lo + h <= p <= i && p != j - h && p != j ensures Step(cmp, t, h, p) {
      if p != j + h {
        assert Step(cmp, s, h, p);
      }
    }
    if lo + h <= j - h {
      assert Step(cmp, s, h, j - h);
    }
  }

  lemma Close<T(!new)>(cmp: Comparison<T>, s: seq<T>, h: nat, lo: nat, i: nat, j: nat, x: T)
    requires 0 < h && lo <= j <= i < |s| && Around(cmp, s, h, lo, i, j)
    requires FitsLeft(cmp, s, h, lo, j, x) && FitsRight(cmp, s, h, i, j, x)
    ensures GapSorted(cmp, s[j := x], h, lo, i + 1)
  {
    var t := s[j := x];
    forall p | lo + h <= p < i + 1 ensures Step(cmp, t, h, p) {
      if p != j && p != j + h {
        assert Step(cmp, s, h, p);
      }
    }
  }

  // ------------------------------------------------------------------------- permutations

  /** `t` is `s` with the elements between `lo` and `hi` permuted. */
  ghost predicate Permuted<T>(s: seq<T>, t: seq<T>, lo: nat, hi: nat) {
    && |s| == |t| && lo <= hi <= |s|
    && s[..lo] == t[..lo] && s[hi..] == t[hi..]
    && multiset(s[lo..hi]) == multiset(t[lo..hi])
  }

  lemma PermutedFromWhole<T>(s: seq<T>, t: seq<T>, lo: nat, hi: nat)
    requires |s| == |t| && lo <= hi <= |s| && multiset(s) == multiset(t)
    requires forall k | 0 <= k < lo || hi <= k < |s| :: s[k] == t[k]
    ensures Permuted(s, t, lo, hi)
  {
    assert s == s[..lo] + s[lo..hi] + s[hi..] && t == t[..lo] + t[lo..hi] + t[hi..];
    assert s[..lo] == t[..lo] && s[hi..] == t[hi..];
    Cancel(multiset(s[lo..hi]), multiset(t[lo..hi]), multiset(s[..lo]), multiset(s[hi..]));
  }

  lemma Cancel<T>(u: multiset<T>, v: multiset<T>, a: multiset<T>, b: multiset<T>)
    requires a + u + b == a + v + b
    ensures u == v
  {
    forall x ensures u[x] == v[x] {
      assert (a + u + b)[x] == (a + v + b)[x];
    }
  }
}
