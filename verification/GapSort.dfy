/** Insertion sort and shell sort of `muggle/c/dsaa/sort.c`. */
module GapSort {
  import opened Collections
  import opened Order
  import opened Sorting

  /** The hole at `j` in which element `x` of `was` is looking for its place. */
  ghost predicate Sinking<T(!new)>(cmp: Comparison<T>, was: seq<T>, s: seq<T>, h: nat, lo: nat, i: nat, j: nat, x: T) {
    && |s| == |was| && 0 < h && lo <= j <= i < |s| && Around(cmp, s, h, lo, i, j) && FitsRight(cmp, s, h, i, j, x)
    && multiset(s[j := x]) == multiset(was)
    && forall k | 0 <= k < lo || i < k < |s| :: s[k] == was[k]
  }

  lemma SinkStart<T(!new)>(cmp: Comparison<T>, s: seq<T>, h: nat, lo: nat, i: nat)
    requires 0 < h && lo <= i < |s| && GapSorted(cmp, s, h, lo, i)
    ensures Sinking(cmp, s, s, h, lo, i, i, s[i])
  {
    hide GapSorted, Around;
    Open(cmp, s, h, lo, i);
    assert s[i := s[i]] == s;
  }

  lemma SinkMove<T(!new)>(cmp: Comparison<T>, was: seq<T>, s: seq<T>, h: nat, lo: nat, i: nat, j: nat, x: T)
    requires Sinking(cmp, was, s, h, lo, i, j, x) && lo + h <= j && cmp(x, s[j - h]) <= 0
    ensures Sinking(cmp, was, s[j := s[j - h]], h, lo, i, j - h, x)
  {
    hide Around;
    MoveLeft(cmp, s, h, lo, i, j, x);
    BagMove(s, j, j - h, x);
  }

  lemma SinkEnd<T(!new)>(cmp: Comparison<T>, was: seq<T>, s: seq<T>, h: nat, lo: nat, i: nat, j: nat, x: T)
    requires Sinking(cmp, was, s, h, lo, i, j, x) && FitsLeft(cmp, s, h, lo, j, x)
    ensures |s| == |was| && GapSorted(cmp, s[j := x], h, lo, i + 1) && multiset(s[j := x]) == multiset(was)
    ensures forall k | 0 <= k < lo || i < k < |s| :: s[j := x][k] == was[k]
  {
    hide Around, GapSorted;
    Close(cmp, s, h, lo, i, j, x);
  }

  /** Sinks element `i` to its place among the elements from `lo` on. */
  method Sink<T(!new, ==)>(a: array<T>, lo: nat, i: nat, cmp: Comparison<T>)
    requires Lawful(cmp) && lo <= i < a.Length && GapSorted(cmp, a[..], 1, lo, i)
    modifies a
    ensures GapSorted(cmp, a[..], 1, lo, i + 1) && multiset(a[..]) == multiset(old(a[..]))
    ensures forall k | 0 <= k < lo || i < k < a.Length :: a[k] == old(a[k])
  {
    hide Lawful, GapSorted, Sinking;
    ghost var was := a[..];
    var tmp := a[i];
    var j := i;
    SinkStart(cmp, was, 1, lo, i);
    while j > lo
      invariant lo <= j <= i && Sinking(cmp, was, a[..], 1, lo, i, j, tmp)
    {
      Flip(cmp, a[j - 1], tmp);
      if cmp(a[j - 1], tmp) > 0 {
        SinkMove(cmp, was, a[..], 1, lo, i, j, tmp);
        ghost var next := a[..][j := a[j - 1]];
        a[j] := a[j - 1];
        assert a[..] == next;
        j := j - 1;
      } else {
        break;
      }
    }
    SinkEnd(cmp, was, a[..], 1, lo, i, j, tmp);
    ghost var done := a[..][j := tmp];
    a[j] := tmp;
    assert a[..] == done;
  }

  /** `muggle_insertion_sort` on the `hi - lo` elements from `lo` on. */
  method InsertionSort<T(!new, ==)>(a: array<T>, lo: nat, hi: nat, cmp: Comparison<T>)
    requires Lawful(cmp) && lo <= hi <= a.Length
    modifies a
    ensures Sorted(cmp, a[..], lo, hi) && Permuted(old(a[..]), a[..], lo, hi)
  {
    hide Lawful, GapSorted, Permuted, Sorted;
    ghost var was := a[..];
    OneSorted(cmp, was, 1, lo);
    var i := lo + 1;
    while i < hi
      invariant lo + 1 <= i && (i <= hi || i == lo + 1)
      invariant i <= hi ==> GapSorted(cmp, a[..], 1, lo, i)
      invariant multiset(a[..]) == multiset(was)
      invariant forall k | 0 <= k < lo || hi <= k < a.Length :: a[k] == was[k]
    {
      Sink(a, lo, i, cmp);
      i := i + 1;
    }
    if lo < hi {
      GapOne(cmp, a[..], lo, hi);
    } else {
      SortedNone(cmp, a[..], lo);
    }
    PermutedFromWhole(was, a[..], lo, hi);
  }

  lemma OneSorted<T(!new)>(cmp: Comparison<T>, s: seq<T>, h: nat, lo: nat)
    requires h > 0
    ensures lo + h <= |s| ==> GapSorted(cmp, s, h, lo, lo + h)
  {
  }

  lemma SortedNone<T(!new)>(cmp: Comparison<T>, s: seq<T>, lo: nat)
    requires lo <= |s|
    ensures Sorted(cmp, s, lo, lo)
  {
  }

  /** Sinks element `i` along its chain with stride `h`. */
  method SinkBy<T(!new, ==)>(a: array<T>, h: nat, i: nat, cmp: Comparison<T>)
    requires Lawful(cmp) && 0 < h <= i < a.Length && GapSorted(cmp, a[..], h, 0, i)
    modifies a
    ensures GapSorted(cmp, a[..], h, 0, i + 1) && multiset(a[..]) == multiset(old(a[..]))
  {
    hide Lawful, GapSorted, Sinking;
    ghost var was := a[..];
    var tmp := a[i];
    var j := i;
    SinkStart(cmp, was, h, 0, i);
    while j >= h
      invariant 0 <= j <= i && Sinking(cmp, was, a[..], h, 0, i, j, tmp)
    {
      Flip(cmp, tmp, a[j - h]);
      if cmp(tmp, a[j - h]) < 0 {
        SinkMove(cmp, was, a[..], h, 0, i, j, tmp);
        ghost var next := a[..][j := a[j - h]];
        a[j] := a[j - h];
        assert a[..] == next;
        j := j - h;
      } else {
        break;
      }
    }
    SinkEnd(cmp, was, a[..], h, 0, i, j, tmp);
    ghost var done := a[..][j := tmp];
    a[j] := tmp;
    assert a[..] == done;
  }

  /** One pass of shell sort: every chain with stride `h` in order. */
  method GapPass<T(!new, ==)>(a: array<T>, h: nat, cmp: Comparison<T>)
    requires Lawful(cmp) && 0 < h <= a.Length
    modifies a
    ensures GapSorted(cmp, a[..], h, 0, a.Length) && multiset(a[..]) == multiset(old(a[..]))
  {
    hide Lawful, GapSorted;
    OneSorted(cmp, a[..], h, 0);
    for i := h to a.Length
      invariant GapSorted(cmp, a[..], h, 0, i)
      invariant multiset(a[..]) == multiset(old(a[..]))
    {
      SinkBy(a, h, i, cmp);
    }
  }

  /** `muggle_shell_sort`. */
  method ShellSort<T(!new, ==)>(a: array<T>, cmp: Comparison<T>)
    requires Lawful(cmp)
    modifies a
    ensures Sorted(cmp, a[..], 0, a.Length) && multiset(a[..]) == multiset(old(a[..]))
  {
    hide Lawful, GapSorted, Sorted;
    var increment := a.Length / 2;
    while increment > 0
      invariant 0 <= increment <= a.Length
      invariant multiset(a[..]) == multiset(old(a[..]))
      invariant increment == 0 && a.Length >= 2 ==> GapSorted(cmp, a[..], 1, 0, a.Length)
    {
      GapPass(a, increment, cmp);
      increment := increment / 2;
    }
    if a.Length >= 2 {
      GapOne(cmp, a[..], 0, a.Length);
    } else {
      SortedShort(cmp, a[..]);
    }
  }

  lemma SortedShort<T(!new)>(cmp: Comparison<T>, s: seq<T>)
    requires |s| < 2
    ensures Sorted(cmp, s, 0, |s|)
  {
  }
}
