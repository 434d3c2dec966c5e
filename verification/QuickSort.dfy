/** Quick sort of `muggle/c/dsaa/sort.c`: median of three, unguarded scans, insertion sort below the cutoff. */
module QuickSort {
  import opened Collections
  import opened Order
  import opened Sorting
  import opened GapSort

  const CUTOFF := 10

  ghost predicate AllBelow<T(!new)>(cmp: Comparison<T>, s: seq<T>, lo: nat, hi: nat, p: T)
    requires hi <= |s|
  {
    forall k | lo <= k < hi :: cmp(s[k], p) <= 0
  }

  ghost predicate AllAbove<T(!new)>(cmp: Comparison<T>, s: seq<T>, lo: nat, hi: nat, p: T)
    requires hi <= |s|
  {
    forall k | lo <= k < hi :: cmp(p, s[k]) <= 0
  }

  // ------------------------------------------------------------------------- permutations of a range

  lemma PermutedSelf<T>(s: seq<T>, lo: nat, hi: nat)
    requires lo <= hi <= |s|
    ensures Permuted(s, s, lo, hi)
  {
  }

  /** A permutation of a part is a permutation of the whole range. */
  lemma PermutedWiden<T>(s: seq<T>, t: seq<T>, lo: nat, hi: nat, lo': nat, hi': nat)
    requires Permuted(s, t, lo, hi) && lo' <= lo && hi <= hi' <= |s|
    ensures Permuted(s, t, lo', hi')
  {
    assert s[lo'..hi'] == s[lo'..lo] + s[lo..hi] + s[hi..hi'] && t[lo'..hi'] == t[lo'..lo] + t[lo..hi] + t[hi..hi'];
    assert s[lo'..lo] == s[..lo][lo'..] && t[lo'..lo] == t[..lo][lo'..];
    assert s[hi..hi'] == s[hi..][..hi' - hi] && t[hi..hi'] == t[hi..][..hi' - hi];
    assert s[..lo'] == s[..lo][..lo'] && t[..lo'] == t[..lo][..lo'];
    assert s[hi'..] == s[hi..][hi' - hi..] && t[hi'..] == t[hi..][hi' - hi..];
  }

  lemma PermutedThen<T>(s: seq<T>, t: seq<T>, u: seq<T>, lo: nat, hi: nat)
    requires Permuted(s, t, lo, hi) && Permuted(t, u, lo, hi)
    ensures Permuted(s, u, lo, hi)
  {
  }

  /** What holds of every element of the range still holds. */
  lemma PermutedMember<T>(s: seq<T>, t: seq<T>, lo: nat, hi: nat, k: nat)
    requires Permuted(s, t, lo, hi) && lo <= k < hi
    ensures exists j | lo <= j < hi :: s[j] == t[k]
  {
    assert t[lo..hi][k - lo] == t[k];
    assert t[k] in multiset(t[lo..hi]);
    assert t[k] in s[lo..hi];
    var j :| 0 <= j < hi - lo && s[lo..hi][j] == t[k];
    assert s[lo + j] == t[k];
  }

  lemma PermutedOutside<T>(s: seq<T>, t: seq<T>, lo: nat, hi: nat, k: nat)
    requires Permuted(s, t, lo, hi) && k < |s| && (k < lo || hi <= k)
    ensures s[k] == t[k]
  {
    if k < lo {
      assert s[..lo][k] == t[..lo][k];
    } else {
      assert s[hi..][k - hi] == t[hi..][k - hi];
    }
  }

  lemma BelowKept<T(!new)>(cmp: Comparison<T>, s: seq<T>, t: seq<T>, lo: nat, hi: nat, p: T)
    requires Permuted(s, t, lo, hi) && AllBelow(cmp, s, lo, hi, p)
    ensures AllBelow(cmp, t, lo, hi, p)
  {
    PermutedLength(s, t, lo, hi);
    hide Permuted;
    forall k | lo <= k < hi ensures cmp(t[k], p) <= 0 {
      PermutedMember(s, t, lo, hi, k);
    }
  }

  lemma AboveKept<T(!new)>(cmp: Comparison<T>, s: seq<T>, t: seq<T>, lo: nat, hi: nat, p: T)
    requires Permuted(s, t, lo, hi) && AllAbove(cmp, s, lo, hi, p)
    ensures AllAbove(cmp, t, lo, hi, p)
  {
    PermutedLength(s, t, lo, hi);
    hide Permuted;
    forall k | lo <= k < hi ensures cmp(p, t[k]) <= 0 {
      PermutedMember(s, t, lo, hi, k);
    }
  }

  function Swapped<T>(s: seq<T>, i: nat, j: nat): (t: seq<T>)
    requires i < |s| && j < |s|
    ensures |t| == |s| && t[i] == s[j] && t[j] == s[i] && forall k | 0 <= k < |s| && k != i && k != j :: t[k] == s[k]
  {
    s[i := s[j]][j := s[i]]
  }

  lemma SwappedPermuted<T>(s: seq<T>, i: nat, j: nat, lo: nat, hi: nat)
    requires lo <= i < hi <= |s| && lo <= j < hi
    ensures Permuted(s, Swapped(s, i, j), lo, hi)
  {
    if i == j {
      assert Swapped(s, i, j) == s;
    } else {
      BagMove(s, i, j, s[i]);
      assert s[i := s[i]] == s;
    }
    PermutedFromWhole(s, Swapped(s, i, j), lo, hi);
  }

  method Swap<T>(a: array<T>, i: nat, j: nat)
    requires i < a.Length && j < a.Length
    modifies a
    ensures a[..] == Swapped(old(a[..]), i, j)
  {
    var tmp := a[i];
    a[i] := a[j];
    a[j] := tmp;
  }

  /** An exchange inside the range that is being permuted. */
  method SwapWithin<T>(a: array<T>, i: nat, j: nat, ghost s: seq<T>, ghost lo: nat, ghost hi: nat)
    requires lo <= i < hi <= a.Length && lo <= j < hi && Permuted(s, a[..], lo, hi)
    modifies a
    ensures a[..] == Swapped(old(a[..]), i, j) && Permuted(s, a[..], lo, hi)
  {
    hide Permuted, Swapped;
    ghost var was := a[..];
    SwappedPermuted(was, i, j, lo, hi);
    Swap(a, i, j);
    PermutedThen(s, was, a[..], lo, hi);
  }

  // ------------------------------------------------------------------------- median of three

  /** Puts a smaller and a larger element in order. */
  method OrderPair<T(!new)>(a: array<T>, i: nat, j: nat, cmp: Comparison<T>, ghost s: seq<T>, ghost lo: nat, ghost hi: nat)
    requires Lawful(cmp) && lo <= i < j < hi <= a.Length && Permuted(s, a[..], lo, hi)
    modifies a
    ensures Permuted(s, a[..], lo, hi)
    ensures a[..] == Paired(cmp, old(a[..]), i, j)
  {
    hide Permuted;
    if cmp(a[i], a[j]) > 0 {
      SwapWithin(a, i, j, s, lo, hi);
    }
  }

  function Paired<T(!new)>(cmp: Comparison<T>, s: seq<T>, i: nat, j: nat): (t: seq<T>)
    requires i < |s| && j < |s|
    ensures |t| == |s|
  {
    if cmp(s[i], s[j]) > 0 then Swapped(s, i, j) else s
  }

  /** Three exchanges put three elements in order. */
  lemma MedianOrder<T(!new)>(cmp: Comparison<T>, s: seq<T>, l: nat, c: nat, r: nat)
    requires Lawful(cmp) && l < c < r < |s|
    ensures var t := Paired(cmp, Paired(cmp, Paired(cmp, s, l, c), l, r), c, r);
      cmp(t[l], t[c]) <= 0 && cmp(t[c], t[r]) <= 0
  {
    hide Lawful;
    var x, y, z := s[l], s[c], s[r];
    Flip(cmp, x, y);
    Flip(cmp, x, z);
    Flip(cmp, y, z);
    var t1 := Paired(cmp, s, l, c);
    var t2 := Paired(cmp, t1, l, r);
    var t3 := Paired(cmp, t2, c, r);
    assert cmp(t1[l], t1[c]) <= 0;
    if cmp(t1[l], t1[r]) > 0 {
      Flip(cmp, t1[l], t1[r]);
      Between(cmp, t1[r], t1[l], t1[c]);
    }
    assert cmp(t2[l], t2[c]) <= 0 && cmp(t2[l], t2[r]) <= 0;
    Flip(cmp, t2[c], t2[r]);
  }

  /** `muggle_quick_sort_median3`: the pivot next to the right end, an element on either side that stops a scan. */
  method Median3<T(!new)>(a: array<T>, left: nat, right: nat, cmp: Comparison<T>) returns (pivot: T)
    requires Lawful(cmp) && left + 2 < right < a.Length
    modifies a
    ensures Permuted(old(a[..]), a[..], left, right + 1)
    ensures a[right - 1] == pivot && cmp(a[left], pivot) <= 0 && cmp(pivot, a[right]) <= 0
  {
    hide Permuted, Lawful, Paired;
    ghost var s := a[..];
    PermutedSelf(s, left, right + 1);
    var center := (left + right) / 2;
    MedianOrder(cmp, s, left, center, right);
    OrderPair(a, left, center, cmp, s, left, right + 1);
    OrderPair(a, left, right, cmp, s, left, right + 1);
    OrderPair(a, center, right, cmp, s, left, right + 1);
    ghost var was := a[..];
    SwapWithin(a, center, right - 1, s, left, right + 1);
    pivot := a[right - 1];
    assert a[left] == was[left] && a[right] == was[right];
  }

  // ------------------------------------------------------------------------- partition

  /** Scans right for an element that is not below the pivot; element `stop` is one. */
  method ScanRight<T(!new)>(a: array<T>, from: nat, pivot: T, cmp: Comparison<T>, ghost stop: nat) returns (i: nat)
    requires Lawful(cmp) && from < stop < a.Length && cmp(pivot, a[stop]) <= 0
    ensures from < i <= stop && cmp(pivot, a[i]) <= 0 && AllBelow(cmp, a[..], from + 1, i, pivot)
  {
    hide Lawful;
    i := from + 1;
    Flip(cmp, a[stop], pivot);
    while cmp(a[i], pivot) < 0
      invariant from < i <= stop
      invariant forall k | from < k < i :: cmp(a[k], pivot) <= 0
      decreases stop - i
    {
      i := i + 1;
    }
    Flip(cmp, a[i], pivot);
  }

  /** Scans left for an element that is not above the pivot; element `stop` is one. */
  method ScanLeft<T(!new)>(a: array<T>, from: nat, pivot: T, cmp: Comparison<T>, ghost stop: nat) returns (j: nat)
    requires Lawful(cmp) && stop < from <= a.Length && cmp(a[stop], pivot) <= 0
    ensures stop <= j < from && cmp(a[j], pivot) <= 0 && AllAbove(cmp, a[..], j + 1, from, pivot)
  {
    hide Lawful;
    j := from - 1;
    while cmp(a[j], pivot) > 0
      invariant stop <= j < from
      invariant forall k | j < k < from :: cmp(pivot, a[k]) <= 0
      decreases j
    {
      Flip(cmp, a[j], pivot);
      j := j - 1;
    }
  }

  /** What the partition loop keeps: small elements up to `i`, large ones from `j` on, the pivot parked. */
  ghost predicate Parted<T(!new)>(cmp: Comparison<T>, s: seq<T>, left: nat, i: nat, j: nat, right: nat, pivot: T) {
    && left <= i < j < right < |s| && s[right - 1] == pivot
    && AllBelow(cmp, s, left, i + 1, pivot) && AllAbove(cmp, s, j, right + 1, pivot)
  }

  /** The two scans have stopped. */
  ghost predicate Scanned<T(!new)>(cmp: Comparison<T>, s: seq<T>, i: nat, j: nat, i': nat, j': nat, pivot: T)
    requires i < i' <= j < |s| && i <= j' < j
  {
    && AllBelow(cmp, s, i + 1, i', pivot) && cmp(pivot, s[i']) <= 0
    && AllAbove(cmp, s, j' + 1, j, pivot) && cmp(s[j'], pivot) <= 0
  }

  lemma PartedStart<T(!new)>(cmp: Comparison<T>, s: seq<T>, left: nat, right: nat, pivot: T)
    requires Lawful(cmp) && left + 2 < right < |s|
    requires s[right - 1] == pivot && cmp(s[left], pivot) <= 0 && cmp(pivot, s[right]) <= 0
    ensures Parted(cmp, s, left, left, right - 1, right, pivot)
  {
    Flip(cmp, pivot, pivot);
  }

  /** Both ends of the gap stop the scan that comes from the other side. */
  lemma PartedStops<T(!new)>(cmp: Comparison<T>, s: seq<T>, left: nat, i: nat, j: nat, right: nat, pivot: T)
    requires Parted(cmp, s, left, i, j, right, pivot)
    ensures cmp(pivot, s[j]) <= 0 && cmp(s[i], pivot) <= 0
  {
  }

  lemma PartedStep<T(!new)>(cmp: Comparison<T>, s: seq<T>, left: nat, i: nat, j: nat, right: nat, i': nat, j': nat,
                            pivot: T)
    requires Parted(cmp, s, left, i, j, right, pivot) && i < i' < j' < j && Scanned(cmp, s, i, j, i', j', pivot)
    ensures Parted(cmp, Swapped(s, i', j'), left, i', j', right, pivot)
  {
    var t := Swapped(s, i', j');
    forall k | left <= k < i' + 1 ensures cmp(t[k], pivot) <= 0 {
      if k < i' {
        assert t[k] == s[k];
      }
    }
    forall k | j' <= k < right + 1 ensures cmp(pivot, t[k]) <= 0 {
      if k > j' {
        assert t[k] == s[k];
      }
    }
  }

  lemma PartedEnd<T(!new)>(cmp: Comparison<T>, s: seq<T>, left: nat, i: nat, j: nat, right: nat, i': nat, j': nat,
                           pivot: T)
    requires Parted(cmp, s, left, i, j, right, pivot) && i < i' <= j && i <= j' < j && j' <= i'
    requires Scanned(cmp, s, i, j, i', j', pivot)
    ensures left < i' < right
    ensures var t := Swapped(s, i', right - 1);
      t[i'] == pivot && AllBelow(cmp, t, left, i', pivot) && AllAbove(cmp, t, i' + 1, right + 1, pivot)
  {
    var t := Swapped(s, i', right - 1);
    forall k | left <= k < i' ensures cmp(t[k], pivot) <= 0 {
      assert t[k] == s[k];
    }
    forall k | i' + 1 <= k < right + 1 ensures cmp(pivot, t[k]) <= 0 {
      if k != right - 1 {
        assert t[k] == s[k];
      }
    }
  }

  /** The partition loop of `muggle_quick_sort_recursive`. */
  method Partition<T(!new)>(a: array<T>, left: nat, right: nat, pivot: T, cmp: Comparison<T>) returns (i: nat)
    requires Lawful(cmp) && left + 2 < right < a.Length
    requires a[right - 1] == pivot && cmp(a[left], pivot) <= 0 && cmp(pivot, a[right]) <= 0
    modifies a
    ensures Permuted(old(a[..]), a[..], left, right + 1)
    ensures left < i < right && a[i] == pivot
    ensures AllBelow(cmp, a[..], left, i, pivot) && AllAbove(cmp, a[..], i + 1, right + 1, pivot)
  {
    hide Lawful, Permuted, Parted, AllBelow, AllAbove, Swapped;
    ghost var s := a[..];
    PermutedSelf(s, left, right + 1);
    PartedStart(cmp, s, left, right, pivot);
    i := left;
    var j := right - 1;
    ghost var lo, hi := i, j;
    while true
      invariant left <= i < j < right
      invariant Permuted(s, a[..], left, right + 1) && Parted(cmp, a[..], left, i, j, right, pivot)
      decreases j - i
    {
      PartedStops(cmp, a[..], left, i, j, right, pivot);
      lo, hi := i, j;
      i := ScanRight(a, i, pivot, cmp, hi);
      j := ScanLeft(a, j, pivot, cmp, lo);
      if i < j {
        ghost var was := a[..];
        PartedStep(cmp, was, left, lo, hi, right, i, j, pivot);
        SwapWithin(a, i, j, s, left, right + 1);
      } else {
        break;
      }
    }
    ghost var was := a[..];
    PartedEnd(cmp, was, left, lo, hi, right, i, j, pivot);
    SwapWithin(a, i, right - 1, s, left, right + 1);
  }

  // ------------------------------------------------------------------------- the recursion

  /** Two sorted sides around a pivot. */
  lemma Assemble<T(!new)>(cmp: Comparison<T>, s: seq<T>, left: nat, i: nat, right: nat)
    requires Lawful(cmp) && left <= i <= right < |s|
    requires Sorted(cmp, s, left, i) && Sorted(cmp, s, i + 1, right + 1)
    requires AllBelow(cmp, s, left, i, s[i]) && AllAbove(cmp, s, i + 1, right + 1, s[i])
    ensures Sorted(cmp, s, left, right + 1)
  {
    hide Lawful;
    forall x, y | left <= x < y < right + 1 ensures cmp(s[x], s[y]) <= 0 {
      if x < i && i < y {
        Between(cmp, s[x], s[i], s[y]);
      }
    }
  }

  lemma Between<T(!new)>(cmp: Comparison<T>, x: T, y: T, z: T)
    requires Lawful(cmp) && cmp(x, y) <= 0 && cmp(y, z) <= 0
    ensures cmp(x, z) <= 0
  {
  }

  /** Sorting one side leaves the facts about the other side and the pivot alone. */
  lemma SideSorted<T>(s: seq<T>, t: seq<T>, lo: nat, hi: nat, left: nat, right: nat)
    requires Permuted(s, t, lo, hi) && left <= right <= |s| && (right <= lo || hi <= left)
    ensures |t| == |s| && forall k | left <= k < right :: t[k] == s[k]
  {
    hide Permuted;
    assert |t| == |s| by { PermutedLength(s, t, lo, hi); }
    forall k | left <= k < right ensures t[k] == s[k] {
      PermutedOutside(s, t, lo, hi, k);
    }
  }

  lemma PermutedLength<T>(s: seq<T>, t: seq<T>, lo: nat, hi: nat)
    requires Permuted(s, t, lo, hi)
    ensures |s| == |t| && lo <= hi <= |s|
  {
  }

  /** A partition whose sides are then sorted is sorted. */
  lemma Combine<T(!new)>(cmp: Comparison<T>, s2: seq<T>, s3: seq<T>, s4: seq<T>, left: nat, i: nat, right: nat, p: T)
    requires Lawful(cmp) && left < i < right < |s2| && s2[i] == p
    requires AllBelow(cmp, s2, left, i, p) && AllAbove(cmp, s2, i + 1, right + 1, p)
    requires Permuted(s2, s3, left, i) && i <= |s3| && Sorted(cmp, s3, left, i)
    requires Permuted(s3, s4, i + 1, right + 1) && right + 1 <= |s4| && Sorted(cmp, s4, i + 1, right + 1)
    ensures Permuted(s2, s4, left, right + 1) && Sorted(cmp, s4, left, right + 1)
  {
    hide Lawful, Permuted;
    SideSorted(s2, s3, left, i, i, right + 1);
    SideSorted(s3, s4, i + 1, right + 1, left, i + 1);
    BelowKept(cmp, s2, s3, left, i, p);
    AboveKept(cmp, s3, s4, i + 1, right + 1, p);
    Assemble(cmp, s4, left, i, right);
    PermutedWiden(s2, s3, left, i, left, right + 1);
    PermutedWiden(s3, s4, i + 1, right + 1, left, right + 1);
    PermutedThen(s2, s3, s4, left, right + 1);
  }

  /** `muggle_quick_sort_recursive`. */
  method SortRange<T(!new, ==)>(a: array<T>, left: nat, right: nat, cmp: Comparison<T>)
    requires Lawful(cmp) && left <= right < a.Length
    modifies a
    ensures Sorted(cmp, a[..], left, right + 1) && Permuted(old(a[..]), a[..], left, right + 1)
    decreases right - left
  {
    hide Lawful, Permuted, AllBelow, AllAbove, Sorted;
    if left + CUTOFF <= right {
      ghost var s0 := a[..];
      var pivot := Median3(a, left, right, cmp);
      ghost var s1 := a[..];
      var i := Partition(a, left, right, pivot, cmp);
      ghost var s2 := a[..];
      SortRange(a, left, i - 1, cmp);
      ghost var s3 := a[..];
      SortRange(a, i + 1, right, cmp);
      ghost var s4 := a[..];
      Combine(cmp, s2, s3, s4, left, i, right, pivot);
      PermutedThen(s0, s1, s2, left, right + 1);
      PermutedThen(s0, s2, s4, left, right + 1);
    } else {
      InsertionSort(a, left, right + 1, cmp);
    }
  }

  /** `muggle_quick_sort`; with no elements the source would index from the largest unsigned number. */
  method Sort<T(!new, ==)>(a: array<T>, cmp: Comparison<T>)
    requires Lawful(cmp) && a.Length >= 1
    modifies a
    ensures Sorted(cmp, a[..], 0, a.Length) && multiset(a[..]) == multiset(old(a[..]))
  {
    ghost var s := a[..];
    SortRange(a, 0, a.Length - 1, cmp);
    assert s[0..a.Length] == s && a[0..a.Length] == a[..];
  }
}
