/** Merge sort of `muggle/c/dsaa/sort.c`, proved against a function on sequences that sorts stably. */
module MergeSort {
  import opened Order
  import opened Sorting

  // ------------------------------------------------------------------------- on values

  /** Two runs into one; of equal elements those of `a` come first. */
  function Merge<T(!new)>(cmp: Comparison<T>, a: seq<T>, b: seq<T>): (c: seq<T>)
    ensures |c| == |a| + |b|
    decreases |a| + |b|
  {
    if a == [] then b
    else if b == [] then a
    else if cmp(a[0], b[0]) <= 0 then [a[0]] + Merge(cmp, a[1..], b)
    else [b[0]] + Merge(cmp, a, b[1..])
  }

  function MergeSorted<T(!new)>(cmp: Comparison<T>, s: seq<T>): (t: seq<T>)
    ensures |t| == |s|
    decreases |s|
  {
    if |s| <= 1 then s
    else
      var mid := (|s| + 1) / 2;
      Merge(cmp, MergeSorted(cmp, s[..mid]), MergeSorted(cmp, s[mid..]))
  }

  /** Ascending, head first. */
  ghost predicate Ascending<T(!new)>(cmp: Comparison<T>, s: seq<T>) {
    s == [] || ((forall x | x in s[1..] :: cmp(s[0], x) <= 0) && Ascending(cmp, s[1..]))
  }

  lemma {:induction false} AscendingSorted<T(!new)>(cmp: Comparison<T>, s: seq<T>, i: nat, j: nat)
    requires Ascending(cmp, s) && i < j < |s|
    ensures cmp(s[i], s[j]) <= 0
    decreases |s|
  {
    if i == 0 {
      assert s[1..][j - 1] == s[j];
    } else {
      AscendingSorted(cmp, s[1..], i - 1, j - 1);
    }
  }

  /** The elements that compare equal to `x`, in their order. */
  function Class<T(!new)>(cmp: Comparison<T>, x: T, s: seq<T>): seq<T> {
    if s == [] then []
    else if cmp(x, s[0]) == 0 then [s[0]] + Class(cmp, x, s[1..])
    else Class(cmp, x, s[1..])
  }

  lemma {:induction false} ClassJoin<T(!new)>(cmp: Comparison<T>, x: T, a: seq<T>, b: seq<T>)
    ensures Class(cmp, x, a + b) == Class(cmp, x, a) + Class(cmp, x, b)
    decreases |a|
  {
    if a == [] {
      assert a + b == b;
    } else {
      assert (a + b)[1..] == a[1..] + b;
      ClassJoin(cmp, x, a[1..], b);
    }
  }

  lemma {:induction false} ClassNone<T(!new)>(cmp: Comparison<T>, x: T, s: seq<T>)
    requires forall y | y in s :: cmp(x, y) != 0
    ensures Class(cmp, x, s) == []
    decreases |s|
  {
    if s != [] {
      ClassNone(cmp, x, s[1..]);
    }
  }

  // ------------------------------------------------------------------------- merging

  lemma MergeFirst<T(!new)>(cmp: Comparison<T>, a: seq<T>, b: seq<T>)
    ensures a == [] ==> Merge(cmp, a, b) == b
    ensures b == [] ==> Merge(cmp, a, b) == a
    ensures a != [] && b != [] && cmp(a[0], b[0]) <= 0 ==> Merge(cmp, a, b) == [a[0]] + Merge(cmp, a[1..], b)
    ensures a != [] && b != [] && cmp(a[0], b[0]) > 0 ==> Merge(cmp, a, b) == [b[0]] + Merge(cmp, a, b[1..])
  {
  }

  lemma {:induction false} MergeMembers<T(!new)>(cmp: Comparison<T>, a: seq<T>, b: seq<T>)
    ensures multiset(Merge(cmp, a, b)) == multiset(a) + multiset(b)
    decreases |a| + |b|
  {
    MergeFirst(cmp, a, b);
    hide Merge;
    if a != [] && b != [] {
      if cmp(a[0], b[0]) <= 0 {
        MergeMembers(cmp, a[1..], b);
        Cons(a[0], a[1..], Merge(cmp, a[1..], b), b);
        assert a == [a[0]] + a[1..];
      } else {
        MergeMembers(cmp, a, b[1..]);
        Cons(b[0], b[1..], Merge(cmp, a, b[1..]), a);
        assert b == [b[0]] + b[1..];
      }
    }
  }

  lemma Cons<T>(x: T, s: seq<T>, m: seq<T>, o: seq<T>)
    requires multiset(m) == multiset(s) + multiset(o)
    ensures multiset([x] + m) == multiset([x] + s) + multiset(o)
  {
  }

  lemma {:induction false} MergeAscending<T(!new)>(cmp: Comparison<T>, a: seq<T>, b: seq<T>)
    requires Lawful(cmp) && Ascending(cmp, a) && Ascending(cmp, b)
    ensures Ascending(cmp, Merge(cmp, a, b))
    decreases |a| + |b|
  {
    hide Lawful;
    if a != [] && b != [] {
      if cmp(a[0], b[0]) <= 0 {
        MergeAscending(cmp, a[1..], b);
        MergeHead(cmp, a[0], a[1..], b, Merge(cmp, a[1..], b));
      } else {
        Flip(cmp, a[0], b[0]);
        MergeAscending(cmp, a, b[1..]);
        MergeHead(cmp, b[0], b[1..], a, Merge(cmp, a, b[1..]));
      }
    }
  }

  lemma MergeHead<T(!new)>(cmp: Comparison<T>, x: T, rest: seq<T>, other: seq<T>, merged: seq<T>)
    requires Lawful(cmp) && other != [] && Ascending(cmp, other) && cmp(x, other[0]) <= 0
    requires (forall y | y in rest :: cmp(x, y) <= 0)
    requires merged == Merge(cmp, rest, other) || merged == Merge(cmp, other, rest)
    ensures forall y | y in merged :: cmp(x, y) <= 0
  {
    hide Lawful, Merge;
    MergeMembers(cmp, rest, other);
    MergeMembers(cmp, other, rest);
    forall y | y in merged ensures cmp(x, y) <= 0 {
      assert y in multiset(merged);
      if y !in rest {
        assert y in other;
        if y != other[0] {
          assert other == [other[0]] + other[1..];
          Chain(cmp, x, other[0], y);
        }
      }
    }
  }

  lemma Chain<T(!new)>(cmp: Comparison<T>, x: T, y: T, z: T)
    requires Lawful(cmp) && cmp(x, y) <= 0 && cmp(y, z) <= 0
    ensures cmp(x, z) <= 0
  {
  }

  /** Merging two runs keeps every class, those of `a` first. */
  lemma {:induction false} MergeStable<T(!new)>(cmp: Comparison<T>, x: T, a: seq<T>, b: seq<T>)
    requires Lawful(cmp) && Ascending(cmp, a) && Ascending(cmp, b)
    ensures Class(cmp, x, Merge(cmp, a, b)) == Class(cmp, x, a) + Class(cmp, x, b)
    decreases |a| + |b|
  {
    hide Lawful;
    if a == [] || b == [] {
      assert Class(cmp, x, []) == [];
    } else if cmp(a[0], b[0]) <= 0 {
      MergeStable(cmp, x, a[1..], b);
      assert Merge(cmp, a, b)[1..] == Merge(cmp, a[1..], b);
    } else {
      MergeStable(cmp, x, a, b[1..]);
      assert Merge(cmp, a, b)[1..] == Merge(cmp, a, b[1..]);
      if cmp(x, b[0]) == 0 {
        forall y | y in a ensures cmp(x, y) != 0 {
          AboveHead(cmp, x, a, b[0], y);
        }
        ClassNone(cmp, x, a);
      }
    }
  }

  lemma AboveHead<T(!new)>(cmp: Comparison<T>, x: T, a: seq<T>, z: T, y: T)
    requires Lawful(cmp) && a != [] && Ascending(cmp, a) && cmp(a[0], z) > 0 && cmp(x, z) == 0 && y in a
    ensures cmp(x, y) != 0
  {
    hide Lawful;
    Flip(cmp, a[0], z);
    SameKey(cmp, x, z, y);
    if y == a[0] {
    } else {
      assert a == [a[0]] + a[1..];
      LessTrans(cmp, z, a[0], y);
    }
  }

  // ------------------------------------------------------------------------- sorting

  /** The result is ascending, a permutation, and keeps the order of elements that compare equal. */
  lemma {:induction false} MergeSortedSorts<T(!new)>(cmp: Comparison<T>, s: seq<T>)
    requires Lawful(cmp)
    ensures Ascending(cmp, MergeSorted(cmp, s)) && multiset(MergeSorted(cmp, s)) == multiset(s)
    ensures forall x :: Class(cmp, x, MergeSorted(cmp, s)) == Class(cmp, x, s)
    decreases |s|
  {
    hide Lawful, Merge, Class;
    if |s| > 1 {
      var mid := (|s| + 1) / 2;
      var a, b := MergeSorted(cmp, s[..mid]), MergeSorted(cmp, s[mid..]);
      assert s == s[..mid] + s[mid..];
      MergeSortedSorts(cmp, s[..mid]);
      MergeSortedSorts(cmp, s[mid..]);
      MergeAscending(cmp, a, b);
      MergeMembers(cmp, a, b);
      forall x ensures Class(cmp, x, MergeSorted(cmp, s)) == Class(cmp, x, s) {
        MergeStable(cmp, x, a, b);
        ClassJoin(cmp, x, s[..mid], s[mid..]);
      }
    }
  }

  /** Two ascending arrangements with the same classes are the same sequence: the contract determines the result. */
  lemma {:induction false} StableUnique<T(!new)>(cmp: Comparison<T>, s: seq<T>, t: seq<T>)
    requires Lawful(cmp) && Ascending(cmp, s) && Ascending(cmp, t)
    requires forall x :: Class(cmp, x, s) == Class(cmp, x, t)
    ensures s == t
    decreases |s|
  {
    if s == [] {
      if t != [] {
        ClassHead(cmp, t);
        assert false;
      }
    } else {
      SameHead(cmp, s, t);
      forall x ensures Class(cmp, x, s[1..]) == Class(cmp, x, t[1..]) {
        assert Class(cmp, x, s) == Class(cmp, x, t);
        if cmp(x, s[0]) == 0 {
          assert Class(cmp, x, s)[1..] == Class(cmp, x, s[1..]) && Class(cmp, x, t)[1..] == Class(cmp, x, t[1..]);
        }
      }
      StableUnique(cmp, s[1..], t[1..]);
    }
  }

  lemma ClassHead<T(!new)>(cmp: Comparison<T>, s: seq<T>)
    requires Lawful(cmp) && s != []
    ensures Class(cmp, s[0], s) != []
  {
    Flip(cmp, s[0], s[0]);
  }

  lemma {:induction false} ClassFirst<T(!new)>(cmp: Comparison<T>, x: T, s: seq<T>)
    requires Class(cmp, x, s) != []
    ensures Class(cmp, x, s)[0] in s && cmp(x, Class(cmp, x, s)[0]) == 0
    decreases |s|
  {
    if cmp(x, s[0]) != 0 {
      ClassFirst(cmp, x, s[1..]);
    }
  }

  lemma HeadBelow<T(!new)>(cmp: Comparison<T>, s: seq<T>, y: T)
    requires Lawful(cmp) && s != [] && Ascending(cmp, s) && y in s
    ensures cmp(s[0], y) <= 0
  {
    Flip(cmp, y, y);
    if y != s[0] {
      assert s == [s[0]] + s[1..];
    }
  }

  lemma SameHead<T(!new)>(cmp: Comparison<T>, s: seq<T>, t: seq<T>)
    requires Lawful(cmp) && s != [] && Ascending(cmp, s) && Ascending(cmp, t)
    requires forall x :: Class(cmp, x, s) == Class(cmp, x, t)
    ensures t != [] && t[0] == s[0]
  {
    hide Lawful, Ascending;
    Flip(cmp, s[0], s[0]);
    assert Class(cmp, s[0], s)[0] == s[0];
    ClassFirst(cmp, s[0], t);
    HeadBelow(cmp, t, s[0]);
    Flip(cmp, t[0], t[0]);
    ClassFirst(cmp, t[0], s);
    var y := Class(cmp, t[0], s)[0];
    HeadBelow(cmp, s, y);
    SameKey(cmp, t[0], y, s[0]);
    Flip(cmp, s[0], y);
    Flip(cmp, s[0], t[0]);
  }

  // ------------------------------------------------------------------------- in place

  lemma MergeLeft<T(!new)>(cmp: Comparison<T>, done: seq<T>, a: seq<T>, b: seq<T>)
    requires a != [] && (b == [] || cmp(a[0], b[0]) <= 0)
    ensures done + [a[0]] + Merge(cmp, a[1..], b) == done + Merge(cmp, a, b)
  {
    if b == [] {
      MergeRest(cmp, a[1..]);
      assert [a[0]] + a[1..] == a;
    }
  }

  lemma MergeRight<T(!new)>(cmp: Comparison<T>, done: seq<T>, a: seq<T>, b: seq<T>)
    requires b != [] && (a == [] || cmp(a[0], b[0]) > 0)
    ensures done + [b[0]] + Merge(cmp, a, b[1..]) == done + Merge(cmp, a, b)
  {
    if a == [] {
      assert [b[0]] + b[1..] == b;
    }
  }

  lemma MergeRest<T(!new)>(cmp: Comparison<T>, a: seq<T>)
    ensures Merge(cmp, a, []) == a
  {
  }

  /** What the merging loops keep: written so far, then the merge of what is left, is the merge of the two halves. */
  ghost predicate Merging<T(!new)>(cmp: Comparison<T>, p: seq<T>, arr: seq<T>, left: nat, center: nat, right: nat,
                                   l: nat, r: nat, idx: nat) {
    && left <= l <= center + 1 <= r <= right + 1 <= |p| == |arr|
    && idx + (center + 1) == l + r
    && arr[left..idx] + Merge(cmp, p[l..center + 1], p[r..right + 1])
       == Merge(cmp, p[left..center + 1], p[center + 1..right + 1])
  }

  lemma MergingLeft<T(!new)>(cmp: Comparison<T>, p: seq<T>, arr: seq<T>, left: nat, center: nat, right: nat,
                             l: nat, r: nat, idx: nat)
    requires Merging(cmp, p, arr, left, center, right, l, r, idx) && l <= center
    requires r == right + 1 || cmp(p[l], p[r]) <= 0
    ensures idx < |arr| && Merging(cmp, p, arr[idx := p[l]], left, center, right, l + 1, r, idx + 1)
  {
    var a, b := p[l..center + 1], p[r..right + 1];
    MergeLeft(cmp, arr[left..idx], a, b);
    assert a[1..] == p[l + 1..center + 1];
    assert arr[idx := p[l]][left..idx + 1] == arr[left..idx] + [a[0]];
  }

  lemma MergingRight<T(!new)>(cmp: Comparison<T>, p: seq<T>, arr: seq<T>, left: nat, center: nat, right: nat,
                              l: nat, r: nat, idx: nat)
    requires Merging(cmp, p, arr, left, center, right, l, r, idx) && r <= right
    requires l == center + 1 || cmp(p[l], p[r]) > 0
    ensures idx < |arr| && Merging(cmp, p, arr[idx := p[r]], left, center, right, l, r + 1, idx + 1)
  {
    var a, b := p[l..center + 1], p[r..right + 1];
    MergeRight(cmp, arr[left..idx], a, b);
    assert b[1..] == p[r + 1..right + 1];
    assert arr[idx := p[r]][left..idx + 1] == arr[left..idx] + [b[0]];
  }

  /** The three merging loops. */
  method MergeHalves<T(!new)>(ptr: array<T>, arr: array<T>, left: nat, center: nat, right: nat, cmp: Comparison<T>)
    requires ptr != arr && ptr.Length == arr.Length && left <= center < right < ptr.Length
    modifies arr
    ensures arr[left..right + 1] == Merge(cmp, ptr[left..center + 1], ptr[center + 1..right + 1])
  {
    hide Merging, Merge;
    ghost var p := ptr[..];
    var l: nat, r: nat, idx: nat := left, center + 1, left;
    assert Merging(cmp, p, arr[..], left, center, right, l, r, idx) by { MergingStart(cmp, p, arr[..], left, center, right); }
    while l <= center && r <= right
      invariant Merging(cmp, p, arr[..], left, center, right, l, r, idx)
      invariant l <= center + 1 && r <= right + 1
      decreases center + 1 - l + (right + 1 - r)
    {
      ghost var was := arr[..];
      if cmp(ptr[l], ptr[r]) <= 0 {
        MergingLeft(cmp, p, was, left, center, right, l, r, idx);
        arr[idx] := ptr[l];
        assert arr[..] == was[idx := p[l]];
        idx, l := idx + 1, l + 1;
      } else {
        MergingRight(cmp, p, was, left, center, right, l, r, idx);
        arr[idx] := ptr[r];
        assert arr[..] == was[idx := p[r]];
        idx, r := idx + 1, r + 1;
      }
    }
    while l <= center
      invariant Merging(cmp, p, arr[..], left, center, right, l, r, idx)
      invariant l <= center + 1 && r <= right + 1 && (l <= center ==> r == right + 1)
    {
      ghost var was := arr[..];
      MergingLeft(cmp, p, was, left, center, right, l, r, idx);
      arr[idx] := ptr[l];
      assert arr[..] == was[idx := p[l]];
      idx, l := idx + 1, l + 1;
    }
    while r <= right
      invariant Merging(cmp, p, arr[..], left, center, right, l, r, idx)
      invariant l == center + 1 && r <= right + 1
    {
      ghost var was := arr[..];
      MergingRight(cmp, p, was, left, center, right, l, r, idx);
      arr[idx] := ptr[r];
      assert arr[..] == was[idx := p[r]];
      idx, r := idx + 1, r + 1;
    }
    MergingEnd(cmp, p, arr[..], left, center, right, idx);
  }

  lemma MergingStart<T(!new)>(cmp: Comparison<T>, p: seq<T>, arr: seq<T>, left: nat, center: nat, right: nat)
    requires left <= center < right < |p| == |arr|
    ensures Merging(cmp, p, arr, left, center, right, left, center + 1, left)
  {
    assert arr[left..left] == [];
  }

  lemma MergingEnd<T(!new)>(cmp: Comparison<T>, p: seq<T>, arr: seq<T>, left: nat, center: nat, right: nat, idx: nat)
    requires Merging(cmp, p, arr, left, center, right, center + 1, right + 1, idx)
    ensures idx == right + 1
    ensures arr[left..right + 1] == Merge(cmp, p[left..center + 1], p[center + 1..right + 1])
  {
    assert p[center + 1..center + 1] == [] && p[right + 1..right + 1] == [];
  }

  /** `muggle_merge_sort_recursive`. */
  method SortRange<T(!new)>(ptr: array<T>, arr: array<T>, left: nat, right: nat, cmp: Comparison<T>)
    requires ptr != arr && ptr.Length == arr.Length && left <= right < ptr.Length
    modifies ptr, arr
    ensures ptr[left..right + 1] == MergeSorted(cmp, old(ptr[left..right + 1]))
    ensures ptr[..left] == old(ptr[..left]) && ptr[right + 1..] == old(ptr[right + 1..])
    decreases right - left
  {
    hide Merge;
    if left == right {
      assert |ptr[left..right + 1]| == 1;
    }
    if left < right {
      hide MergeSorted;
      var center := (left + right) / 2;
      ghost var s0 := ptr[..];
      SortRange(ptr, arr, left, center, cmp);
      ghost var s1 := ptr[..];
      SortRange(ptr, arr, center + 1, right, cmp);
      ghost var s2 := ptr[..];
      Sides(s0, s1, s2, left, center, right);
      MergeHalves(ptr, arr, left, center, right, cmp);
      CopyBack(ptr, arr, left, right);
      SplitIs(cmp, s0, left, center, right);
    }
  }

  /** Each half is untouched while the other is sorted. */
  lemma Sides<T>(s0: seq<T>, s1: seq<T>, s2: seq<T>, left: nat, center: nat, right: nat)
    requires left <= center < right < |s0| == |s1| == |s2|
    requires s1[..left] == s0[..left] && s1[center + 1..] == s0[center + 1..]
    requires s2[..center + 1] == s1[..center + 1] && s2[right + 1..] == s1[right + 1..]
    ensures s1[center + 1..right + 1] == s0[center + 1..right + 1]
    ensures s2[left..center + 1] == s1[left..center + 1]
    ensures s2[..left] == s0[..left] && s2[right + 1..] == s0[right + 1..]
  {
    assert s1[center + 1..right + 1] == s1[center + 1..][..right - center];
    assert s0[center + 1..right + 1] == s0[center + 1..][..right - center];
    assert s2[left..center + 1] == s2[..center + 1][left..] && s1[left..center + 1] == s1[..center + 1][left..];
    assert s2[..left] == s2[..center + 1][..left] && s1[..left] == s1[..center + 1][..left];
    assert s1[right + 1..] == s1[center + 1..][right - center..];
    assert s0[right + 1..] == s0[center + 1..][right - center..];
  }

  lemma SplitIs<T(!new)>(cmp: Comparison<T>, s0: seq<T>, left: nat, center: nat, right: nat)
    requires left < right < |s0| && center == (left + right) / 2
    ensures MergeSorted(cmp, s0[left..right + 1])
            == Merge(cmp, MergeSorted(cmp, s0[left..center + 1]), MergeSorted(cmp, s0[center + 1..right + 1]))
  {
    hide Merge;
    var s := s0[left..right + 1];
    var mid := (|s| + 1) / 2;
    MidIs(left, center, right, mid);
    assert s[..mid] == s0[left..center + 1];
    assert s[mid..] == s0[center + 1..right + 1];
    assert MergeSorted(cmp, s) == Merge(cmp, MergeSorted(cmp, s[..mid]), MergeSorted(cmp, s[mid..]));
  }

  lemma MidIs(left: nat, center: nat, right: nat, mid: nat)
    requires left < right && center == (left + right) / 2 && mid == (right + 1 - left + 1) / 2
    ensures left + mid == center + 1 && left <= center < right
  {
  }

  method CopyBack<T>(ptr: array<T>, arr: array<T>, left: nat, right: nat)
    requires ptr != arr && ptr.Length == arr.Length && left <= right < ptr.Length
    modifies ptr
    ensures ptr[left..right + 1] == arr[left..right + 1]
    ensures ptr[..left] == old(ptr[..left]) && ptr[right + 1..] == old(ptr[right + 1..])
  {
    for idx := left to right + 1
      invariant forall k | left <= k < idx :: ptr[k] == arr[k]
      invariant forall k | 0 <= k < left || right < k < ptr.Length :: ptr[k] == old(ptr[k])
    {
      ptr[idx] := arr[idx];
    }
  }

  /** `muggle_merge_sort`; with no elements the source would index from the largest unsigned number. */
  method Sort<T(!new, 0)>(ptr: array<T>, cmp: Comparison<T>, memory: bool) returns (ok: bool)
    requires Lawful(cmp) && ptr.Length >= 1
    modifies ptr
    ensures ok == memory
    ensures ok ==> Sorted(cmp, ptr[..], 0, ptr.Length) && multiset(ptr[..]) == multiset(old(ptr[..]))
    ensures ok ==> forall x :: Class(cmp, x, ptr[..]) == Class(cmp, x, old(ptr[..]))
    ensures !ok ==> ptr[..] == old(ptr[..])
  {
    hide Lawful, MergeSorted, Class;
    if !memory {
      return false;
    }
    var arr := new T[ptr.Length];
    ghost var s := ptr[..];
    SortRange(ptr, arr, 0, ptr.Length - 1, cmp);
    assert s[0..ptr.Length] == s && ptr[0..ptr.Length] == ptr[..];
    MergeSortedSorts(cmp, s);
    AscendingAll(cmp, ptr[..]);
    return true;
  }

  lemma AscendingAll<T(!new)>(cmp: Comparison<T>, s: seq<T>)
    requires Ascending(cmp, s)
    ensures Sorted(cmp, s, 0, |s|)
  {
    forall i, j | 0 <= i < j < |s| ensures cmp(s[i], s[j]) <= 0 {
      AscendingSorted(cmp, s, i, j);
    }
  }
}
