/** Heap sort of `muggle/c/dsaa/sort.c`: everything into a heap, then out again in order. */
module HeapSort {
  import opened Order
  import opened Sorting
  import HeapOrder
  import Heap

  type Entry<T> = HeapOrder.Node<T, ()>

  /** The heap entries of a sequence of elements; the values stay empty. */
  function Entries<T>(s: seq<T>): (e: seq<Entry<T>>)
    ensures |e| == |s| && forall i | 0 <= i < |s| :: e[i] == HeapOrder.Node(s[i], ())
  {
    seq(|s|, i requires 0 <= i < |s| => HeapOrder.Node(s[i], ()))
  }

  lemma EntriesLast<T>(s: seq<T>, x: T)
    ensures multiset(Entries(s + [x])) == multiset(Entries(s)) + multiset{HeapOrder.Node(x, ())}
  {
    assert Entries(s + [x]) == Entries(s) + [HeapOrder.Node(x, ())];
  }

  lemma {:induction false} EntriesCount<T>(s: seq<T>, x: T)
    ensures multiset(Entries(s))[HeapOrder.Node(x, ())] == multiset(s)[x]
    decreases |s|
  {
    if s != [] {
      var t, y := s[..|s| - 1], s[|s| - 1];
      assert s == t + [y];
      EntriesCount(t, x);
      EntriesLast(t, y);
    }
  }

  /** Entries are a permutation exactly when the elements are. */
  lemma EntriesPermuted<T>(s: seq<T>, t: seq<T>)
    requires multiset(Entries(s)) == multiset(Entries(t))
    ensures multiset(s) == multiset(t)
  {
    forall x ensures multiset(s)[x] == multiset(t)[x] {
      EntriesCount(s, x);
      EntriesCount(t, x);
    }
  }

  /** The capacity `muggle_heap_sort` asks for: the count is cut to 32 bits. */
  function Requested(count: nat): nat { (count % 0x1_0000_0000 + 1) % 0x1_0000_0000 }

  /** The heap has room for every element without growing. */
  predicate Fits(count: nat) { count <= Heap.Chosen(Requested(count)) }

  lemma FitsExactly(count: nat)
    ensures Fits(count) <==> count < 0xffff_ffff
  {
  }

  /** What has been taken out is in order and not above anything still inside. */
  ghost predicate Drained<T(!new)>(cmp: Comparison<T>, s: seq<T>, i: nat, rest: multiset<Entry<T>>)
    requires i <= |s|
  {
    && Sorted(cmp, s, 0, i)
    && forall k, e | 0 <= k < i && e in rest :: cmp(s[k], e.key) <= 0
  }

  lemma DrainedStep<T(!new)>(cmp: Comparison<T>, s: seq<T>, i: nat, rest: multiset<Entry<T>>, node: Entry<T>)
    requires i < |s| && Drained(cmp, s, i, rest) && node in rest
    requires forall e | e in rest :: cmp(node.key, e.key) <= 0
    ensures Drained(cmp, s[i := node.key], i + 1, rest - multiset{node})
  {
    var t := s[i := node.key];
    forall x, y | 0 <= x < y < i + 1 ensures cmp(t[x], t[y]) <= 0 {
      assert cmp(s[x], node.key) <= 0;
    }
    forall k, e | 0 <= k < i + 1 && e in rest - multiset{node} ensures cmp(t[k], e.key) <= 0 {
      assert e in rest;
    }
  }

  lemma Shift<T>(a: multiset<T>, b: multiset<T>, x: T, all: multiset<T>)
    requires a + b == all && x in b
    ensures a + multiset{x} + (b - multiset{x}) == all
  {
  }

  lemma DrainedMore<T(!new)>(cmp: Comparison<T>, s: seq<T>, i: nat, rest: multiset<Entry<T>>, node: Entry<T>,
                             all: multiset<Entry<T>>)
    requires i < |s| && Drained(cmp, s, i, rest) && node in rest && multiset(Entries(s[..i])) + rest == all
    requires forall e | e in rest :: cmp(node.key, e.key) <= 0
    ensures var t := s[i := node.key];
      multiset(Entries(t[..i + 1])) + (rest - multiset{node}) == all && Drained(cmp, t, i + 1, rest - multiset{node})
  {
    hide Drained, Entries;
    DrainedStep(cmp, s, i, rest, node);
    assert s[i := node.key][..i + 1] == s[..i] + [node.key];
    EntriesLast(s[..i], node.key);
    Whole(node);
    Shift(multiset(Entries(s[..i])), rest, node, all);
  }

  /** The loop does not look at what `muggle_heap_insert` returns. */
  method Fill<T(!new, ==)>(a: array<T>, heap: Heap.Heap<T, ()>, granted: bool, nil: Entry<T>)
    requires heap.Valid() && heap.size == 0 && heap.Entries() == multiset{}
    requires heap.capacity <= 0x1_0000_0000 && a.Length < 0x100_0000_0000_0000
    modifies heap
    ensures heap.Valid() && heap.size <= a.Length
    ensures granted || a.Length <= old(heap.capacity) ==>
      heap.size == a.Length && heap.Entries() == multiset(Entries(a[..]))
  {
    hide Lawful, Entries, HeapOrder.Ordered, Heap.Bag;
    assert a[..0] == [] && multiset(Entries<T>([])) == multiset{} by { NoEntries<T>(); }
    ghost var roomy := granted || a.Length <= heap.capacity;
    for i := 0 to a.Length
      invariant heap.Valid() && heap.size <= i && heap.capacity <= 0x1_0000_0000 + 2 * i
      invariant roomy ==> (granted || a.Length <= heap.capacity) && heap.size == i
      invariant roomy ==> heap.Entries() == multiset(Entries(a[..i]))
    {
      assert a[..i + 1] == a[..i] + [a[i]];
      EntriesLast(a[..i], a[i]);
      var _ := heap.Insert(a[i], (), granted, nil);
    }
    assert a[..a.Length] == a[..];
  }

  /** One element out of the heap and into the array; from an empty heap `node` stays what it was. */
  method DrainOne<T(!new, ==)>(a: array<T>, i: nat, heap: Heap.Heap<T, ()>, last: Entry<T>, ghost all: multiset<Entry<T>>)
    returns (node: Entry<T>)
    requires heap.Valid() && i < a.Length
    modifies heap, a
    ensures heap.Valid() && heap.size == if old(heap.size) == 0 then 0 else old(heap.size) - 1
    ensures old(heap.size) > 0 && multiset(Entries(old(a[..i]))) + old(heap.Entries()) == all
            && Drained(heap.cmp, old(a[..]), i, old(heap.Entries())) ==>
      multiset(Entries(a[..i + 1])) + heap.Entries() == all && Drained(heap.cmp, a[..], i + 1, heap.Entries())
  {
    hide Lawful, Entries, Drained, HeapOrder.Ordered, Heap.Bag;
    ghost var was, inside := a[..], heap.Entries();
    assert was[..i] == a[..i];
    var ok, first := heap.Extract();
    node := if ok then first else last;
    a[i] := node.key;
    assert a[..] == was[i := node.key];
    if ok && multiset(Entries(was[..i])) + inside == all && Drained(heap.cmp, was, i, inside) {
      DrainedMore(heap.cmp, was, i, inside, node, all);
      assert a[..i + 1] == was[i := node.key][..i + 1];
    }
  }

  method Drain<T(!new, ==)>(a: array<T>, heap: Heap.Heap<T, ()>, nil: Entry<T>)
    requires heap.Valid() && heap.size <= a.Length
    modifies heap, a
    ensures old(heap.size) == a.Length ==>
      Sorted(heap.cmp, a[..], 0, a.Length) && multiset(Entries(a[..])) == old(heap.Entries())
  {
    hide Lawful, Drained, Sorted, Entries, HeapOrder.Ordered, Heap.Bag;
    ghost var all, full := heap.Entries(), heap.size == a.Length;
    DrainedNone(heap.cmp, a[..], all);
    assert a[..0] == [] && multiset(Entries<T>([])) == multiset{} by { NoEntries<T>(); }
    var node := nil;
    for i := 0 to a.Length
      invariant heap.Valid() && (full ==> heap.size == a.Length - i)
      invariant full ==> multiset(Entries(a[..i])) + heap.Entries() == all && Drained(heap.cmp, a[..], i, heap.Entries())
    {
      node := DrainOne(a, i, heap, node, all);
    }
    assert a[..a.Length] == a[..];
    if full {
      Emptied(heap.nodes, heap.size);
      DrainedAll(heap.cmp, a[..], heap.Entries());
    }
  }

  /** `muggle_heap_sort`. `memory` says whether the first allocation succeeds and `granted` whether those of a growing
      heap do; below 2^32 - 1 elements the heap does not grow. */
  method Sort<T(!new, ==)>(a: array<T>, cmp: Comparison<T>, memory: bool, granted: bool, blank: T) returns (ok: bool)
    requires Lawful(cmp) && a.Length < 0x100_0000_0000_0000
    modifies a
    ensures ok == memory
    ensures ok && (granted || a.Length < 0xffff_ffff) ==>
      Sorted(cmp, a[..], 0, a.Length) && multiset(a[..]) == multiset(old(a[..]))
    ensures !ok ==> a[..] == old(a[..])
  {
    hide Lawful, Sorted, Entries, HeapOrder.Ordered, Heap.Bag;
    var nil := HeapOrder.Node(blank, ());
    var heap := Heap.Heap<T, ()>.Init(cmp, Requested(a.Length), memory, nil);
    if heap == null {
      return false;
    }
    FitsExactly(a.Length);
    Fill(a, heap, granted, nil);
    Drain(a, heap, nil);
    if granted || a.Length < 0xffff_ffff {
      EntriesPermuted(a[..], old(a[..]));
    }
    return true;
  }

  lemma NoEntries<T>()
    ensures multiset(Entries<T>([])) == multiset{}
  {
  }

  lemma Whole<T>(node: Entry<T>)
    ensures HeapOrder.Node(node.key, ()) == node
  {
    assert node.value == ();
  }

  lemma Emptied<T>(nodes: seq<Entry<T>>, n: nat)
    requires n == 0 && n < |nodes|
    ensures Heap.Bag(nodes, n) == multiset{}
  {
  }

  lemma DrainedNone<T(!new)>(cmp: Comparison<T>, s: seq<T>, rest: multiset<Entry<T>>)
    ensures Drained(cmp, s, 0, rest)
  {
  }

  lemma DrainedAll<T(!new)>(cmp: Comparison<T>, s: seq<T>, rest: multiset<Entry<T>>)
    requires Drained(cmp, s, |s|, rest)
    ensures Sorted(cmp, s, 0, |s|)
  {
  }
}
