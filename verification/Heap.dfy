/** The binary min-heap of `muggle/c/dsaa/heap.c`. */
module Heap {
  import opened Collections
  import opened Order
  import opened HeapOrder

  /** More nodes than this do not fit in a 64-bit address space. */
  const MAX_NODES: nat := 0x1000_0000_0000_0000

  /** `(uint64_t)(1<<31)`: with a 32-bit `int` the shift gives the most negative one, which the conversion sign-extends. */
  const CAP_LIMIT: nat := 0xffff_ffff_8000_0000

  /** `MUGGLE_DS_CAP_IS_VALID`. */
  predicate CapIsValid(capacity: nat) { capacity < CAP_LIMIT }

  /** The capacity `muggle_heap_init` takes. */
  function Chosen(capacity: nat): nat { if capacity == 0 then 8 else capacity }

  /** The entries of a heap of `n` nodes. */
  ghost function Bag<K, V>(a: seq<Node<K, V>>, n: nat): multiset<Node<K, V>>
    requires n < |a|
  {
    multiset(a[1..n + 1])
  }

  lemma PutNode<K, V>(a: seq<Node<K, V>>, n: nat, h: nat, x: Node<K, V>)
    requires 1 <= h <= n < |a|
    ensures a[h] in Bag(a, n) && Bag(a[h := x], n) == Bag(a, n) - multiset{a[h]} + multiset{x}
  {
    var s := a[1..n + 1];
    assert a[h := x][1..n + 1] == s[h - 1 := x];
    BagPut(s, h - 1, x);
  }

  lemma MoveNode<K, V>(a: seq<Node<K, V>>, n: nat, h: nat, q: nat, x: Node<K, V>)
    requires 1 <= h <= n < |a| && 1 <= q <= n && h != q
    ensures Bag(a[h := a[q]][q := x], n) == Bag(a[h := x], n)
  {
    var s := a[1..n + 1];
    assert a[h := x][1..n + 1] == s[h - 1 := x];
    assert a[h := a[q]][q := x][1..n + 1] == s[h - 1 := s[q - 1]][q - 1 := x];
    BagMove(s, h - 1, q - 1, x);
  }

  lemma BagGrow<K, V>(a: seq<Node<K, V>>, n: nat, x: Node<K, V>)
    requires n + 1 < |a|
    ensures Bag(a[n + 1 := x], n + 1) == Bag(a, n) + multiset{x}
  {
    assert a[n + 1 := x][1..n + 2] == a[1..n + 1] + [x];
  }

  lemma BagShrink<K, V>(a: seq<Node<K, V>>, n: nat)
    requires 1 <= n < |a|
    ensures Bag(a, n) == Bag(a, n - 1) + multiset{a[n]}
  {
    assert a[1..n + 1] == a[1..n] + [a[n]];
  }

  lemma BagSame<K, V>(a: seq<Node<K, V>>, b: seq<Node<K, V>>, n: nat)
    requires n < |a| && n < |b| && a[1..n + 1] == b[1..n + 1]
    ensures Bag(a, n) == Bag(b, n)
  {
  }

  /** Taking node `h` out and putting the last node in its place. */
  lemma BagTake<K, V>(a: seq<Node<K, V>>, n: nat, h: nat)
    requires 1 <= h < n < |a|
    ensures Bag(a[h := a[n]], n - 1) == Bag(a, n) - multiset{a[h]}
  {
    hide Bag;
    BagShrink(a, n);
    PutNode(a, n - 1, h, a[n]);
    Replace(Bag(a, n - 1), a[h], a[n]);
  }

  lemma Replace<T>(m: multiset<T>, u: T, v: T)
    requires u in m
    ensures m - multiset{u} + multiset{v} == m + multiset{v} - multiset{u}
  {
  }

  class Heap<K(!new, ==), V(==)> {
    const cmp: Comparison<K>
    var capacity: nat
    var size: nat
    var nodes: seq<Node<K, V>>

    ghost predicate Valid()
      reads this
    {
      && Lawful(cmp)
      && size <= capacity && 0 < capacity < MAX_NODES && |nodes| == capacity + 1
      && Ordered(cmp, nodes, size)
    }

    ghost function Entries(): multiset<Node<K, V>>
      requires Valid()
      reads this
    {
      Bag(nodes, size)
    }

    constructor (cmp: Comparison<K>, capacity: nat, blank: Node<K, V>)
      requires Lawful(cmp) && 0 < capacity < MAX_NODES
      ensures Valid() && size == 0 && Entries() == multiset{} && this.cmp == cmp && this.capacity == capacity
    {
      this.cmp := cmp;
      this.capacity := capacity;
      size := 0;
      nodes := seq(capacity + 1, i => blank);
    }

    /** `muggle_heap_init`, null for a refusal. `granted` says whether the allocation succeeds and `blank` stands for
        whatever newly allocated memory holds. */
    static method Init(cmp: Comparison<K>, capacity: nat, granted: bool, blank: Node<K, V>) returns (heap: Heap?<K, V>)
      requires Lawful(cmp) && (granted ==> Chosen(capacity) < MAX_NODES)
      ensures heap == null <==> !(CapIsValid(Chosen(capacity)) && granted)
      ensures heap != null ==>
        && fresh(heap) && heap.Valid() && heap.cmp == cmp && heap.capacity == Chosen(capacity)
        && heap.size == 0 && heap.Entries() == multiset{}
    {
      var chosen := if capacity == 0 then 8 else capacity;
      if !CapIsValid(chosen) || !granted {
        return null;
      }
      heap := new Heap(cmp, chosen, blank);
    }

    /** `muggle_heap_ensure_capacity`; `granted` says whether the allocation succeeds. */
    method EnsureCapacity(wanted: nat, granted: bool, blank: Node<K, V>) returns (ok: bool)
      requires Valid() && (granted ==> wanted < MAX_NODES)
      modifies this
      ensures Valid() && Entries() == old(Entries()) && size == old(size)
      ensures ok <==> old(capacity) >= wanted || (CapIsValid(wanted) && granted)
      ensures capacity == if ok && old(capacity) < wanted then wanted else old(capacity)
    {
      hide Lawful, Edge;
      if capacity >= wanted {
        return true;
      }
      if !CapIsValid(wanted) || !granted {
        return false;
      }
      var moved := seq(wanted + 1, i => blank);
      for i := 0 to size
        invariant |moved| == wanted + 1 && forall j | 1 <= j <= i :: moved[j] == nodes[j]
        modifies {}
      {
        moved := moved[i + 1 := nodes[i + 1]];
      }
      BagSame(nodes, moved, size);
      OrderedSame(cmp, nodes, moved, size);
      nodes := moved;
      capacity := wanted;
      return true;
    }

    /** `muggle_heap_insert`. */
    method Insert(key: K, value: V, granted: bool, blank: Node<K, V>) returns (ok: bool)
      requires Valid() && (granted ==> 2 * capacity < MAX_NODES)
      modifies this
      ensures Valid()
      ensures ok <==> old(size) < old(capacity) || granted
      ensures capacity == old(capacity) || (old(size) == old(capacity) && capacity == 2 * old(capacity))
      ensures ok ==> size == old(size) + 1 && Entries() == old(Entries()) + multiset{Node(key, value)}
      ensures !ok ==> size == old(size) && Entries() == old(Entries())
    {
      hide Lawful, Edge, Leq, Bag, Around, Ordered;
      if capacity == size {
        var grown := EnsureCapacity(capacity * 2, granted, blank);
        if !grown {
          return false;
        }
      }
      ghost var x := Node(key, value);
      OpenNew(cmp, nodes, size);
      BagGrow(nodes, size, x);
      size := size + 1;
      var idx := size;
      while true
        invariant 1 <= idx <= size <= capacity && |nodes| == capacity + 1
        invariant Around(cmp, nodes, size, idx) && FitsBelow(cmp, nodes, size, idx, x)
        invariant Bag(nodes[idx := x], size) == old(Entries()) + multiset{x}
        modifies `nodes
        decreases idx
      {
        var parent := idx / 2;
        if parent == 0 {
          break;
        }
        if cmp(nodes[parent].key, key) <= 0 {
          assert FitsAbove(cmp, nodes, idx, x) by { LeqIs(cmp, nodes[parent], x); }
          break;
        }
        LeqFlip(cmp, nodes[parent], x);
        MoveUp(cmp, nodes, size, idx, x);
        MoveNode(nodes, size, idx, parent, x);
        nodes := nodes[idx := nodes[parent]];
        idx := idx / 2;
      }
      Close(cmp, nodes, size, idx, x);
      nodes := nodes[idx := Node(key, value)];
      return true;
    }

    /** The smaller of the children of `idx`. */
    method SmallerChild(idx: nat) returns (child: nat)
      requires Lawful(cmp) && size < |nodes| && 1 <= idx && 2 * idx <= size
      ensures Smaller(cmp, nodes, size, idx, child)
    {
      hide Lawful;
      child := idx * 2;
      if child != size && cmp(nodes[child + 1].key, nodes[child].key) < 0 {
        child := child + 1;
      }
      Halves(idx);
      if 2 * idx + 1 <= size {
        LeqFlip(cmp, nodes[2 * idx], nodes[2 * idx + 1]);
        LeqFlip(cmp, nodes[2 * idx + 1], nodes[2 * idx]);
      }
      LeqFlip(cmp, nodes[child], nodes[child]);
      Flip(cmp, nodes[child].key, nodes[child].key);
    }

    /** `muggle_heap_extract`. */
    method Extract() returns (ok: bool, node: Node<K, V>)
      requires Valid()
      modifies this
      ensures Valid() && capacity == old(capacity)
      ensures ok <==> old(size) > 0
      ensures ok ==> size == old(size) - 1 && node in old(Entries()) && Entries() == old(Entries()) - multiset{node}
      ensures ok ==> forall other | other in old(Entries()) :: cmp(node.key, other.key) <= 0
      ensures !ok ==> size == 0 && Entries() == old(Entries())
    {
      hide Lawful, Edge, Leq, Bag, Around, Ordered, Smaller;
      if size == 0 {
        return false, nodes[1];
      }
      node := nodes[1];
      RootLeastOf(cmp, nodes, size);
      ghost var x := nodes[size];
      ghost var goal := Entries() - multiset{node};
      var last := size;
      size := size - 1;
      if size == 0 {
        BagShrink(nodes, 1);
        OpenLast(cmp, nodes);
        return true, node;
      }
      Open(cmp, nodes, size + 1, size, 1);
      BagTake(nodes, size + 1, 1);
      var i := 1;
      while i * 2 <= size
        invariant 1 <= i <= size < last <= capacity && |nodes| == capacity + 1 && nodes[last] == x
        invariant Around(cmp, nodes, size, i) && FitsAbove(cmp, nodes, i, x)
        invariant Bag(nodes[i := x], size) == goal
        modifies `nodes
        decreases size - i
      {
        var child := SmallerChild(i);
        SmallerRange(cmp, nodes, size, i, child);
        LeqFlip(cmp, nodes[last], nodes[child]);
        if cmp(nodes[last].key, nodes[child].key) >= 0 {
          MoveDown(cmp, nodes, size, i, child, x);
          MoveNode(nodes, size, i, child, x);
          nodes := nodes[i := nodes[child]];
        } else {
          FitsUnder(cmp, nodes, size, i, child, x);
          break;
        }
        i := child;
      }
      Close(cmp, nodes, size, i, x);
      nodes := nodes[i := nodes[last]];
      return true, node;
    }

    /** The loop of `muggle_heap_remove`: the hole travels up, or down, but never turns. */
    method Settle(at: nat, last: nat, ghost goal: multiset<Node<K, V>>) returns (idx: nat)
      requires Lawful(cmp) && size + 1 == last <= capacity && |nodes| == capacity + 1 && 1 <= at <= last
      requires Seated(cmp, nodes, size, at, Still, nodes[last], goal)
      modifies `nodes
      ensures |nodes| == capacity + 1 && 1 <= idx <= last
      ensures Ordered(cmp, nodes[idx := nodes[last]], size) && Bag(nodes[idx := nodes[last]], size) == goal
    {
      hide Lawful, Seated, Smaller, Ordered, Bag, FitsBelow;
      idx := at;
      ghost var way := Still;
      while true
        invariant |nodes| == capacity + 1 && 1 <= idx <= last
        invariant Seated(cmp, nodes, size, idx, way, nodes[last], goal)
        modifies `nodes
        decreases if way == Still then last + 1 else if way == Up then idx else last - idx
      {
        var parent := idx / 2;
        if parent != 0 {
          if cmp(nodes[last].key, nodes[parent].key) < 0 {
            SeatUp(cmp, nodes, size, idx, way, goal);
            way := if idx == last then Down else Up;
            nodes := nodes[idx := nodes[parent]];
            idx := parent;
            continue;
          }
        }
        var child := idx * 2;
        if child <= size {
          child := SmallerChild(idx);
          SmallerRange(cmp, nodes, size, idx, child);
          if cmp(nodes[last].key, nodes[child].key) >= 0 {
            SeatDown(cmp, nodes, size, idx, child, way, goal);
            way := Down;
            nodes := nodes[idx := nodes[child]];
            idx := child;
            continue;
          }
          SeatChild(cmp, nodes, size, idx, child);
        }
        break;
      }
      SeatEnd(cmp, nodes, size, idx, way, goal);
    }

    /** `muggle_heap_remove` of the node at position `at`; `nil` is the node after its key and value were released. */
    method Remove(at: int, nil: Node<K, V>) returns (ok: bool)
      requires Valid()
      modifies this
      ensures Valid() && capacity == old(capacity)
      ensures ok <==> 1 <= at <= old(size)
      ensures ok ==> size == old(size) - 1 && Entries() == old(Entries()) - multiset{old(nodes)[at]}
      ensures !ok ==> size == old(size) && nodes == old(nodes)
    {
      hide Lawful, Ordered, Bag, Seated;
      if size == 0 {
        return false;
      }
      if at <= 0 || at > size {
        return false;
      }
      ghost var goal := Entries() - multiset{nodes[at]};
      SeatStart(cmp, nodes, size, at, nil);
      nodes := nodes[at := nil];
      var last := size;
      size := size - 1;
      var idx := Settle(at, last, goal);
      nodes := nodes[idx := nodes[last]];
      return true;
    }
  }

  // ------------------------------------------------------------------------- the hole of a removal

  datatype Way = Still | Up | Down

  /** `x` is below both children of `h`. */
  predicate Under<K(!new), V>(cmp: Comparison<K>, a: seq<Node<K, V>>, n: nat, h: nat, x: Node<K, V>)
    requires n < |a| && 1 <= h
  {
    && (2 * h <= n ==> cmp(x.key, a[2 * h].key) < 0)
    && (2 * h + 1 <= n ==> cmp(x.key, a[2 * h + 1].key) < 0)
  }

  /** The state of a removal: a hole at `h`, the node `x` of the former last slot n + 1 to be put there. */
  ghost predicate Seated<K(!new), V>(cmp: Comparison<K>, a: seq<Node<K, V>>, n: nat, h: nat, way: Way,
                                     x: Node<K, V>, goal: multiset<Node<K, V>>)
    requires n + 1 < |a| && 1 <= h <= n + 1
  {
    if h == n + 1 then way == Still && Ordered(cmp, a, n) && Bag(a, n) == goal
    else
      && Around(cmp, a, n, h) && Bag(a[h := x], n) == goal
      && (way == Up ==> Under(cmp, a, n, h, x))
      && (way == Down ==> FitsAbove(cmp, a, h, x))
  }

  lemma OrderedLess<K(!new), V>(cmp: Comparison<K>, a: seq<Node<K, V>>, n: nat, m: nat)
    requires m <= n < |a| && Ordered(cmp, a, n)
    ensures Ordered(cmp, a, m)
  {
  }

  lemma SeatStart<K(!new), V>(cmp: Comparison<K>, a: seq<Node<K, V>>, n: nat, at: nat, nil: Node<K, V>)
    requires Lawful(cmp) && 1 <= at <= n < |a| && Ordered(cmp, a, n)
    ensures var b := a[at := nil]; Seated(cmp, b, n - 1, at, Still, b[n], Bag(a, n) - multiset{a[at]})
  {
    hide Lawful, Ordered, Bag, Around;
    var b := a[at := nil];
    BagShrink(a, n);
    OrderedLess(cmp, a, n, n - 1);
    if at == n {
      OrderedSame(cmp, a, b, n - 1);
      BagSame(a, b, n - 1);
      assert Bag(a, n) - multiset{a[at]} == Bag(b, n - 1);
    } else {
      Open(cmp, a, n, n - 1, at);
      AroundSame(cmp, a, b, n - 1, at);
      BagTake(a, n, at);
      assert b[at := b[n]] == a[at := a[n]];
    }
  }

  lemma AroundSame<K(!new), V>(cmp: Comparison<K>, a: seq<Node<K, V>>, b: seq<Node<K, V>>, n: nat, h: nat)
    requires n < |a| == |b| && 1 <= h < |a| && Around(cmp, a, n, h)
    requires forall j | 0 <= j < |a| && j != h :: b[j] == a[j]
    ensures Around(cmp, b, n, h)
  {
    hide Leq;
    forall i | 2 <= i <= n && i != h && i / 2 != h ensures Edge(cmp, b, i) {
      assert Edge(cmp, a, i);
    }
  }

  /** Going up: below the parent, so strictly below the nodes under it. */
  lemma SeatUp<K(!new), V>(cmp: Comparison<K>, a: seq<Node<K, V>>, n: nat, h: nat, way: Way,
                           goal: multiset<Node<K, V>>)
    requires Lawful(cmp) && n + 1 < |a| && 2 <= h <= n + 1 && Seated(cmp, a, n, h, way, a[n + 1], goal)
    requires cmp(a[n + 1].key, a[h / 2].key) < 0
    ensures way != Down
    ensures var b := a[h := a[h / 2]];
      Seated(cmp, b, n, h / 2, if h == n + 1 then Down else Up, b[n + 1], goal)
  {
    hide Lawful, Edge, Around, Ordered, Bag;
    var p, x := h / 2, a[n + 1];
    var b := a[h := a[p]];
    LeqFlip(cmp, x, a[p]);
    Flip(cmp, x.key, a[p].key);
    if h == n + 1 {
      OrderedSame(cmp, a, b, n);
      BagSame(a, b, n);
      Open(cmp, b, n, n, p);
      assert b[p := b[n + 1]] == b;
      if p >= 2 {
        OrderedAt(cmp, b, n, p);
      }
    } else {
      MoveUp(cmp, a, n, h, x);
      MoveNode(a, n, h, p, x);
      UnderUp(cmp, a, n, h, x);
    }
  }

  lemma OrderedAt<K(!new), V>(cmp: Comparison<K>, a: seq<Node<K, V>>, n: nat, i: nat)
    requires n < |a| && 2 <= i <= n && Ordered(cmp, a, n)
    ensures Leq(cmp, a[i / 2], a[i])
  {
    assert Edge(cmp, a, i);
  }

  lemma UnderUp<K(!new), V>(cmp: Comparison<K>, a: seq<Node<K, V>>, n: nat, h: nat, x: Node<K, V>)
    requires Lawful(cmp) && n < |a| && 2 <= h <= n && Around(cmp, a, n, h) && cmp(x.key, a[h / 2].key) < 0
    ensures Under(cmp, a[h := a[h / 2]], n, h / 2, x)
  {
    hide Lawful;
    var p := h / 2;
    forall c | 2 <= c <= n && c / 2 == p && c != h ensures cmp(x.key, a[c].key) < 0 {
      assert Edge(cmp, a, c);
      LessTrans(cmp, x.key, a[p].key, a[c].key);
    }
  }

  /** Going down: a node that went up never gets here. */
  lemma SeatDown<K(!new), V>(cmp: Comparison<K>, a: seq<Node<K, V>>, n: nat, h: nat, m: nat, way: Way,
                             goal: multiset<Node<K, V>>)
    requires Lawful(cmp) && n + 1 < |a| && 1 <= h <= n + 1 && Seated(cmp, a, n, h, way, a[n + 1], goal)
    requires Smaller(cmp, a, n, h, m) && cmp(a[n + 1].key, a[m].key) >= 0
    ensures h < m <= n && way != Up
    ensures var b := a[h := a[m]]; Seated(cmp, b, n, m, Down, b[n + 1], goal)
  {
    hide Lawful, Edge, Around, Ordered, Bag, Leq;
    var x := a[n + 1];
    SmallerRange(cmp, a, n, h, m);
    Child(m, h);
    LeqFlip(cmp, x, a[m]);
    MoveDown(cmp, a, n, h, m, x);
    MoveNode(a, n, h, m, x);
  }

  lemma SeatChild<K(!new), V>(cmp: Comparison<K>, a: seq<Node<K, V>>, n: nat, h: nat, m: nat)
    requires Lawful(cmp) && n + 1 < |a| && 1 <= h && Smaller(cmp, a, n, h, m) && cmp(a[n + 1].key, a[m].key) < 0
    ensures FitsBelow(cmp, a, n, h, a[n + 1])
  {
    LeqFlip(cmp, a[n + 1], a[m]);
    FitsUnder(cmp, a, n, h, m, a[n + 1]);
  }

  lemma SeatEnd<K(!new), V>(cmp: Comparison<K>, a: seq<Node<K, V>>, n: nat, h: nat, way: Way,
                            goal: multiset<Node<K, V>>)
    requires Lawful(cmp) && n + 1 < |a| && 1 <= h <= n + 1 && Seated(cmp, a, n, h, way, a[n + 1], goal)
    requires h >= 2 ==> cmp(a[n + 1].key, a[h / 2].key) >= 0
    requires 2 * h <= n ==> FitsBelow(cmp, a, n, h, a[n + 1])
    ensures Ordered(cmp, a[h := a[n + 1]], n) && Bag(a[h := a[n + 1]], n) == goal
  {
    hide Lawful, Edge, Around, Ordered, Bag;
    if h == n + 1 {
      assert a[h := a[n + 1]] == a;
    } else {
      if h >= 2 {
        LeqFlip(cmp, a[n + 1], a[h / 2]);
      }
      Close(cmp, a, n, h, a[n + 1]);
    }
  }


  lemma SmallerRange<K(!new), V>(cmp: Comparison<K>, a: seq<Node<K, V>>, n: nat, h: nat, m: nat)
    requires n < |a| && h >= 1 && Smaller(cmp, a, n, h, m)
    ensures h < m <= n
  {
  }

  /** Not above the smaller child is not above either. */
  lemma FitsUnder<K(!new), V>(cmp: Comparison<K>, a: seq<Node<K, V>>, n: nat, h: nat, m: nat, x: Node<K, V>)
    requires Lawful(cmp) && n < |a| && 1 <= h && Smaller(cmp, a, n, h, m) && Leq(cmp, x, a[m])
    ensures FitsBelow(cmp, a, n, h, x)
  {
    hide Lawful, Leq;
    if 2 * h <= n {
      LeqTrans(cmp, x, a[m], a[2 * h]);
    }
    if 2 * h + 1 <= n {
      LeqTrans(cmp, x, a[m], a[2 * h + 1]);
    }
  }

  lemma RootLeastOf<K(!new), V>(cmp: Comparison<K>, a: seq<Node<K, V>>, n: nat)
    requires Lawful(cmp) && 1 <= n < |a| && Ordered(cmp, a, n)
    ensures a[1] in Bag(a, n) && forall other | other in Bag(a, n) :: cmp(a[1].key, other.key) <= 0
  {
    assert a[1..n + 1][0] == a[1];
    forall other | other in Bag(a, n) ensures cmp(a[1].key, other.key) <= 0 {
      var j :| 0 <= j < n && a[1..n + 1][j] == other;
      RootLeast(cmp, a, n, j + 1);
    }
  }

  lemma OpenLast<K(!new), V>(cmp: Comparison<K>, a: seq<Node<K, V>>)
    requires |a| > 1
    ensures Bag(a, 0) == multiset{} && Bag(a, 1) == multiset{a[1]} && Ordered(cmp, a, 0)
  {
    assert a[1..2] == [a[1]];
  }

  lemma OrderedSame<K(!new), V>(cmp: Comparison<K>, a: seq<Node<K, V>>, b: seq<Node<K, V>>, n: nat)
    requires n < |a| && n < |b| && Ordered(cmp, a, n) && forall j | 1 <= j <= n :: b[j] == a[j]
    ensures Ordered(cmp, b, n)
  {
    hide Leq;
    forall i | 2 <= i <= n ensures Edge(cmp, b, i) {
      assert Edge(cmp, a, i);
    }
  }

  lemma LeqIs<K(!new), V>(cmp: Comparison<K>, x: Node<K, V>, y: Node<K, V>)
    ensures Leq(cmp, x, y) == (cmp(x.key, y.key) <= 0)
  {
  }

  /** What is not below is above. */
  lemma LeqFlip<K(!new), V>(cmp: Comparison<K>, x: Node<K, V>, y: Node<K, V>)
    requires Lawful(cmp)
    ensures cmp(x.key, y.key) >= 0 ==> Leq(cmp, y, x)
    ensures cmp(x.key, y.key) <= 0 <==> Leq(cmp, x, y)
  {
    Flip(cmp, x.key, y.key);
  }
}
