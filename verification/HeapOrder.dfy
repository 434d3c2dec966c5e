/** Min-heap order on an array whose root is at index 1, with one node taken out and a hole in its place. */
module HeapOrder {
  import opened Order

  datatype Node<K, V> = Node(key: K, value: V)

  type Comparison<!K> = (K, K) -> int

  predicate Leq<K(!new), V>(cmp: Comparison<K>, x: Node<K, V>, y: Node<K, V>) { cmp(x.key, y.key) <= 0 }

  /** The parent of node `i` is not larger. */
  predicate Edge<K(!new), V>(cmp: Comparison<K>, a: seq<Node<K, V>>, i: nat)
    requires 2 <= i < |a|
  {
    Leq(cmp, a[i / 2], a[i])
  }

  ghost predicate Ordered<K(!new), V>(cmp: Comparison<K>, a: seq<Node<K, V>>, n: nat)
    requires n < |a|
  {
    forall i {:trigger Edge(cmp, a, i)} | 2 <= i <= n :: Edge(cmp, a, i)
  }

  /** The order that does not involve node `h`, and the order between the parent and the children of `h`. */
  ghost predicate Around<K(!new), V>(cmp: Comparison<K>, a: seq<Node<K, V>>, n: nat, h: nat)
    requires n < |a| && 1 <= h < |a|
  {
    && (forall i {:trigger Edge(cmp, a, i)} | 2 <= i <= n && i != h && i / 2 != h :: Edge(cmp, a, i))
    && (2 <= h && 2 * h <= n ==> Leq(cmp, a[h / 2], a[2 * h]))
    && (2 <= h && 2 * h + 1 <= n ==> Leq(cmp, a[h / 2], a[2 * h + 1]))
  }

  /** `x` may stand at `h` as far as the parent is concerned. */
  predicate FitsAbove<K(!new), V>(cmp: Comparison<K>, a: seq<Node<K, V>>, h: nat, x: Node<K, V>)
    requires 1 <= h < |a|
  {
    h == 1 || Leq(cmp, a[h / 2], x)
  }

  /** `x` may stand at `h` as far as the children are concerned. */
  predicate FitsBelow<K(!new), V>(cmp: Comparison<K>, a: seq<Node<K, V>>, n: nat, h: nat, x: Node<K, V>)
    requires n < |a| && 1 <= h
  {
    && (2 * h <= n ==> Leq(cmp, x, a[2 * h]))
    && (2 * h + 1 <= n ==> Leq(cmp, x, a[2 * h + 1]))
  }

  lemma Child(i: nat, h: nat)
    requires i / 2 == h
    ensures i == 2 * h || i == 2 * h + 1
  {
  }

  lemma Halves(h: nat)
    ensures (2 * h) / 2 == h && (2 * h + 1) / 2 == h
    ensures h >= 1 ==> h / 2 < h
  {
  }

  lemma LeqTrans<K(!new), V>(cmp: Comparison<K>, x: Node<K, V>, y: Node<K, V>, z: Node<K, V>)
    requires Lawful(cmp) && Leq(cmp, x, y) && Leq(cmp, y, z)
    ensures Leq(cmp, x, z)
  {
  }

  // ------------------------------------------------------------------------- opening and closing a hole

  /** Taking any node out of a heap leaves a hole. */
  lemma Open<K(!new), V>(cmp: Comparison<K>, a: seq<Node<K, V>>, n: nat, m: nat, h: nat)
    requires Lawful(cmp) && m <= n < |a| && 1 <= h < |a| && Ordered(cmp, a, n)
    ensures Around(cmp, a, m, h)
  {
    hide Lawful, Leq, Edge;
    if 2 <= h && 2 * h <= m {
      OpenChild(cmp, a, n, h, 2 * h);
    }
    if 2 <= h && 2 * h + 1 <= m {
      OpenChild(cmp, a, n, h, 2 * h + 1);
    }
  }

  lemma OpenChild<K(!new), V>(cmp: Comparison<K>, a: seq<Node<K, V>>, n: nat, h: nat, c: nat)
    requires Lawful(cmp) && n < |a| && 2 <= h && c / 2 == h && c <= n && Ordered(cmp, a, n)
    ensures Leq(cmp, a[h / 2], a[c])
  {
    hide Lawful, Leq;
    assert Edge(cmp, a, h) && Edge(cmp, a, c);
    LeqTrans(cmp, a[h / 2], a[h], a[c]);
  }

  /** A node that fits closes the hole. */
  lemma Close<K(!new), V>(cmp: Comparison<K>, a: seq<Node<K, V>>, n: nat, h: nat, x: Node<K, V>)
    requires n < |a| && 1 <= h < |a| && Around(cmp, a, n, h) && FitsAbove(cmp, a, h, x) && FitsBelow(cmp, a, n, h, x)
    ensures Ordered(cmp, a[h := x], n)
  {
    hide Leq;
    var b := a[h := x];
    forall i | 2 <= i <= n ensures Edge(cmp, b, i) {
      if i / 2 == h {
        Child(i, h);
      } else if i != h {
        assert Edge(cmp, a, i);
      }
    }
  }

  /** A new last slot is a hole without children. */
  lemma OpenNew<K(!new), V>(cmp: Comparison<K>, a: seq<Node<K, V>>, n: nat)
    requires n + 1 < |a| && Ordered(cmp, a, n)
    ensures Around(cmp, a, n + 1, n + 1)
  {
    hide Leq, Edge;
  }

  // ------------------------------------------------------------------------- moving the hole

  /** The parent comes down: the hole moves up, and `x`, which is below the old parent, fits above what it left. */
  lemma MoveUp<K(!new), V>(cmp: Comparison<K>, a: seq<Node<K, V>>, n: nat, h: nat, x: Node<K, V>)
    requires Lawful(cmp) && n < |a| && 2 <= h <= n && Around(cmp, a, n, h) && Leq(cmp, x, a[h / 2])
    ensures Around(cmp, a[h := a[h / 2]], n, h / 2)
    ensures FitsBelow(cmp, a[h := a[h / 2]], n, h / 2, x)
  {
    hide Lawful, Leq;
    var p := h / 2;
    var b := a[h := a[p]];
    forall i | 2 <= i <= n && i != p && i / 2 != p ensures Edge(cmp, b, i) {
      if i / 2 == h {
        Child(i, h);
      } else {
        assert Edge(cmp, a, i);
      }
    }
    if 2 * p <= n {
      MoveUpChild(cmp, a, n, h, x, 2 * p);
    }
    if 2 * p + 1 <= n {
      MoveUpChild(cmp, a, n, h, x, 2 * p + 1);
    }
  }

  lemma MoveUpChild<K(!new), V>(cmp: Comparison<K>, a: seq<Node<K, V>>, n: nat, h: nat, x: Node<K, V>, c: nat)
    requires Lawful(cmp) && n < |a| && 2 <= h <= n && Around(cmp, a, n, h) && Leq(cmp, x, a[h / 2])
    requires c / 2 == h / 2 && c <= n && 2 <= c
    ensures var p := h / 2; var b := a[h := a[p]];
      Leq(cmp, x, b[c]) && (p >= 2 ==> Leq(cmp, b[p / 2], b[c]))
  {
    hide Lawful, Leq;
    var p := h / 2;
    if p >= 2 {
      assert Edge(cmp, a, p);
    }
    if c != h {
      assert Edge(cmp, a, c);
      LeqTrans(cmp, x, a[p], a[c]);
      if p >= 2 {
        LeqTrans(cmp, a[p / 2], a[p], a[c]);
      }
    }
  }

  /** `m` is the smaller child of `h`. */
  predicate Smaller<K(!new), V>(cmp: Comparison<K>, a: seq<Node<K, V>>, n: nat, h: nat, m: nat)
    requires n < |a|
  {
    && 2 <= m <= n && m / 2 == h
    && (2 * h <= n ==> Leq(cmp, a[m], a[2 * h]))
    && (2 * h + 1 <= n ==> Leq(cmp, a[m], a[2 * h + 1]))
  }

  /** The smaller child goes up: the hole moves down, and `x`, which is not below that child, fits under it. */
  lemma MoveDown<K(!new), V>(cmp: Comparison<K>, a: seq<Node<K, V>>, n: nat, h: nat, m: nat, x: Node<K, V>)
    requires Lawful(cmp) && n < |a| && 1 <= h < |a| && Around(cmp, a, n, h) && Smaller(cmp, a, n, h, m)
    requires Leq(cmp, a[m], x)
    ensures Around(cmp, a[h := a[m]], n, m)
    ensures FitsAbove(cmp, a[h := a[m]], m, x)
  {
    hide Lawful, Leq;
    var b := a[h := a[m]];
    Child(m, h);
    Halves(m);
    forall i | 2 <= i <= n && i != m && i / 2 != m ensures Edge(cmp, b, i) {
      if i / 2 == h {
        Child(i, h);
      } else if i != h {
        assert Edge(cmp, a, i);
      }
    }
    if 2 * m <= n {
      assert Edge(cmp, a, 2 * m);
    }
    if 2 * m + 1 <= n {
      assert Edge(cmp, a, 2 * m + 1);
    }
  }

  // ------------------------------------------------------------------------- the root

  /** The root is a minimum. */
  lemma {:induction false} RootLeast<K(!new), V>(cmp: Comparison<K>, a: seq<Node<K, V>>, n: nat, i: nat)
    requires Lawful(cmp) && n < |a| && 1 <= i <= n && Ordered(cmp, a, n)
    ensures Leq(cmp, a[1], a[i])
    decreases i
  {
    if i == 1 {
      Flip(cmp, a[1].key, a[1].key);
    } else {
      RootLeast(cmp, a, n, i / 2);
      assert Edge(cmp, a, i);
      LeqTrans(cmp, a[1], a[i / 2], a[i]);
    }
  }
}
