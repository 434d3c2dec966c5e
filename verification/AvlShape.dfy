/** The shape of an AVL tree: which node hangs where. Links, balances and keys are kept in memory. */
module AvlShape {

  /** Addresses; the C code stores keys and values as `void*` too. */
  type Ptr = int
  const NULL: Ptr := 0

  datatype Tree = Leaf | Node(l: Tree, n: Ptr, r: Tree)

  /** The path from a hole up to the root: on each step the side of the hole, the node and its other subtree. */
  datatype Ctx = Top | Step(left: bool, n: Ptr, s: Tree, up: Ctx)

  function Max(a: nat, b: nat): nat { if a < b then b else a }

  function Height(t: Tree): nat {
    if t.Leaf? then 0 else 1 + Max(Height(t.l), Height(t.r))
  }

  /** The nodes from left to right. */
  function Nodes(t: Tree): seq<Ptr> {
    if t.Leaf? then [] else Nodes(t.l) + [t.n] + Nodes(t.r)
  }

  function Before(c: Ctx): seq<Ptr> {
    if c.Top? then [] else if c.left then Before(c.up) else Before(c.up) + Nodes(c.s) + [c.n]
  }

  function After(c: Ctx): seq<Ptr> {
    if c.Top? then [] else if c.left then [c.n] + Nodes(c.s) + After(c.up) else After(c.up)
  }

  /** The node with subtree `t` on the given side and `s` on the other. */
  function Join(left: bool, t: Tree, n: Ptr, s: Tree): Tree { if left then Node(t, n, s) else Node(s, n, t) }

  function Plug(c: Ctx, t: Tree): Tree {
    if c.Top? then t else Plug(c.up, Join(c.left, t, c.n, c.s))
  }

  function Elems(t: Tree): set<Ptr> {
    if t.Leaf? then {} else Elems(t.l) + {t.n} + Elems(t.r)
  }

  function CtxElems(c: Ctx): set<Ptr> {
    if c.Top? then {} else {c.n} + Elems(c.s) + CtxElems(c.up)
  }

  /** No node occurs twice. */
  predicate Distinct(t: Tree) {
    t.Leaf? || (t.n !in Elems(t.l) && t.n !in Elems(t.r) && Elems(t.l) !! Elems(t.r) && Distinct(t.l) && Distinct(t.r))
  }

  predicate CtxDistinct(c: Ctx) {
    c.Top? || (c.n !in Elems(c.s) && c.n !in CtxElems(c.up) && Elems(c.s) !! CtxElems(c.up)
               && Distinct(c.s) && CtxDistinct(c.up))
  }

  predicate Apart(c: Ctx, t: Tree) {
    CtxDistinct(c) && Distinct(t) && CtxElems(c) !! Elems(t)
  }

  lemma {:induction false} PlugNodes(c: Ctx, t: Tree)
    ensures Nodes(Plug(c, t)) == Before(c) + Nodes(t) + After(c)
  {
    if c.Step? {
      PlugNodes(c.up, Join(c.left, t, c.n, c.s));
    }
  }

  lemma {:induction false} PlugElems(c: Ctx, t: Tree)
    ensures Elems(Plug(c, t)) == CtxElems(c) + Elems(t)
  {
    if c.Step? {
      PlugElems(c.up, Join(c.left, t, c.n, c.s));
    }
  }

  lemma {:induction false} PlugDistinct(c: Ctx, t: Tree)
    ensures Distinct(Plug(c, t)) <==> Apart(c, t)
  {
    if c.Step? {
      PlugDistinct(c.up, Join(c.left, t, c.n, c.s));
    }
  }

  function TopOf(t: Tree): Ptr { if t.Leaf? then NULL else t.n }

  /** Exchanging a subtree for one with the same nodes keeps the nodes of the whole. */
  lemma PlugSame(c: Ctx, t: Tree, t': Tree)
    requires Nodes(t') == Nodes(t) && Elems(t') == Elems(t)
    ensures Nodes(Plug(c, t')) == Nodes(Plug(c, t)) && Elems(Plug(c, t')) == Elems(Plug(c, t))
  {
    PlugNodes(c, t);
    PlugNodes(c, t');
    PlugElems(c, t);
    PlugElems(c, t');
  }

  /** The two views of the contents agree. */
  lemma {:induction false} NodesElems(t: Tree)
    ensures Elems(t) == set x | x in Nodes(t)
  {
    if t.Node? {
      NodesElems(t.l);
      NodesElems(t.r);
    }
  }

  /** A distinct shape lists every node once. */
  lemma {:induction false} NodesOnce(t: Tree, i: nat, j: nat)
    requires Distinct(t) && i < j < |Nodes(t)|
    ensures Nodes(t)[i] != Nodes(t)[j]
  {
    NodesElems(t.l);
    NodesElems(t.r);
    var m := |Nodes(t.l)|;
    if j < m {
      NodesOnce(t.l, i, j);
    } else if m < i {
      NodesOnce(t.r, i - m - 1, j - m - 1);
    } else {
      assert i < m ==> Nodes(t)[i] == Nodes(t.l)[i] && Nodes(t.l)[i] in Elems(t.l);
      assert m < j ==> Nodes(t)[j] == Nodes(t.r)[j - m - 1] && Nodes(t.r)[j - m - 1] in Elems(t.r);
    }
  }

  /** What keeping the five parts of a single rotation apart means. */
  predicate Parts(a: Tree, x: Ptr, b: Tree, z: Ptr, e: Tree) {
    && x != z && Distinct(a) && Distinct(b) && Distinct(e)
    && Elems(a) !! Elems(b) && Elems(a) !! Elems(e) && Elems(b) !! Elems(e)
    && x !in Elems(a) && x !in Elems(b) && x !in Elems(e)
    && z !in Elems(a) && z !in Elems(b) && z !in Elems(e)
  }

  predicate Three(a: Tree, x: Ptr, b: Tree) {
    x !in Elems(a) && x !in Elems(b) && Elems(a) !! Elems(b) && Distinct(a) && Distinct(b)
  }

  lemma JoinParts(d: bool, a: Tree, x: Ptr, b: Tree)
    ensures Elems(Join(d, a, x, b)) == Elems(a) + Elems(b) + {x}
    ensures Distinct(Join(d, a, x, b)) == Three(a, x, b)
  {
  }

  lemma RotationParts(d: bool, a: Tree, x: Ptr, b: Tree, z: Ptr, e: Tree)
    ensures var t, t' := Join(d, a, x, Join(d, b, z, e)), Join(d, Join(d, a, x, b), z, e);
      && Elems(t') == Elems(t) == Elems(a) + Elems(b) + Elems(e) + {x, z}
      && Distinct(t') == Distinct(t) == Parts(a, x, b, z, e)
  {
    var r, l := Join(d, b, z, e), Join(d, a, x, b);
    JoinParts(d, b, z, e);
    JoinParts(d, a, x, b);
    JoinParts(d, a, x, r);
    JoinParts(d, l, z, e);
    assert Three(a, x, r) == Parts(a, x, b, z, e);
    assert Three(l, z, e) == Parts(a, x, b, z, e);
  }

  /** Rotating `z` above `x` (to the left when `d`) keeps the order of the nodes. */
  lemma RotationNodes(d: bool, a: Tree, x: Ptr, b: Tree, z: Ptr, e: Tree)
    ensures Nodes(Join(d, Join(d, a, x, b), z, e)) == Nodes(Join(d, a, x, Join(d, b, z, e)))
  {
  }

  /** The outcome of a single rotation stays apart from its surroundings and lists the same nodes. */
  lemma SingleRotated(c: Ctx, d: bool, a: Tree, x: Ptr, b: Tree, z: Ptr, e: Tree)
    ensures var t, t' := Join(d, a, x, Join(d, b, z, e)), Join(d, Join(d, a, x, b), z, e);
      Nodes(t') == Nodes(t) && Elems(t') == Elems(t) && Apart(c, t') == Apart(c, t)
  {
    RotationParts(d, a, x, b, z, e);
    RotationNodes(d, a, x, b, z, e);
  }

  /** A double rotation is a rotation at `z` followed by the opposite one at `x`. */
  lemma DoubleRotated(c: Ctx, d: bool, a: Tree, x: Ptr, b1: Tree, y: Ptr, b2: Tree, z: Ptr, e: Tree)
    ensures var t := Join(d, a, x, Join(d, Join(d, b1, y, b2), z, e));
      var t' := Join(d, Join(d, a, x, b1), y, Join(d, b2, z, e));
      Nodes(t') == Nodes(t) && Elems(t') == Elems(t) && Apart(c, t') == Apart(c, t)
  {
    var r := Join(d, b2, z, e);
    var s, s' := Join(d, Join(d, b1, y, b2), z, e), Join(d, b1, y, r);
    assert s == Join(!d, e, z, Join(!d, b2, y, b1)) && s' == Join(!d, Join(!d, e, z, b2), y, b1);
    SingleRotated(Top, !d, e, z, b2, y, b1);
    JoinParts(d, a, x, s);
    JoinParts(d, a, x, s');
    SingleRotated(c, d, a, x, b1, y, r);
  }

  /** Every node of a shape can be brought into focus. */
  lemma {:induction false} Locate(c: Ctx, t: Tree, x: Ptr) returns (c': Ctx, t': Tree)
    requires x in Elems(t)
    ensures t'.Node? && t'.n == x && Plug(c', t') == Plug(c, t)
    decreases t
  {
    if x == t.n {
      c', t' := c, t;
    } else if x in Elems(t.l) {
      c', t' := Locate(Step(true, t.n, t.r, c), t.l, x);
    } else {
      c', t' := Locate(Step(false, t.n, t.l, c), t.r, x);
    }
  }

  function Fib(n: nat): nat { if n < 2 then n else Fib(n - 1) + Fib(n - 2) }

  lemma {:induction false} FibMonotone(m: nat, n: nat)
    requires m <= n
    ensures Fib(m) <= Fib(n)
    decreases n - m
  {
    if m < n {
      FibMonotone(m + 1, n);
    }
  }

  /** Sibling heights differ by at most one everywhere. */
  predicate Leveled(t: Tree) {
    t.Leaf? || (-1 <= Height(t.r) - Height(t.l) <= 1 && Leveled(t.l) && Leveled(t.r))
  }

  /** A balanced tree of height h has at least Fib(h + 2) - 1 nodes. */
  lemma {:induction false} FewestNodes(t: Tree)
    requires Leveled(t)
    ensures |Nodes(t)| >= Fib(Height(t) + 2) - 1
  {
    hide Fib;
    if t.Node? {
      FewestNodes(t.l);
      FewestNodes(t.r);
      FibHeights(Height(t.l), Height(t.r));
    } else {
      FibTwo();
    }
  }

  lemma FibTwo()
    ensures Fib(2) == 1
  {
  }

  lemma FibHeights(a: nat, b: nat)
    requires -1 <= b - a <= 1
    ensures Fib(Max(a, b) + 3) <= Fib(a + 2) + Fib(b + 2)
  {
    var m := Max(a, b);
    assert Fib(m + 3) == Fib(m + 2) + Fib(m + 1);
    FibMonotone(m + 1, if a < b then a + 2 else b + 2);
  }
}
