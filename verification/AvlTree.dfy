/** `muggle/c/dsaa/avl_tree.c`: an AVL tree with parent links and stored balance factors.
    Node memory is addressed by pointer, one map for each group of node fields; a pointer
    outside the maps is not allocated, so every access is shown to hit a live node. */
module AvlTree {
  import opened Collections
  import opened Order
  import opened AvlShape
  import opened AvlMemory
  import opened SortedEntries

  function At(d: map<Ptr, Entry>, p: Ptr): Entry { if p in d then d[p] else Entry(NULL, NULL) }

  function Entries(d: map<Ptr, Entry>, ns: seq<Ptr>): seq<Entry> { seq(|ns|, i requires 0 <= i < |ns| => At(d, ns[i])) }

  function Lo(c: Ctx): nat { |Before(c)| }

  function Hi(c: Ctx, t: Tree): nat { |Before(c)| + |Nodes(t)| }

  /** The place of the top node of `t`, read from left to right. */
  function Mid(c: Ctx, t: Tree): nat
    requires t.Node?
  {
    |Before(c)| + |Nodes(t.l)|
  }

  lemma Ends(t: Tree, c: Ctx)
    ensures Lo(Top) == 0 && Hi(Top, t) == |Nodes(t)| && Plug(Top, t) == t && Hi(c, Leaf) == Lo(c)
  {
  }

  lemma EntriesInsert(d: map<Ptr, Entry>, ns: seq<Ptr>, k: nat, x: Ptr, e: Entry)
    requires k <= |ns| && x !in ns
    ensures Entries(d[x := e], ns[..k] + [x] + ns[k..]) == Entries(d, ns)[..k] + [e] + Entries(d, ns)[k..]
  {
    assert forall i :: 0 <= i < |ns| ==> ns[i] in ns;
  }

  lemma EntriesRemove(d: map<Ptr, Entry>, ns: seq<Ptr>, k: nat)
    requires k < |ns| && ns[k] !in ns[..k] + ns[k + 1..]
    ensures Entries(d - {ns[k]}, ns[..k] + ns[k + 1..]) == Entries(d, ns)[..k] + Entries(d, ns)[k + 1..]
  {
    var ns' := ns[..k] + ns[k + 1..];
    assert forall i :: 0 <= i < |ns'| ==> ns'[i] in ns';
  }

  /** Exchanging neighbours and then dropping the moved one is dropping it in the first place. */
  lemma SwapNeighbours<T>(s: seq<T>, p: nat, q: nat)
    requires p < |s| && q < |s| && (q == p + 1 || p == q + 1)
    ensures Without(s[p := s[q]][q := s[p]], q) == Without(s, p)
  {
  }

  function Swapped(d: map<Ptr, Entry>, x: Ptr, y: Ptr): map<Ptr, Entry> { d[x := At(d, y)][y := At(d, x)] }

  lemma EntriesSwap(d: map<Ptr, Entry>, t: Tree, p: nat, q: nat)
    requires p < |Nodes(t)| && q < |Nodes(t)| && p != q && Distinct(t)
    ensures var es, es' := Entries(d, Nodes(t)), Entries(Swapped(d, Nodes(t)[p], Nodes(t)[q]), Nodes(t));
      es' == es[p := es[q]][q := es[p]]
  {
    var ns := Nodes(t);
    forall i, j | 0 <= i < |ns| && 0 <= j < |ns| && i != j ensures ns[i] != ns[j] {
      if i < j { NodesOnce(t, i, j); } else { NodesOnce(t, j, i); }
    }
  }

  /** A hole and the leaf that may fill it: how the nodes differ. */
  lemma LeafOrHole(c: Ctx, x: Ptr)
    ensures var t, t', k := Plug(c, Leaf), Plug(c, Node(Leaf, x, Leaf)), Lo(c);
      && k <= |Nodes(t)| && Nodes(t') == Nodes(t)[..k] + [x] + Nodes(t)[k..]
      && Elems(t') == Elems(t) + {x} && (Distinct(t') <==> Distinct(t) && x !in Elems(t))
      && (x in Nodes(t) <==> x in Elems(t))
  {
    PlugNodes(c, Leaf);
    PlugNodes(c, Node(Leaf, x, Leaf));
    PlugElems(c, Leaf);
    PlugElems(c, Node(Leaf, x, Leaf));
    PlugDistinct(c, Leaf);
    PlugDistinct(c, Node(Leaf, x, Leaf));
    NodesElems(Plug(c, Leaf));
  }

  /** A new node in the empty hole of `c` adds its entry at the place of the hole. */
  lemma AddedEntry(d: map<Ptr, Entry>, c: Ctx, x: Ptr, e: Entry)
    requires x !in Elems(Plug(c, Leaf))
    ensures Lo(c) <= |Nodes(Plug(c, Leaf))|
    ensures var es, k := Entries(d, Nodes(Plug(c, Leaf))), Lo(c);
      Entries(d[x := e], Nodes(Plug(c, Node(Leaf, x, Leaf)))) == es[..k] + [e] + es[k..]
    ensures Elems(Plug(c, Node(Leaf, x, Leaf))) == Elems(Plug(c, Leaf)) + {x}
  {
    hide Nodes, Elems, Distinct, Lo, Plug, Entries;
    LeafOrHole(c, x);
    EntriesInsert(d, Nodes(Plug(c, Leaf)), Lo(c), x, e);
    EntriesSize(d, Nodes(Plug(c, Leaf)));
  }

  lemma EntriesSize(d: map<Ptr, Entry>, ns: seq<Ptr>)
    ensures |Entries(d, ns)| == |ns|
  {
  }

  /** Taking the leaf out of the hole of `c` drops the entry at its place. */
  lemma DroppedEntry(d: map<Ptr, Entry>, c: Ctx, x: Ptr)
    requires Distinct(Plug(c, Node(Leaf, x, Leaf)))
    ensures Lo(c) < |Nodes(Plug(c, Node(Leaf, x, Leaf)))|
    ensures var es, k := Entries(d, Nodes(Plug(c, Node(Leaf, x, Leaf)))), Lo(c);
      |es| == |Nodes(Plug(c, Node(Leaf, x, Leaf)))| && Entries(d - {x}, Nodes(Plug(c, Leaf))) == es[..k] + es[k + 1..]
    ensures Elems(Plug(c, Leaf)) == Elems(Plug(c, Node(Leaf, x, Leaf))) - {x}
  {
    hide Nodes, Elems, Distinct, Lo, Plug, Entries;
    LeafOrHole(c, x);
    var ns, ns', k := Nodes(Plug(c, Node(Leaf, x, Leaf))), Nodes(Plug(c, Leaf)), Lo(c);
    assert ns[..k] + ns[k + 1..] == ns';
    EntriesRemove(d, ns, k);
    EntriesSize(d, ns);
  }

  /** Going down splits the stretch of nodes below `t` at its top node. */
  lemma Descend(c: Ctx, t: Tree)
    requires t.Node?
    ensures var l, r := Step(true, t.n, t.r, c), Step(false, t.n, t.l, c);
      && Plug(l, t.l) == Plug(c, t) == Plug(r, t.r)
      && Lo(l) == Lo(c) && Hi(l, t.l) == Mid(c, t) == Lo(r) - 1 && Hi(r, t.r) == Hi(c, t)
    ensures Height(t.l) < Height(t) && Height(t.r) < Height(t)
    ensures Lo(c) <= Mid(c, t) < Hi(c, t) <= |Nodes(Plug(c, t))| && Nodes(Plug(c, t))[Mid(c, t)] == t.n
  {
    PlugNodes(c, t);
  }

  class AvlTree {
    var root: Ptr
    var link: Mem
    var balance: Balances
    var data: map<Ptr, Entry>
    const cmp: Cmp
    ghost var shape: Tree

    /** `muggle_avl_tree_init`. */
    constructor (cmp: Cmp)
      requires Lawful(cmp)
      ensures Valid() && Contents() == [] && this.cmp == cmp
    {
      this.cmp, root, link, balance, data, shape := cmp, NULL, map[], map[], map[], Leaf;
    }

    /** Memory is linked as `t` inside `c`; balances are not considered. */
    ghost predicate Focus(c: Ctx, t: Tree)
      reads this
    {
      && Links(link, t, TopOf(t), Up(c)) && CtxLinks(link, c, TopOf(t), root) && Apart(c, t)
      && NULL !in link && link.Keys == balance.Keys
    }

    /** Puts `z` in the place of `x`, which hangs below `parent` or is the root. */
    method ReplaceChild(parent: Ptr, x: Ptr, z: Ptr, ghost left: bool)
      requires Hangs(link, root, parent, left, x) && z in link && z != parent && NULL !in link
      modifies this`root, this`link
      ensures Replaced(old(link), link, old(root), root, parent, left, z)
      ensures link.Keys == old(link.Keys) && link[z] == old(link)[z].(parent := parent)
      ensures link == if parent == NULL then old(link)[z := old(link)[z].(parent := parent)]
                      else old(link)[parent := SetKid(old(link)[parent], left, z)][z := old(link)[z].(parent := parent)]
    {
      if parent != NULL {
        if x == link[parent].left {
          link := link[parent := link[parent].(left := z)];
        } else {
          link := link[parent := link[parent].(right := z)];
        }
      }
      link := link[z := link[z].(parent := parent)];
      if root == x {
        root := z;
      }
    }

    /** What a rotation of `t` inside `c` leaves behind; `dec` says whether the height dropped. */
    ghost predicate Rotated(c: Ctx, t: Tree, t': Tree, link0: Mem, balance0: Balances, dec: bool)
      reads this
    {
      && Focus(c, t') && Bal(balance, t') && Nodes(t') == Nodes(t) && Elems(t') == Elems(t)
      && link.Keys == link0.Keys && Only(balance0, balance, Elems(t))
      && Height(t') == Height(t) - if dec then 1 else 0
    }

    /** The links of `muggle_avl_tree_rotate_left`. */
    method LiftRight(x: Ptr, z: Ptr, ghost c: Ctx, ghost a: Tree, ghost b: Tree, ghost e: Tree)
      requires SingleSite(link, root, c, true, a, x, b, z, e)
      modifies this`root, this`link
      ensures link.Keys == old(link.Keys) && CtxLinks(link, c, z, root)
      ensures Links(link, Node(Node(a, x, b), z, e), z, Up(c))
    {
      hide Links, CtxLinks, Distinct, CtxDistinct;
      TopIn(link, b, link[z].left, z);
      CtxHangs(link, c, x, root);
      ReplaceChild(link[x].parent, x, z, c.Step? && c.left);
      var s := link[z].left;
      link := link[x := link[x].(right := s)];
      if s != NULL {
        link := link[s := link[s].(parent := x)];
      }
      link := link[x := link[x].(parent := z)][z := link[z].(left := x)];
      RelinkSingle(old(link), link, c, true, a, x, b, z, e, old(root), root);
    }

    method RotateLeft(node: Ptr, ghost c: Ctx, ghost t: Tree) returns (dec: bool, ghost t': Tree)
      requires Focus(c, t) && Tilted(balance, t) && node == t.n && t.r.Node?
      requires balance[node] == 2 && t.r.n in balance && balance[t.r.n] >= 0
      modifies this`root, this`link, this`balance
      ensures Rotated(c, t, t', old(link), old(balance), dec)
      ensures dec == (old(balance)[t.r.n] != 0)
    {
      hide CtxLinks, CtxElems, Distinct, CtxDistinct, Nodes, CtxBal;
      var x, z := node, link[node].right;
      ghost var a, b, e := t.l, t.r.l, t.r.r;
      assert t == Join(true, a, x, Join(true, b, t.r.n, e));
      SingleParts(link, root, c, true, a, x, b, t.r.n, e);
      LiftRight(x, z, c, a, b, e);
      t' := Join(true, Join(true, a, x, b), z, e);
      dec := balance[z] != 0;
      if balance[z] == 0 {
        balance := balance[x := 1][z := -1];
      } else {
        balance := balance[x := 0][z := 0];
      }
      SingleBal(old(balance), balance, true, a, x, b, z, e);
      SingleRotated(c, true, a, x, b, z, e);
    }

    /** The links of `muggle_avl_tree_rotate_right`. */
    method LiftLeft(x: Ptr, z: Ptr, ghost c: Ctx, ghost a: Tree, ghost b: Tree, ghost e: Tree)
      requires SingleSite(link, root, c, false, a, x, b, z, e)
      modifies this`root, this`link
      ensures link.Keys == old(link.Keys) && CtxLinks(link, c, z, root)
      ensures Links(link, Node(e, z, Node(b, x, a)), z, Up(c))
    {
      hide Links, CtxLinks, Distinct, CtxDistinct;
      TopIn(link, b, link[z].right, z);
      CtxHangs(link, c, x, root);
      ReplaceChild(link[x].parent, x, z, c.Step? && c.left);
      var s := link[z].right;
      link := link[x := link[x].(left := s)];
      if s != NULL {
        link := link[s := link[s].(parent := x)];
      }
      link := link[x := link[x].(parent := z)][z := link[z].(right := x)];
      RelinkSingle(old(link), link, c, false, a, x, b, z, e, old(root), root);
    }

    method RotateRight(node: Ptr, ghost c: Ctx, ghost t: Tree) returns (dec: bool, ghost t': Tree)
      requires Focus(c, t) && Tilted(balance, t) && node == t.n && t.l.Node?
      requires balance[node] == -2 && t.l.n in balance && balance[t.l.n] <= 0
      modifies this`root, this`link, this`balance
      ensures Rotated(c, t, t', old(link), old(balance), dec)
      ensures dec == (old(balance)[t.l.n] != 0)
    {
      hide CtxLinks, CtxElems, Distinct, CtxDistinct, Nodes, CtxBal;
      var x, z := node, link[node].left;
      ghost var a, b, e := t.r, t.l.r, t.l.l;
      assert t == Join(false, a, x, Join(false, b, t.l.n, e));
      SingleParts(link, root, c, false, a, x, b, t.l.n, e);
      LiftLeft(x, z, c, a, b, e);
      t' := Join(false, Join(false, a, x, b), z, e);
      dec := balance[z] != 0;
      if balance[z] == 0 {
        balance := balance[x := -1][z := 1];
      } else {
        balance := balance[x := 0][z := 0];
      }
      SingleBal(old(balance), balance, false, a, x, b, z, e);
      SingleRotated(c, false, a, x, b, z, e);
    }

    /** The link writes of `muggle_avl_tree_rotate_right_left`. */
    method MoveInnerLeft(x: Ptr, y: Ptr, z: Ptr, ghost left: bool)
      requires x in link && y in link && DistinctCells(link, x, y, z, link[y].left, link[y].right, link[x].parent)
      requires Hangs(link, root, link[x].parent, left, x)
      modifies this`root, this`link
      ensures link.Keys == old(link.Keys) && Replaced(old(link), link, old(root), root, old(link)[x].parent, left, y)
      ensures DoubleMoved(old(link), link, true, x, y, z, old(link)[x].parent)
    {
      var t2, t3 := link[y].left, link[y].right;
      ReplaceChild(link[x].parent, x, y, left);
      link := link[x := link[x].(right := t2)];
      if t2 != NULL {
        link := link[t2 := link[t2].(parent := x)];
      }
      link := link[z := link[z].(left := t3)];
      if t3 != NULL {
        link := link[t3 := link[t3].(parent := z)];
      }
      link := link[y := link[y].(left := x, right := z)];
      link := link[x := link[x].(parent := y)][z := link[z].(parent := y)];
    }

    method LiftInnerLeft(x: Ptr, y: Ptr, z: Ptr, ghost c: Ctx, ghost a: Tree, ghost b1: Tree, ghost b2: Tree, ghost e: Tree)
      requires DoubleSite(link, root, c, true, a, x, b1, y, b2, z, e)
      modifies this`root, this`link
      ensures link.Keys == old(link.Keys) && CtxLinks(link, c, y, root)
      ensures Links(link, Node(Node(a, x, b1), y, Node(b2, z, e)), y, Up(c))
    {
      hide Links, CtxLinks, Distinct, CtxDistinct;
      DoubleCells(link, root, c, true, a, x, b1, y, b2, z, e);
      CtxHangs(link, c, x, root);
      MoveInnerLeft(x, y, z, c.Step? && c.left);
      RelinkDouble(old(link), link, c, true, a, x, b1, y, b2, z, e, old(root), root);
    }

    /** The balances stored by `muggle_avl_tree_rotate_right_left`. */
    method SettleRightLeft(x: Ptr, y: Ptr, z: Ptr)
      requires y in balance && x != y && -1 <= balance[y] <= 1
      modifies this`balance
      ensures balance == old(balance)[x := if old(balance)[y] == Tilt(true, 0, 1) then Tilt(true, 1, 0) else 0]
                           [z := if old(balance)[y] == Tilt(true, 1, 0) then Tilt(true, 0, 1) else 0][y := 0]
    {
      if balance[y] > 0 {
        balance := balance[x := -1][z := 0];
      } else if balance[y] == 0 {
        balance := balance[x := 0][z := 0];
      } else {
        balance := balance[x := 0][z := 1];
      }
      balance := balance[y := 0];
    }

    method RotateRightLeft(node: Ptr, ghost c: Ctx, ghost t: Tree) returns (ghost t': Tree)
      requires Focus(c, t) && Tilted(balance, t) && node == t.n && t.r.Node?
      requires balance[node] == 2 && t.r.n in balance && balance[t.r.n] == -1
      modifies this`root, this`link, this`balance
      ensures Rotated(c, t, t', old(link), old(balance), true)
    {
      hide Links, Bal, CtxLinks, CtxElems, Distinct, CtxDistinct, Nodes, CtxBal;
      var x, z := node, link[node].right;
      InnerNode(balance, true, t.r.l, t.r.n, t.r.r);
      ghost var a, b1, b2, e := t.l, t.r.l.l, t.r.l.r, t.r.r;
      ghost var y' := t.r.l.n;
      assert t.r == Join(true, Join(true, b1, y', b2), t.r.n, e) && t == Join(true, a, x, t.r);
      DoubleSetting(link, balance, root, c, true, a, x, b1, y', b2, t.r.n, e);
      var y := link[z].left;
      LiftInnerLeft(x, y, z, c, a, b1, b2, e);
      t' := Join(true, Join(true, a, x, b1), y, Join(true, b2, z, e));
      SettleRightLeft(x, y, z);
      DoubleBal(old(balance), balance, c, true, a, x, b1, y, b2, z, e);
      DoubleRotated(c, true, a, x, b1, y, b2, z, e);
    }

    /** The link writes of `muggle_avl_tree_rotate_left_right`. */
    method MoveInnerRight(x: Ptr, y: Ptr, z: Ptr, ghost left: bool)
      requires x in link && y in link && DistinctCells(link, x, y, z, link[y].right, link[y].left, link[x].parent)
      requires Hangs(link, root, link[x].parent, left, x)
      modifies this`root, this`link
      ensures link.Keys == old(link.Keys) && Replaced(old(link), link, old(root), root, old(link)[x].parent, left, y)
      ensures DoubleMoved(old(link), link, false, x, y, z, old(link)[x].parent)
    {
      var t2, t3 := link[y].right, link[y].left;
      ReplaceChild(link[x].parent, x, y, left);
      link := link[x := link[x].(left := t2)];
      if t2 != NULL {
        link := link[t2 := link[t2].(parent := x)];
      }
      link := link[z := link[z].(right := t3)];
      if t3 != NULL {
        link := link[t3 := link[t3].(parent := z)];
      }
      link := link[y := link[y].(right := x, left := z)];
      link := link[x := link[x].(parent := y)][z := link[z].(parent := y)];
    }

    method LiftInnerRight(x: Ptr, y: Ptr, z: Ptr, ghost c: Ctx, ghost a: Tree, ghost b1: Tree, ghost b2: Tree, ghost e: Tree)
      requires DoubleSite(link, root, c, false, a, x, b1, y, b2, z, e)
      modifies this`root, this`link
      ensures link.Keys == old(link.Keys) && CtxLinks(link, c, y, root)
      ensures Links(link, Node(Node(e, z, b2), y, Node(b1, x, a)), y, Up(c))
    {
      hide Links, CtxLinks, Distinct, CtxDistinct;
      DoubleCells(link, root, c, false, a, x, b1, y, b2, z, e);
      CtxHangs(link, c, x, root);
      MoveInnerRight(x, y, z, c.Step? && c.left);
      RelinkDouble(old(link), link, c, false, a, x, b1, y, b2, z, e, old(root), root);
    }

    /** The balances stored by `muggle_avl_tree_rotate_left_right`. */
    method SettleLeftRight(x: Ptr, y: Ptr, z: Ptr)
      requires y in balance && x != y && -1 <= balance[y] <= 1
      modifies this`balance
      ensures balance == old(balance)[x := if old(balance)[y] == Tilt(false, 0, 1) then Tilt(false, 1, 0) else 0]
                           [z := if old(balance)[y] == Tilt(false, 1, 0) then Tilt(false, 0, 1) else 0][y := 0]
    {
      if balance[y] > 0 {
        balance := balance[x := 0][z := -1];
      } else if balance[y] == 0 {
        balance := balance[x := 0][z := 0];
      } else {
        balance := balance[x := 1][z := 0];
      }
      balance := balance[y := 0];
    }

    method RotateLeftRight(node: Ptr, ghost c: Ctx, ghost t: Tree) returns (ghost t': Tree)
      requires Focus(c, t) && Tilted(balance, t) && node == t.n && t.l.Node?
      requires balance[node] == -2 && t.l.n in balance && balance[t.l.n] == 1
      modifies this`root, this`link, this`balance
      ensures Rotated(c, t, t', old(link), old(balance), true)
    {
      hide Links, Bal, CtxLinks, CtxElems, Distinct, CtxDistinct, Nodes, CtxBal;
      var x, z := node, link[node].left;
      InnerNode(balance, false, t.l.r, t.l.n, t.l.l);
      ghost var a, b1, b2, e := t.r, t.l.r.r, t.l.r.l, t.l.l;
      ghost var y' := t.l.r.n;
      assert t.l == Join(false, Join(false, b1, y', b2), t.l.n, e) && t == Join(false, a, x, t.l);
      DoubleSetting(link, balance, root, c, false, a, x, b1, y', b2, t.l.n, e);
      var y := link[z].right;
      LiftInnerRight(x, y, z, c, a, b1, b2, e);
      t' := Join(false, Join(false, a, x, b1), y, Join(false, b2, z, e));
      SettleLeftRight(x, y, z);
      DoubleBal(old(balance), balance, c, false, a, x, b1, y, b2, z, e);
      DoubleRotated(c, false, a, x, b1, y, b2, z, e);
    }

    /** `muggle_avl_tree_rebalance`, called on a node whose balance is 2 or -2. */
    method Rebalance(node: Ptr, ghost c: Ctx, ghost t: Tree) returns (dec: bool, ghost t': Tree)
      requires Focus(c, t) && Tilted(balance, t) && node == t.n && (balance[node] == 2 || balance[node] == -2)
      modifies this`root, this`link, this`balance
      ensures Rotated(c, t, t', old(link), old(balance), dec)
      ensures var h := if old(balance)[node] > 0 then t.r else t.l;
        h.Node? && h.n in old(balance) && (old(balance)[h.n] != 0 ==> dec)
    {
      if balance[node] < -1 {
        var child := link[node].left;
        assert Links(link, t.l, child, node) && Bal(balance, t.l);
        if balance[child] <= 0 {
          dec, t' := RotateRight(node, c, t);
        } else {
          t' := RotateLeftRight(node, c, t);
          dec := true;
        }
      } else {
        var child := link[node].right;
        assert Links(link, t.r, child, node) && Bal(balance, t.r);
        if balance[child] >= 0 {
          dec, t' := RotateLeft(node, c, t);
        } else {
          t' := RotateRightLeft(node, c, t);
          dec := true;
        }
      }
    }

    /** `t` is the whole tree, correctly linked and balanced. */
    ghost predicate Whole(t: Tree)
      reads this
    {
      && Links(link, t, root, NULL) && Distinct(t) && Bal(balance, t)
      && NULL !in link && link.Keys == balance.Keys
    }

    lemma CloseUp(c: Ctx, t: Tree)
      requires Focus(c, t) && Bal(balance, t) && CtxBal(balance, c, Height(t))
      ensures Whole(Plug(c, t))
    {
      PlugLinks(link, c, t, TopOf(t), root);
      PlugBal(balance, c, t);
      PlugDistinct(c, t);
    }

    /** Rebalances `t`, whose place expects height `h`, with the path above it in order. */
    method RebalanceBelow(node: Ptr, ghost c: Ctx, ghost t: Tree, ghost h: nat) returns (dec: bool, ghost t': Tree)
      requires Focus(c, t) && Tilted(balance, t) && node == t.n && (balance[node] == 2 || balance[node] == -2)
      requires CtxBal(balance, c, h)
      modifies this`root, this`link, this`balance
      ensures Focus(c, t') && Bal(balance, t') && CtxBal(balance, c, h) && link.Keys == old(link.Keys)
      ensures Height(t') == Height(t) - if dec then 1 else 0
      ensures Nodes(Plug(c, t')) == Nodes(Plug(c, t)) && Elems(Plug(c, t')) == Elems(Plug(c, t))
      ensures var k := if old(balance)[node] > 0 then t.r else t.l;
        k.Node? && k.n in old(balance) && (old(balance)[k.n] != 0 ==> dec)
    {
      dec, t' := Rebalance(node, c, t);
      CtxBalFrame(old(balance), balance, c, h);
      PlugSame(c, t, t');
    }

    /** The subtree `t` in the hole of `c` is in order, and so is the path above for a subtree of height `h`. */
    ghost predicate Pending(c: Ctx, t: Tree, h: nat)
      reads this
    {
      Focus(c, t) && Bal(balance, t) && CtxBal(balance, c, h)
    }

    /** The first lines of a retracing round: the node above a subtree that changed height stores its new balance. */
    method Tally(node: Ptr, delta: int, ghost c: Ctx, ghost t: Tree, ghost h: nat) returns (ghost j: Tree)
      requires Pending(c, t, h) && c.Step? && node == c.n && delta == if c.left then h - Height(t) else Height(t) - h
      modifies this`balance
      ensures Focus(c.up, j) && Tilted(balance, j) && j.n == node && CtxBal(balance, c.up, 1 + Max(h, Height(c.s)))
      ensures Height(j) == 1 + Max(Height(t), Height(c.s)) && balance[node] == Tilt(c.left, Height(t), Height(c.s))
      ensures -1 <= Tilt(c.left, h, Height(c.s)) <= 1 && Plug(c.up, j) == Plug(c, t)
      ensures (if c.left then j.l else j.r) == t && (t.Node? ==> t.n in balance && balance[t.n] == old(balance)[t.n])
      ensures -1 <= balance[node] <= 1 ==> Pending(c.up, j, 1 + Max(h, Height(c.s)))
      ensures link[node].parent == Up(c.up) && (c.up.Step? ==> c.up.n in link && c.up.left == (link[c.up.n].left == node))
    {
      hide Links, CtxLinks, Distinct, Elems;
      balance := balance[node := balance[node] + delta];
      Retally(old(balance), balance, c, t, h);
      StepUp(link, c, t, TopOf(t), root);
      CtxHangs(link, c.up, node, root);
      j := Join(c.left, t, c.n, c.s);
    }

    /** The last round of retracing after an insert: the rotation restores the height from before. */
    method RebalanceAndClose(node: Ptr, ghost c: Ctx, ghost t: Tree, ghost h: nat) returns (ghost t': Tree)
      requires Focus(c, t) && Tilted(balance, t) && node == t.n && (balance[node] == 2 || balance[node] == -2)
      requires CtxBal(balance, c, h) && Height(t) == h + 1
      requires var k := if balance[node] > 0 then t.r else t.l; k.Node? && k.n in balance && balance[k.n] != 0
      modifies this`root, this`link, this`balance
      ensures Whole(t') && link.Keys == old(link.Keys)
      ensures Nodes(t') == Nodes(Plug(c, t)) && Elems(t') == Elems(Plug(c, t))
    {
      ghost var _, j := RebalanceBelow(node, c, t, h);
      CloseUp(c, j);
      t' := Plug(c, j);
    }

    /** The retracing loop of `muggle_avl_tree_insert`: the subtree below `start` on side `left` grew by one. */
    method RetraceInsert(start: Ptr, left: bool, ghost c0: Ctx, ghost t0: Tree) returns (ghost t': Tree)
      requires Pending(c0, t0, 0) && c0.Step? && start == c0.n && left == c0.left
      requires t0.Node? && Height(t0) == 1 && t0.n in balance
      modifies this`root, this`link, this`balance
      ensures Whole(t') && link.Keys == old(link.Keys)
      ensures Nodes(t') == Nodes(Plug(c0, t0)) && Elems(t') == Elems(Plug(c0, t0))
    {
      hide Links, CtxLinks, Bal, CtxBal, Elems, CtxElems, Distinct, CtxDistinct, Nodes, Height;
      var node, side := start, left;
      ghost var c, t := c0, t0;
      ghost var h: nat := 0;
      while true
        invariant Pending(c, t, h) && c.Step? && node == c.n && side == c.left
        invariant t.Node? && h + 1 == Height(t) && t.n in balance && (h == 0 || balance[t.n] != 0)
        invariant link.Keys == old(link.Keys) && Plug(c, t) == Plug(c0, t0)
        decreases c
      {
        ghost var j := Tally(node, if side then -1 else 1, c, t, h);
        GrowCases(c.left, h, Height(c.s));
        if balance[node] == 0 {
          c, t := c.up, j;
          break;
        } else if balance[node] == 1 || balance[node] == -1 {
          h := 1 + Max(h, Height(c.s));
          c, t := c.up, j;
          if link[node].parent != NULL {
            side := link[link[node].parent].left == node;
            node := link[node].parent;
          } else {
            break;
          }
        } else {
          j := RebalanceAndClose(node, c.up, j, 1 + Max(h, Height(c.s)));
          return j;
        }
      }
      CloseUp(c, t);
      return Plug(c, t);
    }

    /** The retracing loop of `muggle_avl_tree_remove`: the subtree below `start` on side `left` shrank by one. */
    method RetraceRemove(start: Ptr, left: bool, ghost c0: Ctx, ghost t0: Tree) returns (ghost t': Tree)
      requires Pending(c0, t0, Height(t0) + 1) && c0.Step? && start == c0.n && left == c0.left
      modifies this`root, this`link, this`balance
      ensures Whole(t') && link.Keys == old(link.Keys)
      ensures Nodes(t') == Nodes(Plug(c0, t0)) && Elems(t') == Elems(Plug(c0, t0))
    {
      hide Links, CtxLinks, Bal, Elems, CtxElems, Distinct, CtxDistinct, Nodes, Height;
      var node, side := start, left;
      ghost var c, t := c0, t0;
      ghost var h: nat := Height(t0) + 1;
      while node != NULL
        invariant Pending(c, t, h) && node == Up(c) && (c.Step? ==> side == c.left) && h == Height(t) + 1
        invariant link.Keys == old(link.Keys)
        invariant Nodes(Plug(c, t)) == Nodes(Plug(c0, t0)) && Elems(Plug(c, t)) == Elems(Plug(c0, t0))
        decreases c
      {
        ghost var j := Tally(node, if side then 1 else -1, c, t, h);
        ShrinkCases(c.left, Height(t), Height(c.s));
        h := 1 + Max(h, Height(c.s));
        if balance[node] == 1 || balance[node] == -1 {
          c, t := c.up, j;
          break;
        } else if balance[node] == 0 {
          c, t := c.up, j;
          if link[node].parent != NULL {
            side := link[link[node].parent].left == node;
            node := link[node].parent;
          } else {
            break;
          }
        } else {
          var parent := link[node].parent;
          if parent != NULL {
            side := link[parent].left == node;
          }
          var dec;
          dec, j := RebalanceBelow(node, c.up, j, h);
          c, t := c.up, j;
          if dec {
            node := parent;
          } else {
            break;
          }
        }
      }
      CloseUp(c, t);
      return Plug(c, t);
    }

    /** The entries from left to right. */
    ghost function Contents(): seq<Entry>
      reads this
    {
      Entries(data, Nodes(shape))
    }

    ghost predicate Valid()
      reads this
    {
      && Whole(shape) && link.Keys == data.Keys == Elems(shape)
      && Lawful(cmp) && Sorted(cmp, Contents())
    }

    /** Any node of a correct tree can be worked on. */
    lemma OpenUp(c: Ctx, t: Tree)
      requires Whole(Plug(c, t))
      ensures Pending(c, t, Height(t)) && (TopOf(t) == NULL <==> t.Leaf?)
    {
      Unplug(link, balance, c, t, root);
      PlugDistinct(c, t);
    }

    lemma TopLinks(c: Ctx, t: Tree)
      requires Focus(c, t) && t.Node?
      ensures t.n in link && link[t.n].left == TopOf(t.l) && link[t.n].right == TopOf(t.r) && link[t.n].parent == Up(c)
      ensures (t.l.Node? ==> t.l.n != NULL) && (t.r.Node? ==> t.r.n != NULL) && t.n != NULL
      ensures c.Step? ==> c.n in link && c.n != t.n && c.left == (link[c.n].left == t.n)
    {
      TopIn(link, t.l, link[t.n].left, t.n);
      TopIn(link, t.r, link[t.n].right, t.n);
      CtxHangs(link, c, t.n, root);
    }

    /** `muggle_avl_tree_find`; `used` counts the calls of `cmp`. */
    method Find(key: Ptr) returns (result: Ptr, ghost used: nat)
      requires Valid()
      ensures Get(cmp, Contents(), key) == if result == NULL then None else Some(At(data, result).value)
      ensures result != NULL ==> result in data && cmp(key, data[result].key) == 0
      ensures Fib(used + 2) - 1 <= |Contents()|
    {
      hide Links, CtxLinks, Bal, CtxBal, Elems, CtxElems, Distinct, CtxDistinct, Nodes, Height, Before;
      hide Lawful, Get, Put, Lo, Hi, Mid, Plug, Fib;
      var node := root;
      result, used := NULL, 0;
      ghost var c, t := Top, shape;
      HeightBound();
      Ends(t, c);
      OpenUp(c, t);
      RootIs();
      while node != NULL
        invariant node == TopOf(t) && Plug(c, t) == shape
        invariant Between(cmp, Contents(), key, Lo(c), Hi(c, t))
        invariant used + Height(t) <= Height(shape)
        decreases t
      {
        Descend(c, t);
        OpenUp(c, t);
        TopLinks(c, t);
        ghost var m := Mid(c, t);
        var ret := cmp(key, data[node].key);
        used := used + 1;
        if ret == 0 {
          HitAt(cmp, Contents(), Entry(key, NULL), m);
          FibMonotone(used + 2, Height(shape) + 2);
          return node, used;
        } else if ret < 0 {
          NarrowLeft(cmp, Contents(), key, Lo(c), m, Hi(c, t));
          node := link[node].left;
          c, t := Step(true, t.n, t.r, c), t.l;
        } else {
          NarrowRight(cmp, Contents(), key, Lo(c), m, Hi(c, t));
          node := link[node].right;
          c, t := Step(false, t.n, t.l, c), t.r;
        }
      }
      OpenUp(c, t);
      Ends(t, c);
      PutAt(cmp, Contents(), Entry(key, NULL), Lo(c));
      FibMonotone(used + 2, Height(shape) + 2);
    }

    lemma RootIs()
      requires Valid()
      ensures root == TopOf(shape)
    {
    }

    lemma HeightBound()
      requires Valid()
      ensures Fib(Height(shape) + 2) - 1 <= |Contents()|
    {
      BalLeveled(balance, shape);
      FewestNodes(shape);
    }

    /** Hangs a new node below `node`, stores its entry and retraces. */
    method AttachLeaf(node: Ptr, left: bool, spare: Ptr, key: Ptr, value: Ptr, ghost c: Ctx)
      requires Valid() && Pending(c, Leaf, 0) && c.Step? && node == c.n && left == c.left && Plug(c, Leaf) == shape
      requires spare !in link && spare != NULL && Between(cmp, Contents(), key, Lo(c), Lo(c))
      modifies this
      ensures Valid() && Contents() == Put(cmp, old(Contents()), Entry(key, value))
      ensures data == old(data)[spare := Entry(key, value)]
    {
      hide Links, CtxLinks, Bal, CtxBal, Elems, CtxElems, Distinct, CtxDistinct, Nodes, Height, Before, Lawful, Put, Lo, Plug;
      ghost var t := Node(Leaf, spare, Leaf);
      var e := Entry(key, value);
      OneLeaf(c, spare);
      AddedEntry(data, c, spare, e);
      PutAt(cmp, Contents(), e, Lo(c));
      PutLaws(cmp, Contents(), e, key);

      link := link[node := SetKid(link[node], left, spare)];
      link := link[spare := Link(NULL, NULL, node)];
      data := data[spare := e];
      balance := balance[spare := 0];
      HangLeaf(old(link), link, c, spare, root);
      CtxBalFrame(old(balance), balance, c, 0);
      shape := RetraceInsert(node, left, c, t);
    }

    /** Facts about the hole of `c` and a new leaf for it. */
    lemma OneLeaf(c: Ctx, x: Ptr)
      requires Valid() && Pending(c, Leaf, 0) && c.Step? && Plug(c, Leaf) == shape && x !in link && x != NULL
      ensures x !in CtxElems(c) && x !in Elems(shape) && CtxDistinct(c) && CtxLinks(link, c, NULL, root) && c.n in link
      ensures Height(Leaf) == 0 && Height(Node(Leaf, x, Leaf)) == 1
      ensures forall b: Balances :: x in b && b[x] == 0 ==> Bal(b, Node(Leaf, x, Leaf))
    {
      PlugElems(c, Leaf);
    }

    /** `muggle_avl_tree_insert`; `spare` is what the node allocator returned, NULL on failure. */
    method Insert(key: Ptr, value: Ptr, spare: Ptr) returns (result: Ptr)
      requires Valid() && spare !in link
      modifies this
      ensures Valid()
      ensures Contents() == if spare == NULL then old(Contents()) else Put(cmp, old(Contents()), Entry(key, value))
      ensures result == if Get(cmp, old(Contents()), key).Some? then NULL else spare
      ensures data == if result == NULL then old(data) else old(data)[spare := Entry(key, value)]
      ensures result == NULL ==> link == old(link) && balance == old(balance) && root == old(root) && shape == old(shape)
    {
      hide Links, CtxLinks, Bal, CtxBal, Elems, CtxElems, Distinct, CtxDistinct, Nodes, Height, Before;
      hide Lawful, Get, Put, Lo, Hi, Mid, Plug;
      RootIs();
      Ends(shape, Top);
      OpenUp(Top, shape);
      if root == NULL {
        result := InsertRoot(key, value, spare);
        return;
      }
      var node, side := root, true;
      ghost var c, t := Top, shape;
      while true
        modifies {}
        invariant t.Node? && node == t.n && Plug(c, t) == shape
        invariant Between(cmp, Contents(), key, Lo(c), Hi(c, t))
        decreases t
      {
        Descend(c, t);
        OpenUp(c, t);
        TopLinks(c, t);
        ghost var m := Mid(c, t);
        var ret := cmp(key, data[node].key);
        if ret == 0 {
          HitAt(cmp, Contents(), Entry(key, value), m);
          return NULL;
        } else if ret < 0 {
          NarrowLeft(cmp, Contents(), key, Lo(c), m, Hi(c, t));
          c, t := Step(true, t.n, t.r, c), t.l;
          if link[node].left != NULL {
            node := link[node].left;
          } else {
            side := true;
            break;
          }
        } else {
          NarrowRight(cmp, Contents(), key, Lo(c), m, Hi(c, t));
          c, t := Step(false, t.n, t.l, c), t.r;
          if link[node].right != NULL {
            node := link[node].right;
          } else {
            side := false;
            break;
          }
        }
      }
      Ends(t, c);
      OpenUp(c, t);
      EmptyLeaf();
      PutAt(cmp, Contents(), Entry(key, value), Lo(c));
      if spare != NULL {
        AttachLeaf(node, side, spare, key, value, c);
      }
      result := spare;
    }

    lemma EmptyLeaf()
      ensures Height(Leaf) == 0
    {
    }

    /** Insertion into an empty tree. */
    method InsertRoot(key: Ptr, value: Ptr, spare: Ptr) returns (result: Ptr)
      requires Valid() && spare !in link && root == NULL
      modifies this
      ensures Valid() && Get(cmp, old(Contents()), key) == None && result == spare
      ensures Contents() == if spare == NULL then old(Contents()) else Put(cmp, old(Contents()), Entry(key, value))
      ensures data == if result == NULL then old(data) else old(data)[spare := Entry(key, value)]
      ensures result == NULL ==> link == old(link) && balance == old(balance) && root == old(root) && shape == old(shape)
    {
      hide Lawful;
      TopIn(link, shape, root, NULL);
      assert Contents() == [];
      if spare != NULL {
        link, balance, data := link[spare := Link(NULL, NULL, NULL)], balance[spare := 0], data[spare := Entry(key, value)];
        root, shape := spare, Node(Leaf, spare, Leaf);
        assert Elems(shape) == {spare} == link.Keys == balance.Keys == data.Keys;
        assert Bal(balance, shape) && Links(link, shape, root, NULL) && Distinct(shape);
        assert Nodes(shape) == [spare] && Contents() == [Entry(key, value)];
      }
      result := spare;
    }

    /** The rightmost node below the left child of `node`. */
    method Predecessor(node: Ptr, ghost c: Ctx, ghost t: Tree) returns (target: Ptr, ghost c': Ctx, ghost t': Tree)
      requires Whole(shape) && Plug(c, t) == shape && t.Node? && t.l.Node? && node == t.n
      ensures t'.Node? && target == t'.n && Plug(c', t') == shape && Mid(c', t') == Mid(c, t) - 1
      ensures Height(t') < Height(t)
    {
      hide Links, CtxLinks, Bal, CtxBal, Elems, CtxElems, Distinct, CtxDistinct, Nodes, Height, Before, Lo, Hi, Mid, Plug;
      Descend(c, t);
      OpenUp(c, t);
      TopLinks(c, t);
      target := link[node].left;
      c', t' := Step(true, t.n, t.r, c), t.l;
      OpenUp(c', t');
      TopLinks(c', t');
      while link[target].right != NULL
        invariant t'.Node? && target == t'.n && target in link && link[target].right == TopOf(t'.r)
        invariant Plug(c', t') == shape && Hi(c', t') == Mid(c, t) && Height(t') < Height(t)
        decreases t'
      {
        Descend(c', t');
        target := link[target].right;
        c', t' := Step(false, t'.n, t'.l, c'), t'.r;
        OpenUp(c', t');
        TopLinks(c', t');
      }
      Descend(c', t');
      OpenUp(Step(false, t'.n, t'.l, c'), t'.r);
      Ends(t', Step(false, t'.n, t'.l, c'));
    }

    /** The leftmost node below the right child of `node`. */
    method Successor(node: Ptr, ghost c: Ctx, ghost t: Tree) returns (target: Ptr, ghost c': Ctx, ghost t': Tree)
      requires Whole(shape) && Plug(c, t) == shape && t.Node? && t.r.Node? && node == t.n
      ensures t'.Node? && target == t'.n && Plug(c', t') == shape && Mid(c', t') == Mid(c, t) + 1
      ensures Height(t') < Height(t)
    {
      hide Links, CtxLinks, Bal, CtxBal, Elems, CtxElems, Distinct, CtxDistinct, Nodes, Height, Before, Lo, Hi, Mid, Plug;
      Descend(c, t);
      OpenUp(c, t);
      TopLinks(c, t);
      target := link[node].right;
      c', t' := Step(false, t.n, t.l, c), t.r;
      OpenUp(c', t');
      TopLinks(c', t');
      while link[target].left != NULL
        invariant t'.Node? && target == t'.n && target in link && link[target].left == TopOf(t'.l)
        invariant Plug(c', t') == shape && Lo(c') == Mid(c, t) + 1 && Height(t') < Height(t)
        decreases t'
      {
        Descend(c', t');
        target := link[target].left;
        c', t' := Step(true, t'.n, t'.r, c'), t'.l;
        OpenUp(c', t');
        TopLinks(c', t');
      }
      Descend(c', t');
      OpenUp(Step(true, t'.n, t'.r, c'), t'.l);
      Ends(t', Step(true, t'.n, t'.r, c'));
    }

    /** The first loop of `muggle_avl_tree_remove`: the doomed entry changes places until it sits in a leaf. */
    method SinkToLeaf(start: Ptr, ghost c0: Ctx, ghost t0: Tree) returns (node: Ptr, ghost c: Ctx)
      requires Whole(shape) && data.Keys == link.Keys && Plug(c0, t0) == shape && t0.Node? && start == t0.n
      modifies this`data
      ensures Plug(c, Node(Leaf, node, Leaf)) == shape && data.Keys == link.Keys
      ensures Mid(c0, t0) < |Contents()| == |old(Contents())| && Lo(c) < |Contents()|
      ensures Without(Contents(), Lo(c)) == Without(old(Contents()), Mid(c0, t0))
    {
      hide Links, CtxLinks, Bal, CtxBal, Elems, CtxElems, Distinct, CtxDistinct, Nodes, Height, Before, Lo, Hi, Mid, Plug;
      node := start;
      ghost var t;
      c, t := c0, t0;
      Descend(c, t);
      while true
        invariant t.Node? && node == t.n && Plug(c, t) == shape && data.Keys == link.Keys
        invariant Mid(c, t) < |Nodes(shape)| && Mid(c0, t0) < |Nodes(shape)|
        invariant Without(Contents(), Mid(c, t)) == Without(old(Contents()), Mid(c0, t0))
        decreases Height(t)
      {
        Descend(c, t);
        OpenUp(c, t);
        TopLinks(c, t);
        if link[node].left == NULL && link[node].right == NULL {
          break;
        }
        var target;
        ghost var c', t';
        if link[node].left != NULL {
          target, c', t' := Predecessor(node, c, t);
        } else {
          target, c', t' := Successor(node, c, t);
        }
        Descend(c', t');
        OpenUp(c', t');
        TopLinks(c', t');
        SwapNeighbours(Contents(), Mid(c, t), Mid(c', t'));
        EntriesSwap(data, shape, Mid(c, t), Mid(c', t'));
        data := data[node := data[target]][target := data[node]];
        node, c, t := target, c', t';
      }
      LeafMid(c, t);
    }

    lemma LeafMid(c: Ctx, t: Tree)
      requires t.Node? && t.l.Leaf? && t.r.Leaf?
      ensures t == Node(Leaf, t.n, Leaf) && Mid(c, t) == Lo(c)
    {
    }

    /** Where a node of the tree is. */
    lemma Whereabouts(node: Ptr) returns (c: Ctx, t: Tree)
      requires Whole(shape) && node in Elems(shape)
      ensures Plug(c, t) == shape && t.Node? && t.n == node
    {
      c, t := Locate(Top, shape, node);
    }

    /** `muggle_avl_tree_remove`; `gone` is the node that is freed. */
    method Remove(start: Ptr) returns (ghost gone: Ptr)
      requires Valid() && start in link
      modifies this
      ensures Valid() && Contents() == Delete(cmp, old(Contents()), old(data)[start].key)
      ensures gone in old(data) && data.Keys == link.Keys == old(data.Keys) - {gone}
    {
      hide Links, CtxLinks, Bal, CtxBal, Elems, CtxElems, Distinct, CtxDistinct, Nodes, Height, Before, Lo, Hi, Mid, Plug, Lawful, Delete;
      ghost var c0, t0 := Whereabouts(start);
      Descend(c0, t0);
      Flip(cmp, data[start].key, data[start].key);
      HitAt(cmp, Contents(), data[start], Mid(c0, t0));
      DeleteLaws(cmp, Contents(), old(data)[start].key, NULL);
      var node;
      ghost var c;
      node, c := SinkToLeaf(start, c0, t0);
      gone := node;
      DropNode(node, c);
    }

    /** Erases the leaf `node` and retraces. */
    method DropNode(node: Ptr, ghost c: Ctx)
      requires Whole(shape) && link.Keys == data.Keys == Elems(shape) && Plug(c, Node(Leaf, node, Leaf)) == shape
      requires Lo(c) < |Contents()|
      modifies this`root, this`link, this`balance, this`data, this`shape
      ensures Whole(shape) && link.Keys == data.Keys == Elems(shape) == old(link.Keys) - {node} && node in old(link)
      ensures Contents() == old(Without(Contents(), Lo(c)))
    {
      hide Links, CtxLinks, Bal, CtxBal, Elems, CtxElems, Distinct, CtxDistinct, Nodes, Height, Before, Lo, Plug;
      ghost var t := Node(Leaf, node, Leaf);
      OpenUp(c, t);
      TopLinks(c, t);
      DroppedEntry(data, c, node);
      LeafFacts(c, node);
      var parent := link[node].parent;
      if parent == NULL {
        root := NULL;
        link, balance, data := link - {node}, balance - {node}, data - {node};
        shape := Leaf;
        EmptyFacts(link, balance);
      } else {
        var left := link[parent].left == node;
        link := link[parent := SetKid(link[parent], left, NULL)];
        link, balance, data := link - {node}, balance - {node}, data - {node};
        DropLeaf(old(link), link, c, node, root);
        CtxBalFrame(old(balance), balance, c, 1);
        EmptyFacts(link, balance);
        shape := RetraceRemove(parent, left, c, Leaf);
      }
    }

    lemma LeafFacts(c: Ctx, x: Ptr)
      requires Pending(c, Node(Leaf, x, Leaf), 1) || Pending(c, Node(Leaf, x, Leaf), Height(Node(Leaf, x, Leaf)))
      ensures Height(Node(Leaf, x, Leaf)) == 1 && CtxDistinct(c) && x !in CtxElems(c) && Apart(c, Leaf)
      ensures CtxLinks(link, c, x, root) && CtxBal(balance, c, 1) && (c.Top? ==> Plug(c, Leaf) == Leaf)
    {
    }

    lemma EmptyFacts(m: Mem, b: Balances)
      ensures forall p :: Links(m, Leaf, NULL, p)
      ensures Bal(b, Leaf) && Distinct(Leaf) && Height(Leaf) == 0
    {
    }
  }
}
