/** Node memory as the C code sees it: child and parent links and balances addressed by pointer. */
module AvlMemory {
  import opened AvlShape

  datatype Link = Link(left: Ptr, right: Ptr, parent: Ptr)
  type Mem = map<Ptr, Link>

  function Kid(k: Link, left: bool): Ptr { if left then k.left else k.right }

  function SetKid(k: Link, left: bool, v: Ptr): Link { if left then k.(left := v) else k.(right := v) }

  /** The node that holds the hole of `c`. */
  function Up(c: Ctx): Ptr { if c.Top? then NULL else c.n }

  /** Memory is linked as `t` says: `x` is the top of `t` and `p` the parent of `x`. */
  predicate Links(m: Mem, t: Tree, x: Ptr, p: Ptr) {
    if t.Leaf? then x == NULL
    else x == t.n && x != NULL && x in m && m[x].parent == p
         && Links(m, t.l, m[x].left, x) && Links(m, t.r, m[x].right, x)
  }

  /** Memory is linked as `c` says, with `x` in the hole and `root` on top. */
  predicate CtxLinks(m: Mem, c: Ctx, x: Ptr, root: Ptr) {
    if c.Top? then root == x
    else c.n != NULL && c.n in m && Kid(m[c.n], c.left) == x && Links(m, c.s, Kid(m[c.n], !c.left), c.n)
         && m[c.n].parent == Up(c.up) && CtxLinks(m, c.up, c.n, root)
  }

  /** `m'` keeps what `m` holds at `s`. */
  ghost predicate Same<T>(m: map<Ptr, T>, m': map<Ptr, T>, s: set<Ptr>) {
    forall n :: n in s && n in m ==> n in m' && m'[n] == m[n]
  }

  lemma {:induction false} LinksFrame(m: Mem, m': Mem, t: Tree, x: Ptr, p: Ptr)
    requires Links(m, t, x, p) && Same(m, m', Elems(t))
    ensures Links(m', t, x, p)
  {
    if t.Node? {
      LinksFrame(m, m', t.l, m[x].left, x);
      LinksFrame(m, m', t.r, m[x].right, x);
    }
  }

  lemma {:induction false} CtxFrame(m: Mem, m': Mem, c: Ctx, x: Ptr, root: Ptr)
    requires CtxLinks(m, c, x, root) && Same(m, m', CtxElems(c))
    ensures CtxLinks(m', c, x, root)
  {
    if c.Step? {
      LinksFrame(m, m', c.s, Kid(m[c.n], !c.left), c.n);
      CtxFrame(m, m', c.up, c.n, root);
    }
  }

  /** Only the parent link of the top changes. */
  lemma Reparent(m: Mem, m': Mem, t: Tree, x: Ptr, p: Ptr, p': Ptr)
    requires Links(m, t, x, p) && Distinct(t) && Same(m, m', Elems(t) - {x})
    requires x != NULL ==> x in m && x in m' && m'[x] == m[x].(parent := p')
    ensures Links(m', t, x, p')
  {
    if t.Node? {
      LinksFrame(m, m', t.l, m[x].left, x);
      LinksFrame(m, m', t.r, m[x].right, x);
    }
  }

  /** How the hole of `c` looks from below: which side `x` hangs on, or that `x` is the root. */
  predicate Hangs(m: Mem, root: Ptr, parent: Ptr, left: bool, x: Ptr) {
    if parent == NULL then root == x
    else root != x && parent in m && Kid(m[parent], left) == x && Kid(m[parent], !left) != x
  }

  lemma CtxHangs(m: Mem, c: Ctx, x: Ptr, root: Ptr)
    requires CtxLinks(m, c, x, root) && x !in CtxElems(c) && x != NULL
    ensures Hangs(m, root, Up(c), c.Step? && c.left, x)
  {
    if c.Step? {
      RootInCtx(m, c, x, root);
      TopIn(m, c.s, Kid(m[c.n], !c.left), c.n);
    }
  }

  /** `m'` and `root'` have `z` where `x` hung. */
  predicate Replaced(m: Mem, m': Mem, root: Ptr, root': Ptr, parent: Ptr, left: bool, z: Ptr) {
    if parent == NULL then root' == z
    else root' == root && parent in m && parent in m' && m'[parent] == SetKid(m[parent], left, z)
  }

  lemma Rehang(m: Mem, m': Mem, c: Ctx, x: Ptr, z: Ptr, root: Ptr, root': Ptr)
    requires CtxLinks(m, c, x, root) && CtxDistinct(c)
    requires Replaced(m, m', root, root', Up(c), c.Step? && c.left, z) && Same(m, m', CtxElems(c) - {Up(c)})
    ensures CtxLinks(m', c, z, root')
  {
    if c.Step? {
      LinksFrame(m, m', c.s, Kid(m[c.n], !c.left), c.n);
      CtxFrame(m, m', c.up, c.n, root);
    }
  }

  lemma {:induction false} RootInCtx(m: Mem, c: Ctx, x: Ptr, root: Ptr)
    requires CtxLinks(m, c, x, root) && c.Step?
    ensures root in CtxElems(c)
  {
    if c.up.Step? {
      RootInCtx(m, c.up, c.n, root);
    }
  }

  lemma TopIn(m: Mem, t: Tree, x: Ptr, p: Ptr)
    requires Links(m, t, x, p)
    ensures x != NULL ==> x in Elems(t) && x in m
    ensures x == NULL <==> t.Leaf?
  {
  }

  lemma {:induction false} PlugLinks(m: Mem, c: Ctx, t: Tree, x: Ptr, root: Ptr)
    requires Links(m, t, x, Up(c)) && CtxLinks(m, c, x, root)
    ensures Links(m, Plug(c, t), root, NULL)
  {
    if c.Step? {
      PlugLinks(m, c.up, Join(c.left, t, c.n, c.s), c.n, root);
    }
  }

  /** Memory changes at `touched` at most. */
  ghost predicate Only<T>(m: map<Ptr, T>, m': map<Ptr, T>, touched: set<Ptr>) {
    Same(m, m', m.Keys - touched)
  }

  lemma Untouched<T>(m: map<Ptr, T>, m': map<Ptr, T>, touched: set<Ptr>, s: set<Ptr>)
    requires Only(m, m', touched) && NULL !in m && forall k :: k in touched && k != NULL ==> k !in s
    ensures Same(m, m', s)
  {
  }

  predicate Clear(c: Ctx, t: Tree) { CtxElems(c) !! Elems(t) }

  /** Where a single rotation applies: `z` is the child of `x` away from side `d`. */
  predicate SingleSite(m: Mem, root: Ptr, c: Ctx, d: bool, a: Tree, x: Ptr, b: Tree, z: Ptr, e: Tree) {
    && NULL !in m && x in m && z in m && Kid(m[x], !d) == z && m[x].parent == Up(c)
    && Links(m, a, Kid(m[x], d), x) && Links(m, b, Kid(m[z], d), z) && Links(m, e, Kid(m[z], !d), z)
    && CtxLinks(m, c, x, root) && CtxDistinct(c) && Parts(a, x, b, z, e)
    && Clear(c, a) && Clear(c, b) && Clear(c, e) && x !in CtxElems(c) && z !in CtxElems(c)
  }

  lemma SingleParts(m: Mem, root: Ptr, c: Ctx, d: bool, a: Tree, x: Ptr, b: Tree, z: Ptr, e: Tree)
    requires var t := Join(d, a, x, Join(d, b, z, e)); Links(m, t, x, Up(c)) && Apart(c, t)
    requires CtxLinks(m, c, x, root) && NULL !in m
    ensures SingleSite(m, root, c, d, a, x, b, z, e)
  {
    RotationParts(d, a, x, b, z, e);
    assert Links(m, Join(d, b, z, e), z, x);
  }

  /** The links of a single rotation: `z` moves above `x`, the subtree between them changes hands. */
  lemma RelinkSingle(m: Mem, m': Mem, c: Ctx, d: bool, a: Tree, x: Ptr, b: Tree, z: Ptr, e: Tree, root: Ptr, root': Ptr)
    requires SingleSite(m, root, c, d, a, x, b, z, e)
    requires x in m' && m'[x] == SetKid(m[x], !d, Kid(m[z], d)).(parent := z)
    requires z in m' && m'[z] == SetKid(m[z], d, x).(parent := Up(c))
    requires var s := Kid(m[z], d); s in m ==> s in m' && m'[s] == m[s].(parent := x)
    requires Replaced(m, m', root, root', Up(c), c.Step? && c.left, z) && Only(m, m', {x, z, Kid(m[z], d), Up(c)})
    ensures Links(m', Join(d, Join(d, a, x, b), z, e), z, Up(c)) && CtxLinks(m', c, z, root')
  {
    var s, u := Kid(m[z], d), Up(c);
    TopIn(m, b, s, z);
    assert u in CtxElems(c) || u == NULL;
    var touched := {x, z, s, u};
    Untouched(m, m', touched, Elems(a));
    LinksFrame(m, m', a, Kid(m[x], d), x);
    Untouched(m, m', touched, Elems(e));
    LinksFrame(m, m', e, Kid(m[z], !d), z);
    Untouched(m, m', touched, Elems(b) - {s});
    Reparent(m, m', b, s, z, x);
    Untouched(m, m', touched, CtxElems(c) - {u});
    Rehang(m, m', c, x, z, root, root');
    assert Links(m', Join(d, a, x, b), x, z);
  }

  /** Where a double rotation applies: `z` is the child of `x` away from side `d`, `y` the child of `z` on side `d`. */
  predicate DoubleSite(m: Mem, root: Ptr, c: Ctx, d: bool, a: Tree, x: Ptr, b1: Tree, y: Ptr, b2: Tree, z: Ptr, e: Tree) {
    && NULL !in m && x in m && y in m && z in m && Kid(m[x], !d) == z && Kid(m[z], d) == y && m[x].parent == Up(c)
    && Links(m, a, Kid(m[x], d), x) && Links(m, e, Kid(m[z], !d), z)
    && Links(m, b1, Kid(m[y], d), y) && Links(m, b2, Kid(m[y], !d), y)
    && CtxLinks(m, c, x, root) && CtxDistinct(c) && DoubleApart(c, a, x, b1, y, b2, z, e)
  }

  /** The seven parts of a double rotation and its surroundings share no node. */
  predicate DoubleApart(c: Ctx, a: Tree, x: Ptr, b1: Tree, y: Ptr, b2: Tree, z: Ptr, e: Tree) {
    && Parts(a, x, b1, z, e) && Parts(a, y, b2, z, e) && Elems(b1) !! Elems(b2) && x != y
    && x !in Elems(b2) && y !in Elems(b1)
    && Clear(c, a) && Clear(c, b1) && Clear(c, b2) && Clear(c, e)
    && x !in CtxElems(c) && y !in CtxElems(c) && z !in CtxElems(c)
  }

  lemma DoubleParts(m: Mem, root: Ptr, c: Ctx, d: bool, a: Tree, x: Ptr, b1: Tree, y: Ptr, b2: Tree, z: Ptr, e: Tree)
    requires SingleSite(m, root, c, d, a, x, Join(d, b1, y, b2), z, e)
    ensures DoubleSite(m, root, c, d, a, x, b1, y, b2, z, e)
  {
    JoinParts(d, b1, y, b2);
    assert Links(m, Join(d, b1, y, b2), y, z);
  }

  predicate DistinctCells(m: Mem, x: Ptr, y: Ptr, z: Ptr, s1: Ptr, s2: Ptr, u: Ptr) {
    && x != y && y != z && x != z && u !in {x, y, z} && NULL !in m && x in m && y in m && z in m && (u != NULL ==> u in m)
    && (s1 != NULL ==> s1 in m && s1 !in {x, y, z, s2, u})
    && (s2 != NULL ==> s2 in m && s2 !in {x, y, z, s1, u})
  }

  /** The cells a double rotation writes are different cells. */
  lemma DoubleCells(m: Mem, root: Ptr, c: Ctx, d: bool, a: Tree, x: Ptr, b1: Tree, y: Ptr, b2: Tree, z: Ptr, e: Tree)
    requires DoubleSite(m, root, c, d, a, x, b1, y, b2, z, e)
    ensures DistinctCells(m, x, y, z, Kid(m[y], d), Kid(m[y], !d), Up(c))
  {
    TopIn(m, b1, Kid(m[y], d), y);
    TopIn(m, b2, Kid(m[y], !d), y);
    assert Up(c) in CtxElems(c) || Up(c) == NULL;
  }

  lemma DoubleFrame(m: Mem, m': Mem, c: Ctx, a: Tree, x: Ptr, b1: Tree, s1: Ptr, y: Ptr, b2: Tree, s2: Ptr, z: Ptr, e: Tree)
    requires NULL !in m && DoubleApart(c, a, x, b1, y, b2, z, e)
    requires (s1 != NULL ==> s1 in Elems(b1)) && (s2 != NULL ==> s2 in Elems(b2))
    requires Only(m, m', {x, y, z, s1, s2, Up(c)})
    ensures Same(m, m', Elems(a)) && Same(m, m', Elems(e)) && Same(m, m', Elems(b1) - {s1}) && Same(m, m', Elems(b2) - {s2})
    ensures Same(m, m', CtxElems(c) - {Up(c)})
  {
    assert Up(c) in CtxElems(c) || Up(c) == NULL;
    var touched := {x, y, z, s1, s2, Up(c)};
    Untouched(m, m', touched, Elems(a));
    Untouched(m, m', touched, Elems(e));
    Untouched(m, m', touched, Elems(b1) - {s1});
    Untouched(m, m', touched, Elems(b2) - {s2});
    Untouched(m, m', touched, CtxElems(c) - {Up(c)});
  }

  /** What a double rotation writes below the parent `u`. */
  ghost predicate DoubleMoved(m: Mem, m': Mem, d: bool, x: Ptr, y: Ptr, z: Ptr, u: Ptr) {
    && x in m && y in m && z in m && x in m' && y in m' && z in m'
    && m'[x] == SetKid(m[x], !d, Kid(m[y], d)).(parent := y)
    && m'[z] == SetKid(m[z], d, Kid(m[y], !d)).(parent := y)
    && m'[y] == SetKid(SetKid(m[y], d, x), !d, z).(parent := u)
    && (var s := Kid(m[y], d); s in m ==> s in m' && m'[s] == m[s].(parent := x))
    && (var s := Kid(m[y], !d); s in m ==> s in m' && m'[s] == m[s].(parent := z))
    && Only(m, m', {x, y, z, Kid(m[y], d), Kid(m[y], !d), u})
  }

  /** The links of a double rotation: `y` moves above `x` and `z`. */
  lemma RelinkDouble(m: Mem, m': Mem, c: Ctx, d: bool, a: Tree, x: Ptr, b1: Tree, y: Ptr, b2: Tree, z: Ptr, e: Tree, root: Ptr, root': Ptr)
    requires DoubleSite(m, root, c, d, a, x, b1, y, b2, z, e)
    requires DoubleMoved(m, m', d, x, y, z, Up(c)) && Replaced(m, m', root, root', Up(c), c.Step? && c.left, y)
    ensures Links(m', Join(d, Join(d, a, x, b1), y, Join(d, b2, z, e)), y, Up(c)) && CtxLinks(m', c, y, root')
  {
    var s1, s2 := Kid(m[y], d), Kid(m[y], !d);
    TopIn(m, b1, s1, y);
    TopIn(m, b2, s2, y);
    DoubleFrame(m, m', c, a, x, b1, s1, y, b2, s2, z, e);
    LinksFrame(m, m', a, Kid(m[x], d), x);
    LinksFrame(m, m', e, Kid(m[z], !d), z);
    Reparent(m, m', b1, s1, y, x);
    Reparent(m, m', b2, s2, y, z);
    Rehang(m, m', c, x, y, root, root');
    assert Links(m', Join(d, a, x, b1), x, y) && Links(m', Join(d, b2, z, e), z, y);
  }

  /** Right height minus left height, for a subtree of height `h` on the given side and one of height `o` on the other. */
  function Tilt(left: bool, h: nat, o: nat): int { if left then o - h else h - o }

  type Balances = map<Ptr, int>

  /** Every stored balance is right height minus left height and lies in -1..1. */
  predicate Bal(b: Balances, t: Tree) {
    t.Leaf? || (t.n in b && b[t.n] == Height(t.r) - Height(t.l) && -1 <= b[t.n] <= 1 && Bal(b, t.l) && Bal(b, t.r))
  }

  /** The balances on the path are right for a subtree of height `h` in the hole. */
  predicate CtxBal(b: Balances, c: Ctx, h: nat) {
    c.Top? || (c.n in b && b[c.n] == Tilt(c.left, h, Height(c.s)) && -1 <= b[c.n] <= 1
               && Bal(b, c.s) && CtxBal(b, c.up, 1 + Max(h, Height(c.s))))
  }

  lemma {:induction false} BalFrame(b: Balances, b': Balances, t: Tree)
    requires Bal(b, t) && Same(b, b', Elems(t))
    ensures Bal(b', t)
  {
    if t.Node? {
      BalFrame(b, b', t.l);
      BalFrame(b, b', t.r);
    }
  }

  lemma {:induction false} CtxBalFrame(b: Balances, b': Balances, c: Ctx, h: nat)
    requires CtxBal(b, c, h) && Same(b, b', CtxElems(c))
    ensures CtxBal(b', c, h)
  {
    if c.Step? {
      BalFrame(b, b', c.s);
      CtxBalFrame(b, b', c.up, 1 + Max(h, Height(c.s)));
    }
  }

  lemma {:induction false} PlugBal(b: Balances, c: Ctx, t: Tree)
    requires Bal(b, t) && CtxBal(b, c, Height(t))
    ensures Bal(b, Plug(c, t))
  {
    if c.Step? {
      PlugBal(b, c.up, Join(c.left, t, c.n, c.s));
    }
  }

  lemma {:induction false} BalLeveled(b: Balances, t: Tree)
    requires Bal(b, t)
    ensures Leveled(t)
  {
    if t.Node? {
      BalLeveled(b, t.l);
      BalLeveled(b, t.r);
    }
  }

  lemma JoinHeight(d: bool, a: Tree, x: Ptr, b: Tree)
    ensures Height(Join(d, a, x, b)) == 1 + Max(Height(a), Height(b))
  {
  }

  lemma JoinBal(b: Balances, d: bool, t: Tree, x: Ptr, s: Tree)
    requires Bal(b, t) && Bal(b, s) && x in b && b[x] == Tilt(d, Height(t), Height(s)) && -1 <= b[x] <= 1
    ensures Bal(b, Join(d, t, x, s))
  {
  }

  /** The balances where a single rotation applies. */
  predicate SingleTilt(b: Balances, d: bool, a: Tree, x: Ptr, m: Tree, z: Ptr, e: Tree) {
    && Bal(b, a) && Bal(b, m) && Bal(b, e) && x in b && z in b
    && b[x] == Tilt(d, Height(a), 1 + Max(Height(m), Height(e))) == Tilt(d, 0, 2)
    && b[z] == Tilt(d, Height(m), Height(e)) && (b[z] == 0 || b[z] == Tilt(d, 0, 1))
  }

  /** The balances where a double rotation applies. */
  predicate DoubleTilt(b: Balances, d: bool, a: Tree, x: Ptr, m: Tree, y: Ptr, n: Tree, z: Ptr, e: Tree) {
    && Bal(b, a) && Bal(b, m) && Bal(b, n) && Bal(b, e) && x in b && y in b && z in b
    && b[y] == Tilt(d, Height(m), Height(n)) && -1 <= b[y] <= 1
    && b[z] == Tilt(d, 1 + Max(Height(m), Height(n)), Height(e)) == Tilt(d, 1, 0)
    && b[x] == Tilt(d, Height(a), 2 + Max(Height(m), Height(n))) == Tilt(d, 0, 2)
  }

  lemma FindDoubleTilt(b: Balances, d: bool, a: Tree, x: Ptr, m: Tree, y: Ptr, n: Tree, z: Ptr, e: Tree)
    requires Bal(b, a) && Bal(b, Join(d, Join(d, m, y, n), z, e)) && x in b && z in b && b[z] == Tilt(d, 1, 0)
    requires b[x] == Tilt(d, Height(a), Height(Join(d, Join(d, m, y, n), z, e))) == Tilt(d, 0, 2)
    ensures DoubleTilt(b, d, a, x, m, y, n, z, e)
  {
    var t := Join(d, m, y, n);
    JoinHeight(d, m, y, n);
    JoinHeight(d, t, z, e);
    SplitBal(b, d, t, z, e);
    SplitBal(b, d, m, y, n);
  }

  lemma SplitBal(b: Balances, d: bool, t: Tree, x: Ptr, s: Tree)
    requires Bal(b, Join(d, t, x, s))
    ensures Bal(b, t) && Bal(b, s) && x in b && b[x] == Tilt(d, Height(t), Height(s)) && -1 <= b[x] <= 1
  {
  }

  /** A subtree that leans to side `d` has a node there. */
  lemma InnerNode(b: Balances, d: bool, t: Tree, z: Ptr, e: Tree)
    requires Bal(b, Join(d, t, z, e)) && z in b && b[z] == Tilt(d, 1, 0)
    ensures t.Node?
  {
  }

  /** The whole setting of a double rotation at `x`, found from the tree in focus. */
  lemma DoubleSetting(m: Mem, b: Balances, root: Ptr, c: Ctx, d: bool, a: Tree, x: Ptr, b1: Tree, y: Ptr, b2: Tree, z: Ptr, e: Tree)
    requires var t := Join(d, a, x, Join(d, Join(d, b1, y, b2), z, e)); Links(m, t, x, Up(c)) && Apart(c, t)
    requires CtxLinks(m, c, x, root) && NULL !in m
    requires Bal(b, a) && Bal(b, Join(d, Join(d, b1, y, b2), z, e)) && x in b && z in b && b[z] == Tilt(d, 1, 0)
    requires b[x] == Tilt(d, Height(a), Height(Join(d, Join(d, b1, y, b2), z, e))) == Tilt(d, 0, 2)
    ensures DoubleSite(m, root, c, d, a, x, b1, y, b2, z, e) && DoubleTilt(b, d, a, x, b1, y, b2, z, e)
  {
    SingleParts(m, root, c, d, a, x, Join(d, b1, y, b2), z, e);
    DoubleParts(m, root, c, d, a, x, b1, y, b2, z, e);
    FindDoubleTilt(b, d, a, x, b1, y, b2, z, e);
  }

  /** The balances a single rotation stores, and how the height changes. */
  lemma SingleBal(b: Balances, b': Balances, d: bool, a: Tree, x: Ptr, m: Tree, z: Ptr, e: Tree)
    requires SingleTilt(b, d, a, x, m, z, e) && Parts(a, x, m, z, e)
    requires b' == if b[z] == 0 then b[x := Tilt(d, 0, 1)][z := Tilt(d, 1, 0)] else b[x := 0][z := 0]
    ensures var t' := Join(d, Join(d, a, x, m), z, e);
      Bal(b', t') && Height(t') == Height(Join(d, a, x, Join(d, m, z, e))) - if b[z] == 0 then 0 else 1
  {
    JoinHeight(d, m, z, e);
    JoinHeight(d, a, x, Join(d, m, z, e));
    JoinHeight(d, Join(d, a, x, m), z, e);
    BalFrame(b, b', a);
    BalFrame(b, b', m);
    BalFrame(b, b', e);
    JoinHeight(d, a, x, m);
    JoinBal(b', d, a, x, m);
    JoinBal(b', d, Join(d, a, x, m), z, e);
  }

  /** The balances a double rotation stores; the height always drops by one. */
  lemma DoubleBal(b: Balances, b': Balances, c: Ctx, d: bool, a: Tree, x: Ptr, m: Tree, y: Ptr, n: Tree, z: Ptr, e: Tree)
    requires DoubleTilt(b, d, a, x, m, y, n, z, e) && DoubleApart(c, a, x, m, y, n, z, e)
    requires b' == b[x := if b[y] == Tilt(d, 0, 1) then Tilt(d, 1, 0) else 0]
                    [z := if b[y] == Tilt(d, 1, 0) then Tilt(d, 0, 1) else 0][y := 0]
    ensures var t' := Join(d, Join(d, a, x, m), y, Join(d, n, z, e));
      Bal(b', t') && Height(t') == Height(Join(d, a, x, Join(d, Join(d, m, y, n), z, e))) - 1
  {
    hide Height, Bal, Join;
    JoinHeight(d, m, y, n);
    JoinHeight(d, Join(d, m, y, n), z, e);
    JoinHeight(d, a, x, Join(d, Join(d, m, y, n), z, e));
    BalFrame(b, b', a);
    BalFrame(b, b', m);
    BalFrame(b, b', n);
    BalFrame(b, b', e);
    DoubleHeights(d, Height(a), Height(m), Height(n), Height(e), b[y]);
    DoubleJoin(b', d, a, x, m, y, n, z, e);
  }

  lemma DoubleJoin(b: Balances, d: bool, a: Tree, x: Ptr, m: Tree, y: Ptr, n: Tree, z: Ptr, e: Tree)
    requires Bal(b, a) && Bal(b, m) && Bal(b, n) && Bal(b, e) && x in b && y in b && z in b
    requires b[x] == Tilt(d, Height(a), Height(m)) && -1 <= b[x] <= 1
    requires b[z] == Tilt(d, Height(n), Height(e)) && -1 <= b[z] <= 1
    requires b[y] == 0 && Max(Height(a), Height(m)) == Max(Height(n), Height(e))
    ensures var t := Join(d, Join(d, a, x, m), y, Join(d, n, z, e));
      Bal(b, t) && Height(t) == 2 + Max(Height(a), Height(m))
  {
    JoinHeight(d, a, x, m);
    JoinHeight(d, n, z, e);
    JoinHeight(d, Join(d, a, x, m), y, Join(d, n, z, e));
    JoinBal(b, d, a, x, m);
    JoinBal(b, d, n, z, e);
    JoinBal(b, d, Join(d, a, x, m), y, Join(d, n, z, e));
  }

  lemma DoubleHeights(d: bool, a: nat, m: nat, n: nat, e: nat, t: int)
    requires t == Tilt(d, m, n) && -1 <= t <= 1
    requires Tilt(d, 1 + Max(m, n), e) == Tilt(d, 1, 0) && Tilt(d, a, 2 + Max(m, n)) == Tilt(d, 0, 2)
    ensures a == e == Max(m, n) && Max(a, m) == a && Max(n, e) == a
    ensures Tilt(d, a, m) == if t == Tilt(d, 0, 1) then Tilt(d, 1, 0) else 0
    ensures Tilt(d, n, e) == if t == Tilt(d, 1, 0) then Tilt(d, 0, 1) else 0
  {
  }

  /** One step up: the node that holds the hole joins the subtree in focus. */
  lemma StepUp(m: Mem, c: Ctx, t: Tree, x: Ptr, root: Ptr)
    requires c.Step? && Links(m, t, x, Up(c)) && CtxLinks(m, c, x, root) && Apart(c, t)
    ensures var t' := Join(c.left, t, c.n, c.s);
      Links(m, t', c.n, Up(c.up)) && CtxLinks(m, c.up, c.n, root) && Apart(c.up, t')
  {
    JoinParts(c.left, t, c.n, c.s);
  }

  /** Both subtrees are balanced and the top node stores its true balance, in range or not. */
  predicate Tilted(b: Balances, t: Tree) {
    t.Node? && t.n in b && b[t.n] == Height(t.r) - Height(t.l) && Bal(b, t.l) && Bal(b, t.r)
  }

  /** Retracing: the node that holds the hole stores its new tilt after the height in the hole changed. */
  lemma Retally(b: Balances, b': Balances, c: Ctx, t: Tree, h: nat)
    requires c.Step? && Apart(c, t) && Bal(b, t) && CtxBal(b, c, h)
    requires b' == b[c.n := Tilt(c.left, Height(t), Height(c.s))]
    ensures Tilted(b', Join(c.left, t, c.n, c.s)) && CtxBal(b', c.up, 1 + Max(h, Height(c.s)))
    ensures Height(Join(c.left, t, c.n, c.s)) == 1 + Max(Height(t), Height(c.s))
    ensures t.Node? ==> b'[t.n] == b[t.n]
  {
    BalFrame(b, b', t);
    BalFrame(b, b', c.s);
    CtxBalFrame(b, b', c.up, 1 + Max(h, Height(c.s)));
  }

  /** One side of a node in balance grows from `h` to `h + 1`. */
  lemma GrowCases(left: bool, h: nat, s: nat)
    requires -1 <= Tilt(left, h, s) <= 1
    ensures var t := Tilt(left, h + 1, s);
      && (t == 0 || t == 1 || t == -1 || ((t == 2 || t == -2) && h > 0 && (t < 0) == left))
      && Max(h + 1, s) == Max(h, s) + if t == 0 then 0 else 1
  {
  }

  /** One side of a node in balance shrinks from `h + 1` to `h`. */
  lemma ShrinkCases(left: bool, h: nat, s: nat)
    requires -1 <= Tilt(left, h + 1, s) <= 1
    ensures var t := Tilt(left, h, s);
      && (t == 0 || t == 1 || t == -1 || t == 2 || t == -2)
      && Max(h, s) == Max(h + 1, s) - if t == 0 then 1 else 0
  {
  }

  /** A new leaf in an empty hole. */
  lemma HangLeaf(m: Mem, m': Mem, c: Ctx, x: Ptr, root: Ptr)
    requires c.Step? && CtxLinks(m, c, NULL, root) && CtxDistinct(c) && x != NULL && x !in m && x !in CtxElems(c)
    requires m' == m[c.n := SetKid(m[c.n], c.left, x)][x := Link(NULL, NULL, c.n)]
    ensures CtxLinks(m', c, x, root) && Links(m', Node(Leaf, x, Leaf), x, c.n) && Apart(c, Node(Leaf, x, Leaf))
  {
    Rehang(m, m', c, NULL, x, root, root);
  }

  /** A leaf leaves its hole empty. */
  lemma DropLeaf(m: Mem, m': Mem, c: Ctx, x: Ptr, root: Ptr)
    requires c.Step? && CtxLinks(m, c, x, root) && CtxDistinct(c) && x !in CtxElems(c)
    requires m' == m[c.n := SetKid(m[c.n], c.left, NULL)] - {x}
    ensures CtxLinks(m', c, NULL, root)
  {
    Rehang(m, m', c, x, NULL, root, root);
  }

  /** Opening a correct tree at any of its nodes. */
  lemma {:induction false} Unplug(m: Mem, b: Balances, c: Ctx, t: Tree, root: Ptr)
    requires Links(m, Plug(c, t), root, NULL) && Bal(b, Plug(c, t))
    ensures Links(m, t, TopOf(t), Up(c)) && CtxLinks(m, c, TopOf(t), root)
    ensures Bal(b, t) && CtxBal(b, c, Height(t))
  {
    if c.Step? {
      var j := Join(c.left, t, c.n, c.s);
      Unplug(m, b, c.up, j, root);
      assert Links(m, t, Kid(m[c.n], c.left), c.n);
    }
  }
}
