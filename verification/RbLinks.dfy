/**
 Linked nodes as a value: what the left/right/parent/colour fields of a set of nodes hold,
 and when they spell out a given tree around a given hole. One lemma for each way src/vtree.h
 changes those fields.
*/
module RbLinks {
  import opened RbShape

  datatype Cell = Cell(left: Node?, right: Node?, parent: Node?, red: bool)
  type Cells = map<Node, Cell>

  /** The links and colours below `p` are those of `t`. */
  ghost predicate Shape(m: Cells, t: Tree, p: Node?) {
    t.Bin? ==>
      && t.node in m && m[t.node] == Cell(RootOf(t.left), RootOf(t.right), p, t.red)
      && Shape(m, t.left, t.node) && Shape(m, t.right, t.node)
  }

  /** The links and colours around a hole that holds `hole` are those of `c`. */
  ghost predicate CtxShape(m: Cells, c: Ctx, hole: Node?) {
    match c
    case Top => true
    case InL(up, x, red, s) =>
      && x in m && m[x] == Cell(hole, RootOf(s), Par(up), red)
      && Shape(m, s, x) && CtxShape(m, up, x)
    case InR(up, x, red, s) =>
      && x in m && m[x] == Cell(RootOf(s), hole, Par(up), red)
      && Shape(m, s, x) && CtxShape(m, up, x)
  }

  /** The whole structure reachable from `root` is `t` in the hole of `c`. */
  ghost predicate Linked(m: Cells, root: Node?, c: Ctx, t: Tree) {
    && CtxDistinct(c) && Distinct(t) && CtxNodes(c) !! Nodes(t)
    && CtxShape(m, c, RootOf(t)) && Shape(m, t, Par(c))
    && root == Outer(c, RootOf(t))
  }

  // ---------------------------------------------------------------- moving the focus

  lemma Up(m: Cells, root: Node?, c: Ctx, t: Tree)
    requires Linked(m, root, c, t) && !c.Top?
    ensures Linked(m, root, c.up, Fill(c, t))
  {
  }

  lemma DownL(m: Cells, root: Node?, c: Ctx, t: Tree)
    requires Linked(m, root, c, t) && t.Bin?
    ensures Linked(m, root, InL(c, t.node, t.red, t.right), t.left)
  {
  }

  lemma DownR(m: Cells, root: Node?, c: Ctx, t: Tree)
    requires Linked(m, root, c, t) && t.Bin?
    ensures Linked(m, root, InR(c, t.node, t.red, t.left), t.right)
  {
  }

  lemma {:induction false} Whole(m: Cells, root: Node?, c: Ctx, t: Tree)
    ensures Linked(m, root, c, t) <==> Linked(m, root, Top, Plug(c, t))
    decreases c
  {
    if !c.Top? {
      Whole(m, root, c.up, Fill(c, t));
    }
  }

  // ---------------------------------------------------------------- frames

  ghost predicate Same(m: Cells, m': Cells, s: set<Node>) {
    forall x <- s :: x in m && x in m' && m[x] == m'[x]
  }

  lemma {:induction false} FrameShape(m: Cells, m': Cells, t: Tree, p: Node?)
    requires Shape(m, t, p) && Same(m, m', Nodes(t))
    ensures Shape(m', t, p)
  {
    if t.Bin? { FrameShape(m, m', t.left, t.node); FrameShape(m, m', t.right, t.node); }
  }

  lemma {:induction false} FrameCtx(m: Cells, m': Cells, c: Ctx, hole: Node?)
    requires CtxShape(m, c, hole) && Same(m, m', CtxNodes(c))
    ensures CtxShape(m', c, hole)
  {
    match c
    case Top =>
    case InL(up, x, _, s) => FrameShape(m, m', s, x); FrameCtx(m, m', up, x);
    case InR(up, x, _, s) => FrameShape(m, m', s, x); FrameCtx(m, m', up, x);
  }

  /** A subtree that was hung from another parent. */
  lemma Rehang(m: Cells, m': Cells, t: Tree, p: Node?, q: Node?)
    requires Shape(m, t, p) && Distinct(t)
    requires t.Bin? ==> t.node in m' && m'[t.node] == m[t.node].(parent := q) && Same(m, m', Nodes(t) - {t.node})
    ensures Shape(m', t, q)
  {
    if t.Bin? {
      assert Nodes(t.left) <= Nodes(t) - {t.node} && Nodes(t.right) <= Nodes(t) - {t.node};
      FrameShape(m, m', t.left, t.node);
      FrameShape(m, m', t.right, t.node);
    }
  }

  /** A context whose hole was given to another subtree. */
  lemma Regive(m: Cells, m': Cells, c: Ctx, elm: Node?, tmp: Node?)
    requires CtxShape(m, c, elm) && CtxDistinct(c)
    requires c.InL? ==> c.node in m' && m'[c.node] == m[c.node].(left := tmp)
    requires c.InR? ==> c.node in m' && m'[c.node] == m[c.node].(right := tmp)
    requires !c.Top? ==> Same(m, m', CtxNodes(c) - {c.node})
    ensures CtxShape(m', c, tmp)
  {
    match c
    case Top =>
    case InL(up, x, _, s) =>
      assert Nodes(s) <= CtxNodes(c) - {x} && CtxNodes(up) <= CtxNodes(c) - {x};
      FrameShape(m, m', s, x); FrameCtx(m, m', up, x);
    case InR(up, x, _, s) =>
      assert Nodes(s) <= CtxNodes(c) - {x} && CtxNodes(up) <= CtxNodes(c) - {x};
      FrameShape(m, m', s, x); FrameCtx(m, m', up, x);
  }

  // ---------------------------------------------------------------- rotations and colours

  /** `m'` differs from `m` at most on `s`. */
  ghost predicate Only(m: Cells, m': Cells, s: set<Node>) {
    m'.Keys == m.Keys && forall x <- m.Keys - s :: m[x] == m'[x]
  }

  ghost function Roots(t: Tree): set<Node> {
    if t.Leaf? then {} else {t.node}
  }

  ghost function ParSet(c: Ctx): set<Node> {
    if c.Top? then {} else {c.node}
  }

  /** A cell whose link down to `elm` was redirected to `tmp`. */
  function Redirect(p: Cell, elm: Node?, tmp: Node?): Cell {
    if p.left == elm then p.(left := tmp) else p.(right := tmp)
  }

  /** The parent's link to the hole now points to `tmp`. */
  ghost predicate Given(m: Cells, m': Cells, c: Ctx, tmp: Node?) {
    && (c.InL? ==> c.node in m && c.node in m' && m'[c.node] == m[c.node].(left := tmp))
    && (c.InR? ==> c.node in m && c.node in m' && m'[c.node] == m[c.node].(right := tmp))
  }

  lemma Repaint(m: Cells, m': Cells, root: Node?, c: Ctx, t: Tree, red: bool)
    requires Linked(m, root, c, t) && t.Bin?
    requires Only(m, m', {t.node}) && m'[t.node] == m[t.node].(red := red)
    ensures Linked(m', root, c, t.(red := red))
  {
    InMap(m, root, c, t);
    FrameShape(m, m', t.left, t.node);
    FrameShape(m, m', t.right, t.node);
    FrameCtx(m, m', c, t.node);
  }

  lemma {:induction false} ShapeInMap(m: Cells, t: Tree, p: Node?)
    requires Shape(m, t, p)
    ensures Nodes(t) <= m.Keys
  {
    if t.Bin? { ShapeInMap(m, t.left, t.node); ShapeInMap(m, t.right, t.node); }
  }

  lemma {:induction false} CtxInMap(m: Cells, c: Ctx, hole: Node?)
    requires CtxShape(m, c, hole)
    ensures CtxNodes(c) <= m.Keys
  {
    match c
    case Top =>
    case InL(up, x, _, s) => ShapeInMap(m, s, x); CtxInMap(m, up, x);
    case InR(up, x, _, s) => ShapeInMap(m, s, x); CtxInMap(m, up, x);
  }

  lemma InMap(m: Cells, root: Node?, c: Ctx, t: Tree)
    requires Linked(m, root, c, t)
    ensures Nodes(t) <= m.Keys && CtxNodes(c) <= m.Keys
  {
    ShapeInMap(m, t, Par(c));
    CtxInMap(m, c, RootOf(t));
  }

  /** What VRBT_ROTATE_LEFT may assume of the links around `elm`. */
  lemma AroundL(m: Cells, root: Node?, c: Ctx, t: Tree)
    requires Linked(m, root, c, t) && t.Bin? && t.right.Bin?
    ensures var x, y, b := t.node, t.right.node, t.right.left;
      && x in m && m[x] == Cell(RootOf(t.left), y, Par(c), t.red)
      && y in m && m[y] == Cell(RootOf(b), RootOf(t.right.right), x, t.right.red)
      && x != y && (b.Bin? ==> b.node in m && b.node != x && b.node != y)
      && (c.Top? || (c.node in m && c.node != x && c.node != y && RootOf(b) != c.node))
      && (c.InL? ==> m[c.node].left == x) && (c.InR? ==> m[c.node].right == x && m[c.node].left != x)
  {
    assert Shape(m, t.right, t.node) && Distinct(t.right);
    assert t.right.left.Bin? ==> Shape(m, t.right.left, t.right.node) && t.right.left.node in Nodes(t.right.left);
    assert c.InR? && c.left.Bin? ==> c.left.node in Nodes(c.left);
  }

  lemma RotateL(m: Cells, m': Cells, root: Node?, root': Node?, c: Ctx, t: Tree)
    requires Linked(m, root, c, t) && t.Bin? && t.right.Bin?
    requires Only(m, m', {t.node, t.right.node} + Roots(t.right.left) + ParSet(c))
    requires t.node in m' && m'[t.node] == Cell(RootOf(t.left), RootOf(t.right.left), t.right.node, t.red)
    requires t.right.node in m' && m'[t.right.node] == Cell(t.node, RootOf(t.right.right), Par(c), t.right.red)
    requires t.right.left.Bin? ==>
      var b := t.right.left.node; b in m && b in m' && m'[b] == m[b].(parent := t.node)
    requires Given(m, m', c, t.right.node)
    requires root' == Outer(c, t.right.node)
    ensures Linked(m', root', c, RotL(t)) && Nodes(RotL(t)) == Nodes(t)
  {
    InMap(m, root, c, t);
    RotLKeepsNodes(t);
    var a, b, d := t.left, t.right.left, t.right.right;
    assert Shape(m, t.right, t.node) && Distinct(t.right);
    assert b.Bin? ==> b.node in Nodes(b);
    FrameShape(m, m', a, t.node);
    Rehang(m, m', b, t.right.node, t.node);
    FrameShape(m, m', d, t.right.node);
    Regive(m, m', c, t.node, t.right.node);
    assert Shape(m', RotL(t).left, t.right.node);
  }

  lemma AroundR(m: Cells, root: Node?, c: Ctx, t: Tree)
    requires Linked(m, root, c, t) && t.Bin? && t.left.Bin?
    ensures var x, y, b := t.node, t.left.node, t.left.right;
      && x in m && m[x] == Cell(y, RootOf(t.right), Par(c), t.red)
      && y in m && m[y] == Cell(RootOf(t.left.left), RootOf(b), x, t.left.red)
      && x != y && (b.Bin? ==> b.node in m && b.node != x && b.node != y)
      && (c.Top? || (c.node in m && c.node != x && c.node != y && RootOf(b) != c.node))
      && (c.InL? ==> m[c.node].left == x) && (c.InR? ==> m[c.node].right == x && m[c.node].left != x)
  {
    assert Shape(m, t.left, t.node) && Distinct(t.left);
    assert t.left.right.Bin? ==> Shape(m, t.left.right, t.left.node) && t.left.right.node in Nodes(t.left.right);
    assert c.InR? && c.left.Bin? ==> c.left.node in Nodes(c.left);
  }

  lemma RotateR(m: Cells, m': Cells, root: Node?, root': Node?, c: Ctx, t: Tree)
    requires Linked(m, root, c, t) && t.Bin? && t.left.Bin?
    requires Only(m, m', {t.node, t.left.node} + Roots(t.left.right) + ParSet(c))
    requires t.node in m' && m'[t.node] == Cell(RootOf(t.left.right), RootOf(t.right), t.left.node, t.red)
    requires t.left.node in m' && m'[t.left.node] == Cell(RootOf(t.left.left), t.node, Par(c), t.left.red)
    requires t.left.right.Bin? ==>
      var b := t.left.right.node; b in m && b in m' && m'[b] == m[b].(parent := t.node)
    requires Given(m, m', c, t.left.node)
    requires root' == Outer(c, t.left.node)
    ensures Linked(m', root', c, RotR(t)) && Nodes(RotR(t)) == Nodes(t)
  {
    InMap(m, root, c, t);
    RotRKeepsNodes(t);
    var a, b, d := t.left.left, t.left.right, t.right;
    assert Shape(m, t.left, t.node) && Distinct(t.left);
    assert b.Bin? ==> b.node in Nodes(b);
    FrameShape(m, m', a, t.left.node);
    Rehang(m, m', b, t.left.node, t.node);
    FrameShape(m, m', d, t.node);
    Regive(m, m', c, t.node, t.left.node);
    assert Shape(m', RotR(t).right, t.left.node);
  }

  // ---------------------------------------------------------------- linking in, cutting out

  /** A new red leaf in an empty hole. */
  lemma LinkLeaf(m: Cells, m': Cells, root: Node?, root': Node?, c: Ctx, x: Node)
    requires Linked(m, root, c, Leaf) && x !in CtxNodes(c)
    requires Same(m, m', CtxNodes(c) - ParSet(c)) && Given(m, m', c, x)
    requires x in m' && m'[x] == Cell(null, null, Par(c), true)
    requires root' == Outer(c, x)
    ensures Linked(m', root', c, Bin(Leaf, x, true, Leaf))
  {
    Regive(m, m', c, null, x);
  }

  /** A node, its parent and its children are all different. */
  lemma Neighbours(m: Cells, root: Node?, c: Ctx, t: Tree)
    requires Linked(m, root, c, t) && t.Bin?
    ensures Roots(t.left) <= Nodes(t.left) && Roots(t.right) <= Nodes(t.right) && ParSet(c) <= CtxNodes(c)
    ensures {t.node} + Roots(t.left) + Roots(t.right) + ParSet(c) <= m.Keys
    ensures Roots(t.left) !! Roots(t.right) && Roots(t.left) + Roots(t.right) !! ParSet(c) + {t.node} && t.node !in ParSet(c)
  {
    InMap(m, root, c, t);
  }

  /** A node with one subtree `s` at most is replaced by it. */
  lemma CutLinks(m: Cells, m': Cells, root: Node?, root': Node?, c: Ctx, t: Tree, s: Tree)
    requires Linked(m, root, c, t) && t.Bin?
    requires (t.left.Leaf? && s == t.right) || (t.right.Leaf? && s == t.left)
    requires Only(m, m', Roots(s) + ParSet(c)) && Given(m, m', c, RootOf(s))
    requires s.Bin? ==> s.node in m && s.node in m' && m'[s.node] == m[s.node].(parent := Par(c))
    requires root' == Outer(c, RootOf(s))
    ensures Linked(m', root', c, s)
  {
    InMap(m, root, c, t);
    Regive(m, m', c, t.node, RootOf(s));
    Rehang(m, m', s, t.node, Par(c));
  }

  /** Node `x` takes the place, the links and the colour of the root of `t`. */
  lemma Usurp(m: Cells, m': Cells, root: Node?, root': Node?, c: Ctx, t: Tree, x: Node)
    requires Linked(m, root, c, t) && t.Bin? && x !in CtxNodes(c) && x !in Nodes(t)
    requires Only(m, m', {x} + Roots(t.left) + Roots(t.right) + ParSet(c)) && Given(m, m', c, x)
    requires x in m' && t.node in m && m'[x] == m[t.node]
    requires t.left.Bin? ==> t.left.node in m && t.left.node in m' && m'[t.left.node] == m[t.left.node].(parent := x)
    requires t.right.Bin? ==> t.right.node in m && t.right.node in m' && m'[t.right.node] == m[t.right.node].(parent := x)
    requires root' == Outer(c, x)
    ensures Linked(m', root', c, t.(node := x))
  {
    InMap(m, root, c, t);
    Regive(m, m', c, t.node, x);
    Rehang(m, m', t.left, t.node, x);
    Rehang(m, m', t.right, t.node, x);
  }

  /** Linkage does not depend on nodes outside. */
  lemma Unrelated(m: Cells, m': Cells, root: Node?, c: Ctx, t: Tree)
    requires Linked(m, root, c, t) && Same(m, m', CtxNodes(c) + Nodes(t))
    ensures Linked(m', root, c, t)
  {
    FrameShape(m, m', t, Par(c));
    FrameCtx(m, m', c, RootOf(t));
  }

  /** Seeing a hole deep inside as part of a tree in an outer hole, and back. */
  lemma Reroot(m: Cells, root: Node?, o: Ctx, inner: Ctx, s: Tree)
    ensures Linked(m, root, Extend(o, inner), s) <==> Linked(m, root, o, Plug(inner, s))
  {
    Whole(m, root, Extend(o, inner), s);
    Whole(m, root, o, Plug(inner, s));
    PlugExtend(o, inner, s);
  }
}
