/**
 VRBT_* of src/vtree.h on linked nodes: rotations, insertion, removal and their colour fix-ups.
*/
module RbTree {
  import opened CString
  import opened RbShape
  import opened RbLinks

  class Head {
    var root: Node?
    ghost var nodes: set<Node>
    ghost var tree: Tree

    constructor ()
      ensures Valid() && nodes == {} && tree == Leaf
    {
      root, nodes, tree := null, {}, Leaf;
    }

    /** A red-black search tree: links, colours, black counts and key order. */
    ghost predicate Valid()
      reads this, nodes
    {
      Owns(Top, tree) && RB(tree) && !IsRed(tree) && Sorted(InOrder(tree))
    }

    /** The nodes in key order. */
    ghost function Seq(): seq<Node>
      reads this
    {
      InOrder(tree)
    }

    ghost function Snap(): (m: Cells)
      reads this`nodes, nodes
      ensures m.Keys == nodes
    {
      map x | x in nodes :: Cell(x.left, x.right, x.parent, x.red)
    }

    /** The nodes of this tree, linked as `t` in the hole of `c`. */
    ghost predicate Owns(c: Ctx, t: Tree)
      reads this`root, this`nodes, nodes
    {
      nodes == CtxNodes(c) + Nodes(t) && Linked(Snap(), root, c, t)
    }

    ghost function Opt(x: Node?): set<Node> {
      if x == null then {} else {x}
    }

    /** Whoever pointed down to `elm` (a child link of `parent`, or the root) points to `tmp`. */
    method ReplaceChild(parent: Node?, elm: Node?, tmp: Node?)
      modifies this`root, (if parent == null then {} else {parent})`left, (if parent == null then {} else {parent})`right
      ensures root == if parent == null then tmp else old(root)
      ensures parent != null ==>
        && parent.left == (if old(parent.left) == elm then tmp else old(parent.left))
        && parent.right == (if old(parent.left) == elm then old(parent.right) else tmp)
    {
      if parent != null {
        if parent.left == elm {
          parent.left := tmp;
        } else {
          parent.right := tmp;
        }
      } else {
        root := tmp;
      }
    }

    /** ReplaceChild, as a change of the cells. */
    method Repoint(parent: Node?, elm: Node, tmp: Node)
      requires Opt(parent) <= nodes
      modifies this`root, (if parent == null then {} else {parent})`left, (if parent == null then {} else {parent})`right
      ensures root == if parent == null then tmp else old(root)
      ensures Snap() == if parent == null then old(Snap()) else old(Snap())[parent := Redirect(old(Snap())[parent], elm, tmp)]
    {
      ReplaceChild(parent, elm, tmp);
    }

    /** `child`, if there is one, gets a new parent. */
    method Adopt(child: Node?, elm: Node)
      requires Opt(child) <= nodes
      modifies (if child == null then {} else {child})`parent
      ensures Snap() == if child == null then old(Snap()) else old(Snap())[child := old(Snap())[child].(parent := elm)]
    {
      if child != null {
        child.parent := elm;
      }
    }

    /** One link of one node changes, and nothing else. */
    method SetLeft(x: Node, y: Node?)
      requires x in nodes
      modifies x`left
      ensures Snap() == old(Snap())[x := old(Snap())[x].(left := y)]
    {
      x.left := y;
    }

    method SetRight(x: Node, y: Node?)
      requires x in nodes
      modifies x`right
      ensures Snap() == old(Snap())[x := old(Snap())[x].(right := y)]
    {
      x.right := y;
    }

    method SetParent(x: Node, y: Node?)
      requires x in nodes
      modifies x`parent
      ensures Snap() == old(Snap())[x := old(Snap())[x].(parent := y)]
    {
      x.parent := y;
    }

    /** VRBT_ROTATE_LEFT, as the links see it. */
    method RotateLeftLinks(elm: Node) returns (tmp: Node)
      requires elm.right != null && elm.right != elm && elm.parent != elm && elm.parent != elm.right
      requires {elm, elm.right} + Opt(elm.right.left) + Opt(elm.parent) <= nodes
      requires elm.right.left != null ==> elm.right.left != elm && elm.right.left != elm.right && elm.right.left != elm.parent
      modifies this`root, elm`right, elm`parent, elm.right`left, elm.right`parent
      modifies (if elm.right.left == null then {} else {elm.right.left})`parent
      modifies (if elm.parent == null then {} else {elm.parent})`left, (if elm.parent == null then {} else {elm.parent})`right
      ensures tmp == old(elm.right) && root == if old(elm.parent) == null then tmp else old(root)
      ensures var m, m', b, p := old(Snap()), Snap(), old(elm.right.left), old(elm.parent);
        && Only(m, m', {elm, tmp} + Opt(b) + Opt(p))
        && m'[elm] == m[elm].(right := b, parent := tmp)
        && m'[tmp] == m[tmp].(left := elm, parent := p)
        && (b != null ==> m'[b] == m[b].(parent := elm))
        && (p != null ==> m'[p] == Redirect(m[p], elm, tmp))
    {
      hide Snap;
      var parent, inner := elm.parent, elm.right.left;
      tmp := elm.right;
      SetRight(elm, inner);
      Adopt(inner, elm);
      SetParent(tmp, parent);
      Repoint(parent, elm, tmp);
      SetLeft(tmp, elm);
      SetParent(elm, tmp);
    }

    method RotateLeft(elm: Node, ghost c: Ctx, ghost t: Tree) returns (tmp: Node)
      requires Owns(c, t) && t.Bin? && t.right.Bin? && t.node == elm
      modifies this`root, nodes`left, nodes`right, nodes`parent, nodes`red
      ensures Owns(c, RotL(t)) && tmp == t.right.node
    {
      ghost var m := Snap();
      AroundL(m, root, c, t);
      tmp := RotateLeftLinks(elm);
      RotateL(m, Snap(), old(root), root, c, t);
    }

    /** VRBT_ROTATE_RIGHT, as the links see it. */
    method RotateRightLinks(elm: Node) returns (tmp: Node)
      requires elm.left != null && elm.left != elm && elm.parent != elm && elm.parent != elm.left
      requires {elm, elm.left} + Opt(elm.left.right) + Opt(elm.parent) <= nodes
      requires elm.left.right != null ==> elm.left.right != elm && elm.left.right != elm.left && elm.left.right != elm.parent
      modifies this`root, elm`left, elm`parent, elm.left`right, elm.left`parent
      modifies (if elm.left.right == null then {} else {elm.left.right})`parent
      modifies (if elm.parent == null then {} else {elm.parent})`left, (if elm.parent == null then {} else {elm.parent})`right
      ensures tmp == old(elm.left) && root == if old(elm.parent) == null then tmp else old(root)
      ensures var m, m', b, p := old(Snap()), Snap(), old(elm.left.right), old(elm.parent);
        && Only(m, m', {elm, tmp} + Opt(b) + Opt(p))
        && m'[elm] == m[elm].(left := b, parent := tmp)
        && m'[tmp] == m[tmp].(right := elm, parent := p)
        && (b != null ==> m'[b] == m[b].(parent := elm))
        && (p != null ==> m'[p] == Redirect(m[p], elm, tmp))
    {
      hide Snap;
      var parent, inner := elm.parent, elm.left.right;
      tmp := elm.left;
      SetLeft(elm, inner);
      Adopt(inner, elm);
      SetParent(tmp, parent);
      Repoint(parent, elm, tmp);
      SetRight(tmp, elm);
      SetParent(elm, tmp);
    }

    method RotateRight(elm: Node, ghost c: Ctx, ghost t: Tree) returns (tmp: Node)
      requires Owns(c, t) && t.Bin? && t.left.Bin? && t.node == elm
      modifies this`root, nodes`left, nodes`right, nodes`parent, nodes`red
      ensures Owns(c, RotR(t)) && tmp == t.left.node
    {
      ghost var m := Snap();
      AroundR(m, root, c, t);
      tmp := RotateRightLinks(elm);
      RotateR(m, Snap(), old(root), root, c, t);
    }

    /** VRBT_COLOR(elm) = red, with the focus on `elm`. */
    method Paint(elm: Node, red: bool, ghost c: Ctx, ghost t: Tree)
      requires Owns(c, t) && t.Bin? && t.node == elm
      modifies elm`red
      ensures elm.red == red && Owns(c, t.(red := red))
    {
      ghost var m := Snap();
      elm.red := red;
      Repaint(m, Snap(), root, c, t, red);
    }

    // ------------------------------------------------------------ moving the focus

    lemma GoUp(c: Ctx, t: Tree)
      requires Owns(c, t) && !c.Top?
      ensures Owns(c.up, Fill(c, t))
    {
      Up(Snap(), root, c, t);
    }

    lemma GoLeft(c: Ctx, t: Tree)
      requires Owns(c, t) && t.Bin?
      ensures Owns(InL(c, t.node, t.red, t.right), t.left)
    {
      DownL(Snap(), root, c, t);
    }

    lemma GoRight(c: Ctx, t: Tree)
      requires Owns(c, t) && t.Bin?
      ensures Owns(InR(c, t.node, t.red, t.left), t.right)
    {
      DownR(Snap(), root, c, t);
    }

    method PaintLeft(elm: Node, red: bool, ghost c: Ctx, ghost t: Tree)
      requires Owns(c, t) && t.Bin? && t.left.Bin? && t.left.node == elm
      modifies elm`red
      ensures elm.red == red && Owns(c, t.(left := t.left.(red := red)))
    {
      GoLeft(c, t);
      ghost var d := InL(c, t.node, t.red, t.right);
      Paint(elm, red, d, t.left);
      GoUp(d, t.left.(red := red));
    }

    method PaintRight(elm: Node, red: bool, ghost c: Ctx, ghost t: Tree)
      requires Owns(c, t) && t.Bin? && t.right.Bin? && t.right.node == elm
      modifies elm`red
      ensures elm.red == red && Owns(c, t.(right := t.right.(red := red)))
    {
      GoRight(c, t);
      ghost var d := InR(c, t.node, t.red, t.left);
      Paint(elm, red, d, t.right);
      GoUp(d, t.right.(red := red));
    }

    // ------------------------------------------------------------ VRBT_INSERT_COLOR

    /** A red uncle on the right: recolour and move on to the grandparent. */
    method InsertPushLeft(parent: Node, gparent: Node, tmp: Node, ghost c: Ctx, ghost t: Tree)
        returns (ghost t': Tree)
      requires Owns(c, t) && RedOnTop(c, t) && !c.Top? && c.red && c.up.InL? && IsRed(c.up.right)
      requires parent == c.node && gparent == c.up.node && tmp == c.up.right.node
      modifies tmp`red, parent`red, gparent`red
      ensures Owns(c.up.up, t') && RedOnTop(c.up.up, t') && t'.node == gparent
      ensures Order(c.up.up, t') == Order(c, t)
    {
      ghost var u, p := c.up.up, Fill(c, t);
      GoUp(c, t);
      GoUp(c.up, p);
      t' := Fill(c.up, p);
      PaintRight(tmp, false, u, t');
      t' := t'.(right := Blacken(t'.right));
      PaintLeft(parent, false, u, t');
      t' := t'.(left := Blacken(p));
      Paint(gparent, true, u, t');
      t' := t'.(red := true);
      InsertPushL(c, t);
    }

    /** The same with the uncle on the left. */
    method InsertPushRight(parent: Node, gparent: Node, tmp: Node, ghost c: Ctx, ghost t: Tree)
        returns (ghost t': Tree)
      requires Owns(c, t) && RedOnTop(c, t) && !c.Top? && c.red && c.up.InR? && IsRed(c.up.left)
      requires parent == c.node && gparent == c.up.node && tmp == c.up.left.node
      modifies tmp`red, parent`red, gparent`red
      ensures Owns(c.up.up, t') && RedOnTop(c.up.up, t') && t'.node == gparent
      ensures Order(c.up.up, t') == Order(c, t)
    {
      ghost var u, p := c.up.up, Fill(c, t);
      GoUp(c, t);
      GoUp(c.up, p);
      t' := Fill(c.up, p);
      PaintLeft(tmp, false, u, t');
      t' := t'.(left := Blacken(t'.left));
      PaintRight(parent, false, u, t');
      t' := t'.(right := Blacken(p));
      Paint(gparent, true, u, t');
      t' := t'.(red := true);
      InsertPushR(c, t);
    }

    /** A black uncle on the right and `elm` a right child: rotate the zig-zag straight. */
    method InsertTurnLeft(elm: Node, parent: Node, ghost c: Ctx, ghost t: Tree)
        returns (ghost c': Ctx, ghost t': Tree)
      requires Owns(c, t) && RedOnTop(c, t) && c.InR? && c.red && c.node == parent && t.node == elm
      modifies this`root, nodes`left, nodes`right, nodes`parent, nodes`red
      ensures Owns(c', t') && RedOnTop(c', t') && c'.InL? && c'.red && c'.up == c.up
      ensures c'.node == elm && t'.node == parent
      ensures Order(c', t') == Order(c, t)
    {
      InsertTurnL(c, t);
      ghost var p := Fill(c, t);
      GoUp(c, t);
      var tmp := RotateLeft(parent, c.up, p);
      GoLeft(c.up, RotL(p));
      c' := InL(c.up, elm, true, t.right);
      t' := RotL(p).left;
      RotLKeepsOrder(p);
      OrderUp(c, t);
      OrderUp(c', t');
    }

    method InsertTurnRight(elm: Node, parent: Node, ghost c: Ctx, ghost t: Tree)
        returns (ghost c': Ctx, ghost t': Tree)
      requires Owns(c, t) && RedOnTop(c, t) && c.InL? && c.red && c.node == parent && t.node == elm
      modifies this`root, nodes`left, nodes`right, nodes`parent, nodes`red
      ensures Owns(c', t') && RedOnTop(c', t') && c'.InR? && c'.red && c'.up == c.up
      ensures c'.node == elm && t'.node == parent
      ensures Order(c', t') == Order(c, t)
    {
      InsertTurnR(c, t);
      ghost var p := Fill(c, t);
      GoUp(c, t);
      var tmp := RotateRight(parent, c.up, p);
      GoRight(c.up, RotR(p));
      c' := InR(c.up, elm, true, t.left);
      t' := RotR(p).right;
      RotRKeepsOrder(p);
      OrderUp(c, t);
      OrderUp(c', t');
    }

    /** The closing rotation about the grandparent: afterwards the parent is black. */
    method InsertLiftLeft(parent: Node, gparent: Node, ghost c: Ctx, ghost t: Tree) returns (ghost c': Ctx)
      requires Owns(c, t) && RedOnTop(c, t) && c.InL? && c.red && c.up.InL? && !IsRed(c.up.right)
      requires parent == c.node && gparent == c.up.node
      modifies this`root, nodes`left, nodes`right, nodes`parent, nodes`red
      ensures Owns(c', t) && RedOnTop(c', t) && !c'.Top? && !c'.red && c'.node == parent
      ensures Order(c', t) == Order(c, t) && Depth(c') < Depth(c)
    {
      InsertLiftL(c, t);
      ghost var u, p := c.up.up, Fill(c, t);
      GoUp(c, t);
      GoUp(c.up, p);
      ghost var g := Fill(c.up, p);
      PaintLeft(parent, false, u, g);
      g := g.(left := Blacken(p));
      Paint(gparent, true, u, g);
      g := g.(red := true);
      var tmp := RotateRight(gparent, u, g);
      GoLeft(u, RotR(g));
      c' := InL(u, parent, false, RotR(g).right);
      InsertLiftOrderL(c, t);
    }

    method InsertLiftRight(parent: Node, gparent: Node, ghost c: Ctx, ghost t: Tree) returns (ghost c': Ctx)
      requires Owns(c, t) && RedOnTop(c, t) && c.InR? && c.red && c.up.InR? && !IsRed(c.up.left)
      requires parent == c.node && gparent == c.up.node
      modifies this`root, nodes`left, nodes`right, nodes`parent, nodes`red
      ensures Owns(c', t) && RedOnTop(c', t) && !c'.Top? && !c'.red && c'.node == parent
      ensures Order(c', t) == Order(c, t) && Depth(c') < Depth(c)
    {
      InsertLiftR(c, t);
      ghost var u, p := c.up.up, Fill(c, t);
      GoUp(c, t);
      GoUp(c.up, p);
      ghost var g := Fill(c.up, p);
      PaintRight(parent, false, u, g);
      g := g.(right := Blacken(p));
      Paint(gparent, true, u, g);
      g := g.(red := true);
      var tmp := RotateLeft(gparent, u, g);
      GoRight(u, RotL(g));
      c' := InR(u, parent, false, RotL(g).left);
      InsertLiftOrderR(c, t);
    }

    /** What the links say about the focus. */
    lemma Look(c: Ctx, t: Tree)
      requires Owns(c, t)
      ensures root == Outer(c, RootOf(t)) && (c.Top? <==> root == RootOf(t))
      ensures t.Bin? ==>
        && t.node in nodes && t.node.red == t.red && t.node.parent == Par(c)
        && t.node.left == RootOf(t.left) && t.node.right == RootOf(t.right)
      ensures !c.Top? ==> c.node in nodes && c.node.red == c.red && c.node.parent == Par(c.up)
      ensures c.InL? ==> c.node.left == RootOf(t) && c.node.right == RootOf(c.right) && (t.Bin? ==> c.node.right != t.node)
      ensures c.InR? ==> c.node.right == RootOf(t) && c.node.left == RootOf(c.left) && (t.Bin? ==> c.node.left != t.node)
      ensures nodes == CtxNodes(c) + Nodes(t)
    {
      var m := Snap();
      OuterInside(c, RootOf(t));
      assert t.Bin? ==> m[t.node] == Cell(t.node.left, t.node.right, t.node.parent, t.node.red);
      assert !c.Top? ==> c.node in m && m[c.node] == Cell(c.node.left, c.node.right, c.node.parent, c.node.red);
      assert c.InR? && c.left.Bin? ==> c.left.node in CtxNodes(c);
      assert c.InL? && c.right.Bin? ==> c.right.node in CtxNodes(c);
    }

    /** One turn of the loop for a parent that is a left child. */
    method InsertStepLeft(elm: Node, parent: Node, gparent: Node, ghost c: Ctx, ghost t: Tree)
        returns (elm': Node, ghost c': Ctx, ghost t': Tree)
      requires Owns(c, t) && RedOnTop(c, t) && t.node == elm
      requires !c.Top? && c.red && c.node == parent && c.up.InL? && c.up.node == gparent
      modifies this`root, nodes`left, nodes`right, nodes`parent, nodes`red
      ensures Owns(c', t') && RedOnTop(c', t') && t'.node == elm'
      ensures Order(c', t') == Order(c, t) && Depth(c') < Depth(c)
    {
      Look(c, t);
      GoUp(c, t);
      Look(c.up, Fill(c, t));
      var tmp := gparent.right;
      if tmp != null && tmp.red {
        t' := InsertPushLeft(parent, gparent, tmp, c, t);
        elm', c' := gparent, c.up.up;
      } else {
        elm', c', t' := elm, c, t;
        var parent' := parent;
        if parent.right == elm {
          c', t' := InsertTurnLeft(elm, parent, c, t);
          elm', parent' := parent, elm;
        }
        c' := InsertLiftLeft(parent', gparent, c', t');
      }
    }
    /** One turn of the loop for a parent that is a right child. */
    method InsertStepRight(elm: Node, parent: Node, gparent: Node, ghost c: Ctx, ghost t: Tree)
        returns (elm': Node, ghost c': Ctx, ghost t': Tree)
      requires Owns(c, t) && RedOnTop(c, t) && t.node == elm
      requires !c.Top? && c.red && c.node == parent && c.up.InR? && c.up.node == gparent
      modifies this`root, nodes`left, nodes`right, nodes`parent, nodes`red
      ensures Owns(c', t') && RedOnTop(c', t') && t'.node == elm'
      ensures Order(c', t') == Order(c, t) && Depth(c') < Depth(c)
    {
      Look(c, t);
      GoUp(c, t);
      Look(c.up, Fill(c, t));
      var tmp := gparent.left;
      if tmp != null && tmp.red {
        t' := InsertPushRight(parent, gparent, tmp, c, t);
        elm', c' := gparent, c.up.up;
      } else {
        elm', c', t' := elm, c, t;
        var parent' := parent;
        if parent.left == elm {
          c', t' := InsertTurnRight(elm, parent, c, t);
          elm', parent' := parent, elm;
        }
        c' := InsertLiftRight(parent', gparent, c', t');
      }
    }

    /** The same for the sibling on the right, and its children. */
    lemma LookRight(c: Ctx, t: Tree)
      requires Owns(c, t) && c.InL? && c.right.Bin?
      ensures c.node.right == c.right.node && c.right.node in nodes && c.right.node.red == c.right.red
      ensures c.right.node.left == RootOf(c.right.left) && c.right.node.right == RootOf(c.right.right)
      ensures c.right.left.Bin? ==> c.right.left.node in nodes && c.right.left.node.red == c.right.left.red
      ensures c.right.right.Bin? ==> c.right.right.node in nodes && c.right.right.node.red == c.right.right.red
    {
      Look(c, t);
      GoUp(c, t);
      GoRight(c.up, Fill(c, t));
      ghost var d := InR(c.up, c.node, c.red, t);
      Look(d, c.right);
      GoLeft(d, c.right);
      Look(InL(d, c.right.node, c.right.red, c.right.right), c.right.left);
      GoRight(d, c.right);
      Look(InR(d, c.right.node, c.right.red, c.right.left), c.right.right);
    }

    /** The same for the sibling on the left, and its children. */
    lemma LookLeft(c: Ctx, t: Tree)
      requires Owns(c, t) && c.InR? && c.left.Bin?
      ensures c.node.left == c.left.node && c.left.node in nodes && c.left.node.red == c.left.red
      ensures c.left.node.right == RootOf(c.left.right) && c.left.node.left == RootOf(c.left.left)
      ensures c.left.right.Bin? ==> c.left.right.node in nodes && c.left.right.node.red == c.left.right.red
      ensures c.left.left.Bin? ==> c.left.left.node in nodes && c.left.left.node.red == c.left.left.red
    {
      Look(c, t);
      GoUp(c, t);
      GoLeft(c.up, Fill(c, t));
      ghost var d := InL(c.up, c.node, c.red, t);
      Look(d, c.left);
      GoRight(d, c.left);
      Look(InR(d, c.left.node, c.left.red, c.left.left), c.left.right);
      GoLeft(d, c.left);
      Look(InL(d, c.left.node, c.left.red, c.left.right), c.left.left);
    }

    method RemoveRedSiblingLeft(parent: Node, tmp: Node, ghost c: Ctx, ghost t: Tree) returns (ghost c': Ctx)
      requires Owns(c, t) && Short(c, t) && c.InL? && IsRed(c.right) && parent == c.node && tmp == c.right.node
      modifies this`root, nodes`left, nodes`right, nodes`parent, nodes`red
      ensures Owns(c', t) && Short(c', t) && c'.InL? && c'.node == parent && c'.red && c'.right.Bin? && !c'.right.red
      ensures Order(c', t) == Order(c, t) && Depth(c') == Depth(c) + 1
    {
      RemoveRedSiblingL(c, t);
      RemoveOrderL(c, t);
      ghost var u, p := c.up, Fill(c, t);
      GoUp(c, t);
      PaintRight(tmp, false, u, p);
      p := p.(right := Blacken(p.right));
      Paint(parent, true, u, p);
      p := p.(red := true);
      var tmp' := RotateLeft(parent, u, p);
      p := RotL(p);
      GoLeft(u, p);
      ghost var o := InL(u, tmp, false, p.right);
      GoLeft(o, p.left);
      c' := InL(o, parent, true, p.left.right);
    }

    method RemovePushLeft(parent: Node, tmp: Node, ghost c: Ctx, ghost t: Tree) returns (ghost t': Tree)
      requires Owns(c, t) && Short(c, t) && !IsRed(t) && c.InL? && c.right.Bin? && !c.right.red
      requires !IsRed(c.right.left) && !IsRed(c.right.right) && parent == c.node && tmp == c.right.node
      modifies tmp`red
      ensures Owns(c.up, t') && Short(c.up, t') && t'.Bin? && t'.node == parent && t'.red == c.red
      ensures Order(c.up, t') == Order(c, t)
    {
      RemovePushL(c, t);
      OrderUp(c, t);
      ghost var p := Fill(c, t);
      GoUp(c, t);
      PaintRight(tmp, true, c.up, p);
      t' := p.(right := p.right.(red := true));
      assert InOrder(t'.right) == InOrder(c.right);
    }

    method RemoveTurnLeft(parent: Node, tmp: Node, ghost c: Ctx, ghost t: Tree) returns (ghost c': Ctx)
      requires Owns(c, t) && Short(c, t) && !IsRed(t) && c.InL? && c.right.Bin? && !c.right.red
      requires IsRed(c.right.left) && !IsRed(c.right.right) && parent == c.node && tmp == c.right.node
      modifies this`root, nodes`left, nodes`right, nodes`parent, nodes`red
      ensures Owns(c', t) && Short(c', t) && c'.InL? && c'.node == parent && c'.red == c.red && c'.up == c.up
      ensures c'.right.Bin? && !c'.right.red && IsRed(c'.right.right)
      ensures Order(c', t) == Order(c, t)
    {
      RemoveTurnL(c, t);
      ghost var p, s := Fill(c, t), c.right;
      ghost var d := InR(c.up, parent, c.red, t);
      GoUp(c, t);
      GoRight(c.up, p);
      Look(d, s);
      var oleft := tmp.left;
      if oleft != null {
        PaintLeft(oleft, false, d, s);
      }
      s := s.(left := Blacken(s.left));
      Paint(tmp, true, d, s);
      s := s.(red := true);
      oleft := RotateRight(tmp, d, s);
      RotRKeepsOrder(s);
      s := RotR(s);
      GoUp(d, s);
      GoLeft(c.up, Fill(d, s));
      c' := c.(right := s);
      assert InOrder(Blacken(c.right.left)) == InOrder(c.right.left);
    }

    method RemoveLiftLeft(parent: Node, tmp: Node, ghost c: Ctx, ghost t: Tree) returns (ghost t': Tree)
      requires Owns(c, t) && Short(c, t) && !IsRed(t) && c.InL? && c.right.Bin? && !c.right.red && IsRed(c.right.right)
      requires parent == c.node && tmp == c.right.node
      modifies this`root, nodes`left, nodes`right, nodes`parent, nodes`red
      ensures Owns(c.up, t') && RB(t') && CtxRB(c.up, BH(t'), IsRed(t')) && t'.Bin?
      ensures Order(c.up, t') == Order(c, t)
    {
      RemoveLiftL(c, t);
      OrderUp(c, t);
      ghost var u, p := c.up, Fill(c, t);
      GoUp(c, t);
      Look(u, p);
      PaintRight(tmp, parent.red, u, p);
      p := p.(right := p.right.(red := p.red));
      Paint(parent, false, u, p);
      p := p.(red := false);
      GoRight(u, p);
      ghost var d := InR(u, parent, false, t);
      Look(d, p.right);
      if tmp.right != null {
        PaintRight(tmp.right, false, d, p.right);
      }
      p := p.(right := p.right.(right := Blacken(p.right.right)));
      GoUp(d, p.right);
      var tmp' := RotateLeft(parent, u, p);
      RotLKeepsOrder(p);
      t' := RotL(p);
      assert InOrder(Blacken(c.right.right)) == InOrder(c.right.right);
    }

    /** One turn of the removal loop when the short subtree is a left child. */
    method RemoveStepLeft(elm: Node?, parent: Node, ghost c: Ctx, ghost t: Tree)
        returns (done: bool, elm': Node?, parent': Node?, ghost c': Ctx, ghost t': Tree)
      requires Owns(c, t) && Short(c, t) && !IsRed(t) && c.InL? && c.node == parent && RootOf(t) == elm
      modifies this`root, nodes`left, nodes`right, nodes`parent, nodes`red
      ensures Owns(c', t') && Order(c', t') == Order(c, t)
      ensures !done ==> Short(c', t') && elm' == RootOf(t') && parent' == Par(c')
      ensures !done ==> IsRed(t') || Depth(c') < Depth(c)
      ensures done ==> RB(t') && CtxRB(c', BH(t'), IsRed(t')) && elm' == root
    {
      ShortSibling(c, t);
      c', t' := c, t;
      LookRight(c, t);
      var tmp := parent.right;
      if tmp.red {
        c' := RemoveRedSiblingLeft(parent, tmp, c, t);
        LookRight(c', t);
        tmp := parent.right;
      }
      if (tmp.left == null || !tmp.left.red) && (tmp.right == null || !tmp.right.red) {
        t' := RemovePushLeft(parent, tmp, c', t);
        c' := c'.up;
        elm' := parent;
        Look(c', t');
        parent' := elm'.parent;
        done := false;
      } else {
        if tmp.right == null || !tmp.right.red {
          c' := RemoveTurnLeft(parent, tmp, c', t);
          LookRight(c', t);
          tmp := parent.right;
        }
        t' := RemoveLiftLeft(parent, tmp, c', t);
        c' := c'.up;
        elm' := root;
        parent' := parent;
        done := true;
      }
    }

    method RemoveRedSiblingRight(parent: Node, tmp: Node, ghost c: Ctx, ghost t: Tree) returns (ghost c': Ctx)
      requires Owns(c, t) && Short(c, t) && c.InR? && IsRed(c.left) && parent == c.node && tmp == c.left.node
      modifies this`root, nodes`left, nodes`right, nodes`parent, nodes`red
      ensures Owns(c', t) && Short(c', t) && c'.InR? && c'.node == parent && c'.red && c'.left.Bin? && !c'.left.red
      ensures Order(c', t) == Order(c, t) && Depth(c') == Depth(c) + 1
    {
      RemoveRedSiblingR(c, t);
      RemoveOrderR(c, t);
      ghost var u, p := c.up, Fill(c, t);
      GoUp(c, t);
      PaintLeft(tmp, false, u, p);
      p := p.(left := Blacken(p.left));
      Paint(parent, true, u, p);
      p := p.(red := true);
      var tmp' := RotateRight(parent, u, p);
      p := RotR(p);
      GoRight(u, p);
      ghost var o := InR(u, tmp, false, p.left);
      GoRight(o, p.right);
      c' := InR(o, parent, true, p.right.left);
    }

    method RemovePushRight(parent: Node, tmp: Node, ghost c: Ctx, ghost t: Tree) returns (ghost t': Tree)
      requires Owns(c, t) && Short(c, t) && !IsRed(t) && c.InR? && c.left.Bin? && !c.left.red
      requires !IsRed(c.left.right) && !IsRed(c.left.left) && parent == c.node && tmp == c.left.node
      modifies tmp`red
      ensures Owns(c.up, t') && Short(c.up, t') && t'.Bin? && t'.node == parent && t'.red == c.red
      ensures Order(c.up, t') == Order(c, t)
    {
      RemovePushR(c, t);
      OrderUp(c, t);
      ghost var p := Fill(c, t);
      GoUp(c, t);
      PaintLeft(tmp, true, c.up, p);
      t' := p.(left := p.left.(red := true));
      assert InOrder(t'.left) == InOrder(c.left);
    }

    method RemoveTurnRight(parent: Node, tmp: Node, ghost c: Ctx, ghost t: Tree) returns (ghost c': Ctx)
      requires Owns(c, t) && Short(c, t) && !IsRed(t) && c.InR? && c.left.Bin? && !c.left.red
      requires IsRed(c.left.right) && !IsRed(c.left.left) && parent == c.node && tmp == c.left.node
      modifies this`root, nodes`left, nodes`right, nodes`parent, nodes`red
      ensures Owns(c', t) && Short(c', t) && c'.InR? && c'.node == parent && c'.red == c.red && c'.up == c.up
      ensures c'.left.Bin? && !c'.left.red && IsRed(c'.left.left)
      ensures Order(c', t) == Order(c, t)
    {
      RemoveTurnR(c, t);
      ghost var p, s := Fill(c, t), c.left;
      ghost var d := InL(c.up, parent, c.red, t);
      GoUp(c, t);
      GoLeft(c.up, p);
      Look(d, s);
      var oright := tmp.right;
      if oright != null {
        PaintRight(oright, false, d, s);
      }
      s := s.(right := Blacken(s.right));
      Paint(tmp, true, d, s);
      s := s.(red := true);
      oright := RotateLeft(tmp, d, s);
      RotLKeepsOrder(s);
      s := RotL(s);
      GoUp(d, s);
      GoRight(c.up, Fill(d, s));
      c' := c.(left := s);
      assert InOrder(Blacken(c.left.right)) == InOrder(c.left.right);
    }

    method RemoveLiftRight(parent: Node, tmp: Node, ghost c: Ctx, ghost t: Tree) returns (ghost t': Tree)
      requires Owns(c, t) && Short(c, t) && !IsRed(t) && c.InR? && c.left.Bin? && !c.left.red && IsRed(c.left.left)
      requires parent == c.node && tmp == c.left.node
      modifies this`root, nodes`left, nodes`right, nodes`parent, nodes`red
      ensures Owns(c.up, t') && RB(t') && CtxRB(c.up, BH(t'), IsRed(t')) && t'.Bin?
      ensures Order(c.up, t') == Order(c, t)
    {
      RemoveLiftR(c, t);
      OrderUp(c, t);
      ghost var u, p := c.up, Fill(c, t);
      GoUp(c, t);
      Look(u, p);
      PaintLeft(tmp, parent.red, u, p);
      p := p.(left := p.left.(red := p.red));
      Paint(parent, false, u, p);
      p := p.(red := false);
      GoLeft(u, p);
      ghost var d := InL(u, parent, false, t);
      Look(d, p.left);
      if tmp.left != null {
        PaintLeft(tmp.left, false, d, p.left);
      }
      p := p.(left := p.left.(left := Blacken(p.left.left)));
      GoUp(d, p.left);
      var tmp' := RotateRight(parent, u, p);
      RotRKeepsOrder(p);
      t' := RotR(p);
      assert InOrder(Blacken(c.left.left)) == InOrder(c.left.left);
    }

    /** One turn of the removal loop when the short subtree is a right child. */
    method RemoveStepRight(elm: Node?, parent: Node, ghost c: Ctx, ghost t: Tree)
        returns (done: bool, elm': Node?, parent': Node?, ghost c': Ctx, ghost t': Tree)
      requires Owns(c, t) && Short(c, t) && !IsRed(t) && c.InR? && c.node == parent && RootOf(t) == elm
      modifies this`root, nodes`left, nodes`right, nodes`parent, nodes`red
      ensures Owns(c', t') && Order(c', t') == Order(c, t)
      ensures !done ==> Short(c', t') && elm' == RootOf(t') && parent' == Par(c')
      ensures !done ==> IsRed(t') || Depth(c') < Depth(c)
      ensures done ==> RB(t') && CtxRB(c', BH(t'), IsRed(t')) && elm' == root
    {
      ShortSibling(c, t);
      c', t' := c, t;
      LookLeft(c, t);
      var tmp := parent.left;
      if tmp.red {
        c' := RemoveRedSiblingRight(parent, tmp, c, t);
        LookLeft(c', t);
        tmp := parent.left;
      }
      if (tmp.right == null || !tmp.right.red) && (tmp.left == null || !tmp.left.red) {
        t' := RemovePushRight(parent, tmp, c', t);
        c' := c'.up;
        elm' := parent;
        Look(c', t');
        parent' := elm'.parent;
        done := false;
      } else {
        if tmp.left == null || !tmp.left.red {
          c' := RemoveTurnRight(parent, tmp, c', t);
          LookLeft(c', t);
          tmp := parent.left;
        }
        t' := RemoveLiftRight(parent, tmp, c', t);
        c' := c'.up;
        elm' := root;
        parent' := parent;
        done := true;
      }
    }

    method InsertColor(elm: Node, ghost c: Ctx, ghost t: Tree) returns (ghost t': Tree)
      requires Owns(c, t) && RedOnTop(c, t) && t.node == elm
      modifies this`root, nodes`left, nodes`right, nodes`parent, nodes`red
      ensures Owns(Top, t') && RB(t') && !IsRed(t') && InOrder(t') == Order(c, t)
    {
      var x := elm;
      ghost var d, s := c, t;
      Look(d, s);
      var parent := x.parent;
      while parent != null && parent.red
        invariant Owns(d, s) && RedOnTop(d, s) && s.node == x
        invariant parent == Par(d) && (parent != null ==> parent in nodes && parent.red == d.red)
        invariant Order(d, s) == Order(c, t)
        decreases Depth(d)
      {
        RedParent(d, s);
        Look(d, s);
        GoUp(d, s);
        Look(d.up, Fill(d, s));
        var gparent := parent.parent;
        if parent == gparent.left {
          x, d, s := InsertStepLeft(x, parent, gparent, d, s);
        } else {
          x, d, s := InsertStepRight(x, parent, gparent, d, s);
        }
        Look(d, s);
        parent := x.parent;
      }
      InsertDone(d, s);
      PlugInOrder(d, s);
      t' := Plug(d, s);
      GoOut(d, s);
      Look(Top, t');
      Paint(root, false, Top, t');
      t' := Blacken(t');
    }

    /** From a focus to the whole tree. */
    lemma GoOut(c: Ctx, t: Tree)
      requires Owns(c, t)
      ensures Owns(Top, Plug(c, t)) && (t.Bin? ==> Plug(c, t).Bin?)
      decreases c
    {
      if !c.Top? {
        GoUp(c, t);
        GoOut(c.up, Fill(c, t));
      }
    }

    method RemoveColor(parent: Node?, elm: Node?, ghost c: Ctx, ghost t: Tree) returns (ghost t': Tree)
      requires Owns(c, t) && Short(c, t) && elm == RootOf(t) && parent == Par(c)
      modifies this`root, nodes`left, nodes`right, nodes`parent, nodes`red
      ensures Owns(Top, t') && RB(t') && !IsRed(t') && InOrder(t') == Order(c, t)
    {
      var x, p := elm, parent;
      ghost var d, s := c, t;
      var done := false;
      Look(d, s);
      while !done && (x == null || !x.red) && x != root
        invariant Owns(d, s) && Order(d, s) == Order(c, t)
        invariant !done ==> Short(d, s) && x == RootOf(s) && p == Par(d)
        invariant x != null ==> x in nodes
        invariant !done ==> (x != null ==> x.red == s.red) && (x == root <==> d.Top?)
        invariant done ==> RB(s) && CtxRB(d, BH(s), IsRed(s)) && x == root
        decreases !done, if IsRed(s) then 0 else 1 + Depth(d)
      {
        Look(d, s);
        ShortSibling(d, s);
        if p.left == x {
          done, x, p, d, s := RemoveStepLeft(x, p, d, s);
        } else {
          done, x, p, d, s := RemoveStepRight(x, p, d, s);
        }
        Look(d, s);
        RootInside(d, s);
      }
      t' := PaintLast(x, done, d, s);
    }

    lemma RootInside(c: Ctx, t: Tree)
      requires Owns(c, t)
      ensures root != null ==> root in nodes
    {
      OuterInside(c, RootOf(t));
    }

    /** The last statement of VRBT_REMOVE_COLOR: `x`, if any, becomes black. */
    method PaintLast(x: Node?, ghost done: bool, ghost c: Ctx, ghost t: Tree) returns (ghost t': Tree)
      requires Owns(c, t)
      requires done ==> RB(t) && CtxRB(c, BH(t), IsRed(t)) && x == root
      requires !done ==> Short(c, t) && x == RootOf(t) && (c.Top? || IsRed(t))
      modifies (if x == null then {} else {x})`red
      ensures Owns(Top, t') && RB(t') && !IsRed(t') && InOrder(t') == Order(c, t)
    {
      ghost var d, s := c, t;
      if done {
        PlugRB(c, t);
        PlugInOrder(c, t);
        GoOut(c, t);
        d, s := Top, Plug(c, t);
        Look(d, s);
      } else {
        RemoveDone(c, t);
        PlugInOrder(c, Blacken(t));
      }
      if x != null {
        Paint(x, false, d, s);
      }
      GoOut(d, Blacken(s));
      t' := Plug(d, Blacken(s));
    }

    // ------------------------------------------------------------ VRBT_FIND, VRBT_NFIND

    /** The subtree in the hole is where a key belongs that lies between its neighbours. */
    ghost predicate Narrowed(c: Ctx, t: Tree, k: string)
      reads this, nodes
    {
      Owns(c, t) && Plug(c, t) == tree && AllLess(Before(c), k) && AllGreater(After(c), k)
    }

    /** The node with the wanted key, if there is one. */
    method Find(key: string) returns (tmp: Node?)
      requires Valid()
      ensures tmp != null ==> tmp in nodes && tmp.key == key
      ensures tmp == null ==> forall x <- nodes :: x.key != key
    {
      tmp := root;
      ghost var c, t := Top, tree;
      Look(c, t);
      while tmp != null
        invariant Narrowed(c, t, key) && tmp == RootOf(t)
        decreases t
      {
        Look(c, t);
        var comp := Strcmp(key, tmp.key);
        if comp < 0 {
          NarrowLeft(c, t, key);
          c, t := InL(c, t.node, t.red, t.right), t.left;
          tmp := tmp.left;
        } else if comp > 0 {
          NarrowRight(c, t, key);
          c, t := InR(c, t.node, t.red, t.left), t.right;
          tmp := tmp.right;
        } else {
          StrcmpZero(key, tmp.key);
          return;
        }
      }
      Nowhere(c, key);
    }

    /** An empty hole between smaller and greater keys: the key is not in the tree. */
    lemma Nowhere(c: Ctx, k: string)
      requires Narrowed(c, Leaf, k)
      ensures forall x <- nodes :: x.key != k
    {
      ContextNodes(c);
      forall x <- nodes ensures x.key != k { StrcmpZero(x.key, x.key); }
    }

    lemma NarrowLeft(c: Ctx, t: Tree, k: string)
      requires Valid() && Narrowed(c, t, k) && t.Bin? && Less(k, t.node.key)
      ensures Narrowed(InL(c, t.node, t.red, t.right), t.left, k)
    {
      GoLeft(c, t);
      SortedHere(c, t);
      GreaterAll(InOrder(t.right), t.node.key, k);
    }

    lemma NarrowRight(c: Ctx, t: Tree, k: string)
      requires Valid() && Narrowed(c, t, k) && t.Bin? && Strcmp(k, t.node.key) > 0
      ensures Narrowed(InR(c, t.node, t.red, t.left), t.right, k)
    {
      GoRight(c, t);
      SortedHere(c, t);
      StrcmpFlip(k, t.node.key);
      LessAll(InOrder(t.left), t.node.key, k);
    }

    lemma SortedHere(c: Ctx, t: Tree)
      requires Sorted(InOrder(tree)) && Plug(c, t) == tree && t.Bin?
      ensures AllLess(InOrder(t.left), t.node.key) && AllGreater(InOrder(t.right), t.node.key)
    {
      PlugInOrder(c, t);
      var a, b := Before(c) + InOrder(t.left), InOrder(t.right) + After(c);
      assert InOrder(tree) == a + [t.node] + b;
      SortedSplit(a, t.node, b);
    }

    /** The node with the least key not below the wanted one. */
    method NFind(key: string) returns (res: Node?)
      requires Valid()
      ensures res != null ==> res in nodes && !Less(res.key, key)
      ensures res != null ==> forall x <- nodes :: !Less(x.key, key) ==> !Less(x.key, res.key)
      ensures res == null ==> forall x <- nodes :: Less(x.key, key)
    {
      var tmp := root;
      res := null;
      ghost var c, t := Top, tree;
      Look(c, t);
      while tmp != null
        invariant Narrowed(c, t, key) && tmp == RootOf(t)
        invariant res == if After(c) == [] then null else After(c)[0]
        decreases t
      {
        Look(c, t);
        var comp := Strcmp(key, tmp.key);
        if comp < 0 {
          NarrowLeft(c, t, key);
          c, t := InL(c, t.node, t.red, t.right), t.left;
          res := tmp;
          tmp := tmp.left;
        } else if comp > 0 {
          NarrowRight(c, t, key);
          c, t := InR(c, t.node, t.red, t.left), t.right;
          tmp := tmp.right;
        } else {
          StrcmpZero(key, tmp.key);
          StrcmpZero(key, key);
          return tmp;
        }
      }
      HoleIndex(c);
      HoleNodes(c);
      Nearest(Before(c), After(c), key);
    }

    lemma Nearest(a: seq<Node>, b: seq<Node>, k: string)
      requires Sorted(a + b) && AllLess(a, k) && AllGreater(b, k)
      requires forall x <- nodes :: x in a || x in b
      ensures b == [] ==> forall x <- nodes :: Less(x.key, k)
      ensures b != [] ==> !Less(b[0].key, k) && forall x <- nodes :: !Less(x.key, k) ==> !Less(x.key, b[0].key)
    {
      if b != [] {
        FirstIsLeast(a, b, k);
        forall x <- nodes | !Less(x.key, k) ensures !Less(x.key, b[0].key) { assert x in a + b; }
      }
    }

    lemma HoleNodes(c: Ctx)
      requires Owns(c, Leaf)
      ensures forall x :: x in nodes <==> x in Before(c) || x in After(c)
    {
      ContextNodes(c);
      assert nodes == CtxNodes(c);
    }

    // ------------------------------------------------------------ VRBT_INSERT

    /** Links the new element into the empty hole of `c`: VRBT_SET and the parent's child link. */
    method LinkIn(elm: Node, parent: Node?, comp: int, ghost c: Ctx)
      requires Owns(c, Leaf) && elm !in nodes && parent == Par(c)
      requires (c.InL? ==> comp < 0) && (c.InR? ==> comp >= 0)
      modifies this`root, this`nodes, elm`left, elm`right, elm`parent, elm`red, nodes`left, nodes`right, nodes`parent, nodes`red
      ensures nodes == old(nodes) + {elm} && Owns(c, Bin(Leaf, elm, true, Leaf))
    {
      ghost var m := Snap();
      Look(c, Leaf);
      elm.parent := parent;
      elm.left, elm.right := null, null;
      elm.red := true;
      if parent != null {
        if comp < 0 {
          parent.left := elm;
        } else {
          parent.right := elm;
        }
      } else {
        root := elm;
      }
      nodes := nodes + {elm};
      LinkLeaf(m, Snap(), old(root), root, c, elm);
    }

    /** VRBT_INSERT once the place is found. */
    method Attach(elm: Node, parent: Node?, comp: int, ghost c: Ctx)
      requires Valid() && Narrowed(c, Leaf, elm.key) && elm !in nodes && parent == Par(c)
      requires (c.InL? ==> comp < 0) && (c.InR? ==> comp >= 0)
      modifies this, elm`left, elm`right, elm`parent, elm`red, nodes`left, nodes`right, nodes`parent, nodes`red
      ensures Valid() && nodes == old(nodes) + {elm}
      ensures Seq() == Before(c) + [elm] + After(c)
    {
      NewLeaf(c, elm);
      LinkIn(elm, parent, comp, c);
      tree := InsertColor(elm, c, Bin(Leaf, elm, true, Leaf));
    }

    /** The descent of VRBT_INSERT: either the node that has the key, or the place for it. */
    method Seek(key: string) returns (tmp: Node?, parent: Node?, comp: int, ghost c: Ctx)
      requires Valid()
      ensures tmp != null ==> tmp in nodes && tmp.key == key
      ensures tmp == null ==> Narrowed(c, Leaf, key) && parent == Par(c)
      ensures tmp == null ==> (c.InL? ==> comp < 0) && (c.InR? ==> comp > 0)
    {
      tmp := root;
      parent := null;
      comp := 0;
      c := Top;
      ghost var t := tree;
      Look(c, t);
      while tmp != null
        invariant Narrowed(c, t, key) && tmp == RootOf(t) && parent == Par(c)
        invariant (c.InL? ==> comp < 0) && (c.InR? ==> comp > 0)
        decreases t
      {
        Look(c, t);
        parent := tmp;
        comp := Strcmp(key, parent.key);
        if comp < 0 {
          NarrowLeft(c, t, key);
          c, t := InL(c, t.node, t.red, t.right), t.left;
          tmp := tmp.left;
        } else if comp > 0 {
          NarrowRight(c, t, key);
          c, t := InR(c, t.node, t.red, t.left), t.right;
          tmp := tmp.right;
        } else {
          StrcmpZero(key, tmp.key);
          return;
        }
      }
    }

    /** Inserts `elm` unless its key is taken; returns the node that has it, or null. */
    method Insert(elm: Node) returns (dup: Node?, ghost at: nat)
      requires Valid()
      modifies this, elm`left, elm`right, elm`parent, elm`red, nodes`left, nodes`right, nodes`parent, nodes`red
      ensures Valid()
      ensures dup != null ==> dup in old(nodes) && dup.key == elm.key
      ensures dup != null ==> nodes == old(nodes) && root == old(root) && tree == old(tree) && Snap() == old(Snap())
      ensures dup == null ==> nodes == old(nodes) + {elm} && forall x <- old(nodes) :: x.key != elm.key
      ensures dup == null ==> at <= |old(Seq())| && Seq() == old(Seq())[..at] + [elm] + old(Seq())[at..]
    {
      var parent, comp;
      ghost var c;
      dup, parent, comp, c := Seek(elm.key);
      at := 0;
      if dup == null {
        Nowhere(c, elm.key);
        HoleIndex(c);
        at := |Before(c)|;
        Attach(elm, parent, comp, c);
      }
    }

    // ------------------------------------------------------------ VRBT_REMOVE

    /** From the whole tree to a focus. */
    lemma GoIn(c: Ctx, t: Tree)
      requires Owns(Top, Plug(c, t))
      ensures Owns(c, t)
    {
      Whole(Snap(), root, c, t);
      PlugNodes(c, t);
    }

    method SpliceLinks(elm: Node, child: Node?, parent: Node?)
      requires parent != null ==> parent != elm && parent != child
      requires Opt(child) + Opt(parent) <= nodes
      modifies this`root, (if child == null then {} else {child})`parent
      modifies (if parent == null then {} else {parent})`left, (if parent == null then {} else {parent})`right
      ensures root == if parent == null then child else old(root)
      ensures var m, m' := old(Snap()), Snap();
        && Only(m, m', Opt(child) + Opt(parent))
        && (child != null ==> m'[child] == m[child].(parent := parent))
        && (parent != null ==> m'[parent] == Redirect(m[parent], elm, child))
    {
      if child != null {
        child.parent := parent;
      }
      ReplaceChild(parent, elm, child);
    }

    /** `elm`, which has no other child, gives way to `child`. */
    method Splice(elm: Node, child: Node?, parent: Node?, ghost c: Ctx, ghost t: Tree, ghost s: Tree)
      requires Owns(c, t) && t.Bin? && t.node == elm && child == RootOf(s) && parent == Par(c)
      requires (t.left.Leaf? && s == t.right) || (t.right.Leaf? && s == t.left)
      modifies this`root, (nodes - {elm})`left, (nodes - {elm})`right, (nodes - {elm})`parent, (nodes - {elm})`red
      ensures Linked(Snap(), root, c, s)
    {
      ghost var m := Snap();
      Look(c, t);
      Neighbours(m, root, c, t);
      SpliceLinks(elm, child, parent);
      CutLinks(m, Snap(), old(root), root, c, t, s);
    }

    /** Lets go of a node that is not linked any more. */
    ghost method Drop(elm: Node, c: Ctx, t: Tree)
      requires Linked(Snap(), root, c, t) && nodes == CtxNodes(c) + Nodes(t) + {elm} && elm !in CtxNodes(c) + Nodes(t)
      modifies this`nodes
      ensures nodes == old(nodes) - {elm} && Owns(c, t)
    {
      ghost var m := Snap();
      nodes := nodes - {elm};
      Unrelated(m, Snap(), root, c, t);
    }

    method CopyLinks(old': Node, elm: Node)
      requires {elm, old'} <= nodes && elm != old'
      modifies elm`left, elm`right, elm`parent, elm`red
      ensures Snap() == old(Snap())[elm := old(Snap())[old']]
    {
      elm.left, elm.right, elm.parent, elm.red := old'.left, old'.right, old'.parent, old'.red;
    }

    method TakePlaceLinks(old': Node, elm: Node)
      requires old'.left != null && elm != old' && elm != old'.left && elm != old'.right && elm != old'.parent
      requires {elm, old', old'.left} + Opt(old'.right) + Opt(old'.parent) <= nodes
      requires old'.left != old'.right && old'.left != old' && old'.right != old' && old'.parent != old'
      requires old'.parent != null ==> old'.parent != old'.left && old'.parent != old'.right
      modifies this`root, elm`left, elm`right, elm`parent, elm`red, old'.left`parent
      modifies (if old'.right == null then {} else {old'.right})`parent
      modifies (if old'.parent == null then {} else {old'.parent})`left, (if old'.parent == null then {} else {old'.parent})`right
      ensures root == if old(old'.parent) == null then elm else old(root)
      ensures var m, m', l, r, p := old(Snap()), Snap(), old(old'.left), old(old'.right), old(old'.parent);
        && Only(m, m', {elm, l} + Opt(r) + Opt(p))
        && m'[elm] == m[old']
        && m'[l] == m[l].(parent := elm)
        && (r != null ==> m'[r] == m[r].(parent := elm))
        && (p != null ==> m'[p] == Redirect(m[p], old', elm))
    {
      hide Snap;
      var left, right, parent := old'.left, old'.right, old'.parent;
      CopyLinks(old', elm);
      Repoint(parent, old', elm);
      Adopt(left, elm);
      Adopt(right, elm);
    }

    /** `elm` takes over the links, the colour and the neighbours of `old'`. */
    method TakePlace(old': Node, elm: Node, ghost c: Ctx, ghost t: Tree)
      requires Linked(Snap(), root, c, t) && nodes == CtxNodes(c) + Nodes(t) + {elm} && elm !in CtxNodes(c) + Nodes(t)
      requires t.Bin? && t.node == old' && t.left.Bin?
      modifies this`root, (nodes - {old'})`left, (nodes - {old'})`right, (nodes - {old'})`parent, (nodes - {old'})`red
      ensures Linked(Snap(), root, c, t.(node := elm))
    {
      ghost var m := Snap();
      Neighbours(m, root, c, t);
      Around(c, t);
      TakePlaceLinks(old', elm);
      Usurp(m, Snap(), old(root), root, c, t, elm);
    }

    /** `Look` for a structure that does not use all nodes. */
    lemma Around(c: Ctx, t: Tree)
      requires Linked(Snap(), root, c, t) && t.Bin?
      ensures t.node in nodes && t.node.parent == Par(c) && t.node.left == RootOf(t.left) && t.node.right == RootOf(t.right)
      ensures !c.Top? ==> c.node in nodes && (c.InL? ==> c.node.left == t.node) && (c.InR? ==> c.node.left != t.node)
    {
      var m := Snap();
      assert m[t.node] == Cell(t.node.left, t.node.right, t.node.parent, t.node.red);
      assert !c.Top? ==> c.node in m && m[c.node] == Cell(c.node.left, c.node.right, c.node.parent, c.node.red);
      assert c.InR? && c.left.Bin? ==> c.left.node in CtxNodes(c);
    }

    /** Down the left links: the first node of a subtree, in key order. */
    method LeftMost(from: Node, ghost c: Ctx, ghost t: Tree) returns (elm: Node, ghost inner: Ctx, ghost s: Tree)
      requires Owns(c, t) && t.Bin? && t.node == from
      ensures Owns(Extend(c, inner), s) && s.Bin? && s.node == elm && s.left.Leaf?
      ensures Plug(inner, s) == t && Before(inner) == []
    {
      elm, inner, s := from, Top, t;
      Look(c, t);
      while elm.left != null
        invariant Owns(Extend(c, inner), s) && s.Bin? && s.node == elm && elm.left == RootOf(s.left)
        invariant Plug(inner, s) == t && Before(inner) == []
        decreases s
      {
        GoLeft(Extend(c, inner), s);
        inner, s := InL(inner, s.node, s.red, s.right), s.left;
        elm := elm.left;
        Look(Extend(c, inner), s);
      }
    }

    /** The end of VRBT_REMOVE: a black node that went leaves its subtree one black node short. */
    method Settle(parent: Node?, child: Node?, color: bool, ghost c: Ctx, ghost s: Tree)
      requires Owns(c, s) && child == RootOf(s) && parent == Par(c) && Sorted(Order(c, s))
      requires color ==> RB(s) && CtxRB(c, BH(s), IsRed(s))
      requires !color ==> Short(c, s)
      modifies this`root, this`tree, nodes`left, nodes`right, nodes`parent, nodes`red
      ensures Valid() && Seq() == Order(c, s)
    {
      if !color {
        tree := RemoveColor(parent, child, c, s);
      } else {
        PlugRB(c, s);
        PlugInOrder(c, s);
        GoOut(c, s);
        tree := Plug(c, s);
      }
    }

    method SpliceOut(elm: Node, child: Node?, parent: Node?, ghost c: Ctx, ghost t: Tree, ghost s: Tree)
      requires Owns(c, t) && t.Bin? && t.node == elm && child == RootOf(s) && parent == Par(c)
      requires (t.left.Leaf? && s == t.right) || (t.right.Leaf? && s == t.left)
      modifies this`root, this`nodes, nodes`left, nodes`right, nodes`parent, nodes`red
      ensures Owns(c, s) && nodes == old(nodes) - {elm}
    {
      Splice(elm, child, parent, c, t, s);
      assert Nodes(t) == {elm} + Nodes(s);
      Drop(elm, c, s);
    }

    lemma CutFacts(c: Ctx, t: Tree, s: Tree)
      requires RB(tree) && !IsRed(tree) && Sorted(InOrder(tree)) && Plug(c, t) == tree && t.Bin?
      requires (t.left.Leaf? && s == t.right) || (t.right.Leaf? && s == t.left)
      ensures t.red ==> RB(s) && CtxRB(c, BH(s), IsRed(s))
      ensures !t.red ==> Short(c, s)
      ensures Sorted(Order(c, s)) && Order(c, s) == Ahead(c, t) + Behind(c, t)
    {
      CutOut(c, t, s);
      CutOrder(c, t, s);
    }

    /** VRBT_REMOVE of a node with at most one child. */
    method RemoveOuter(elm: Node, child: Node?, ghost c: Ctx, ghost t: Tree, ghost s: Tree)
      requires Valid() && Owns(c, t) && Plug(c, t) == tree && t.Bin? && t.node == elm && child == RootOf(s)
      requires (t.left.Leaf? && s == t.right) || (t.right.Leaf? && s == t.left)
      modifies this, nodes`left, nodes`right, nodes`parent, nodes`red
      ensures Valid() && nodes == old(nodes) - {elm} && Seq() == Ahead(c, t) + Behind(c, t)
    {
      Look(c, t);
      var parent := elm.parent;
      var color := elm.red;
      CutFacts(c, t, s);
      SpliceOut(elm, child, parent, c, t, s);
      Settle(parent, child, color, c, s);
    }

    /** The successor of a node with two children, taken out of its place below that node. */
    method Unhook(old': Node, elm: Node, parent: Node?, ghost c: Ctx, ghost t: Tree, ghost inner: Ctx, ghost s: Tree)
      requires Owns(c, t) && t.Bin? && t.node == old'
      requires s.Bin? && s.left.Leaf? && s.node == elm && Plug(inner, s) == t.right
      requires Owns(Extend(InR(c, old', t.red, t.left), inner), s)
      requires parent == Par(Extend(InR(c, old', t.red, t.left), inner))
      modifies this`root, (nodes - {elm})`left, (nodes - {elm})`right, (nodes - {elm})`parent, (nodes - {elm})`red
      ensures Linked(Snap(), root, c, t.(right := Plug(inner, s.right)))
    {
      ghost var o := InR(c, old', t.red, t.left);
      Look(Extend(o, inner), s);
      Splice(elm, elm.right, parent, Extend(o, inner), s, s.right);
      Reroot(Snap(), root, o, inner, s.right);
      Up(Snap(), root, o, Plug(inner, s.right));
    }

    /** The removed node gives its place to its successor. */
    method Promote(old': Node, elm: Node, ghost c: Ctx, ghost t: Tree)
      requires t.Bin? && t.node == old' && t.left.Bin?
      requires Linked(Snap(), root, c, t) && nodes == CtxNodes(c) + Nodes(t) + {elm} && elm !in CtxNodes(c) + Nodes(t)
      modifies this`root, this`nodes, (nodes - {old'})`left, (nodes - {old'})`right, (nodes - {old'})`parent, (nodes - {old'})`red
      ensures nodes == old(nodes) - {old'} && Owns(c, t.(node := elm))
    {
      TakePlace(old', elm, c, t);
      ghost var t' := t.(node := elm);
      assert Nodes(t') == {elm} + Nodes(t.left) + Nodes(t.right);
      assert nodes == CtxNodes(c) + Nodes(t') + {old'};
      Drop(old', c, t');
    }

    lemma GoDeep(o: Ctx, inner: Ctx, s: Tree)
      requires Owns(o, Plug(inner, s))
      ensures Owns(Extend(o, inner), s)
    {
      Reroot(Snap(), root, o, inner, s);
      PlugNodes(inner, s);
      ExtendNodes(o, inner);
    }

    /** VRBT_REMOVE of a node with two children. */
    method RemoveInner(old': Node, ghost c: Ctx, ghost t: Tree)
      requires Valid() && Owns(c, t) && Plug(c, t) == tree && t.Bin? && t.left.Bin? && t.right.Bin? && t.node == old'
      modifies this, nodes`left, nodes`right, nodes`parent, nodes`red
      ensures Valid() && nodes == old(nodes) - {old'} && Seq() == Ahead(c, t) + Behind(c, t)
    {
      hide InOrder, RB, CtxRB, Sorted, Short;
      Look(c, t);
      GoRight(c, t);
      ghost var o := InR(c, old', t.red, t.left);
      var elm; ghost var inner, s;
      elm, inner, s := LeftMost(old'.right, o, t.right);
      Look(Extend(o, inner), s);
      ExtendPar(o, inner);
      Successor(t, inner, s);
      PromoteOrder(c, t, inner, s);
      PromoteRB(c, t, inner, s);
      RemoveSuccessor(old', elm, c, t, inner, s);
    }

    /** All link changes of that case; `parent` is where the colour fix-up starts. */
    method Exchange(old': Node, elm: Node, ghost c: Ctx, ghost t: Tree, ghost inner: Ctx, ghost s: Tree)
        returns (parent: Node?)
      requires Owns(c, t) && t.Bin? && t.left.Bin? && t.node == old'
      requires s.Bin? && s.left.Leaf? && s.node == elm && Plug(inner, s) == t.right
      requires Owns(Extend(InR(c, old', t.red, t.left), inner), s)
      modifies this`root, this`nodes, nodes`left, nodes`right, nodes`parent, nodes`red
      ensures nodes == old(nodes) - {old'} && parent == Par(Extend(InR(c, elm, t.red, t.left), inner))
      ensures Owns(Extend(InR(c, elm, t.red, t.left), inner), s.right)
    {
      ghost var o, o' := InR(c, old', t.red, t.left), InR(c, elm, t.red, t.left);
      Successor(t, inner, s);
      Look(Extend(o, inner), s);
      ExtendPar(o, inner);
      ExtendPar(o', inner);
      parent := elm.parent;
      Unhook(old', elm, parent, c, t, inner, s);
      if elm.parent == old' {
        parent := elm;
      }
      ghost var t' := t.(right := Plug(inner, s.right));
      Promote(old', elm, c, t');
      GoRight(c, t'.(node := elm));
      GoDeep(o', inner, s.right);
    }

    method RemoveSuccessor(old': Node, elm: Node, ghost c: Ctx, ghost t: Tree, ghost inner: Ctx, ghost s: Tree)
      requires Owns(c, t) && t.Bin? && t.left.Bin? && t.node == old'
      requires s.Bin? && s.left.Leaf? && s.node == elm && Plug(inner, s) == t.right
      requires Owns(Extend(InR(c, old', t.red, t.left), inner), s)
      requires var d := Extend(InR(c, elm, t.red, t.left), inner);
        && (s.red ==> RB(s.right) && CtxRB(d, BH(s.right), IsRed(s.right))) && (!s.red ==> Short(d, s.right))
        && Sorted(Order(d, s.right))
      modifies this, nodes`left, nodes`right, nodes`parent, nodes`red
      ensures Valid() && nodes == old(nodes) - {old'}
      ensures Seq() == Order(Extend(InR(c, elm, t.red, t.left), inner), s.right)
    {
      Look(Extend(InR(c, old', t.red, t.left), inner), s);
      var child := elm.right;
      var color := elm.red;
      var parent := Exchange(old', elm, c, t, inner, s);
      Settle(parent, child, color, Extend(InR(c, elm, t.red, t.left), inner), s.right);
    }

    /** Unlinks `elm`. The other nodes are the same objects as before. */
    method Remove(elm: Node) returns (old': Node, ghost at: nat)
      requires Valid() && elm in nodes
      modifies this, nodes`left, nodes`right, nodes`parent, nodes`red
      ensures Valid() && old' == elm && nodes == old(nodes) - {elm}
      ensures at < |old(Seq())| && old(Seq())[at] == elm && Seq() == old(Seq())[..at] + old(Seq())[at + 1..]
    {
      old' := elm;
      ghost var c, t := Locate(Top, tree, elm);
      GoIn(c, t);
      Look(c, t);
      AheadBehind(c, t);
      at := |Ahead(c, t)|;
      if elm.left == null {
        RemoveOuter(elm, elm.right, c, t, t.right);
      } else if elm.right == null {
        RemoveOuter(elm, elm.left, c, t, t.left);
      } else {
        RemoveInner(elm, c, t);
      }
    }

    lemma OneKeyEach()
      requires Valid()
      ensures forall x, y :: x in nodes && y in nodes && x.key == y.key ==> x == y
    {
      InOrderNodes(tree);
      forall x, y | x in nodes && y in nodes && x.key == y.key ensures x == y {
        var i :| 0 <= i < |Seq()| && Seq()[i] == x;
        var j :| 0 <= j < |Seq()| && Seq()[j] == y;
        StrcmpZero(x.key, y.key);
        StrcmpFlip(x.key, y.key);
      }
    }
  }
}
