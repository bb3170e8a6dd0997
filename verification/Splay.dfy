/**
 VSPLAY_* of src/vtree.h on linked nodes: top-down splaying, and insertion and removal on top of it.
*/
module Splay {
  import opened CString
  import opened SplayShape

  ghost predicate Sorted(s: seq<Elm>) {
    forall i, j :: 0 <= i < j < |s| ==> Less(s[i].key, s[j].key)
  }

  ghost predicate AllLess(s: seq<Elm>, key: string) {
    forall x <- s :: Less(x.key, key)
  }

  ghost predicate AllGreater(s: seq<Elm>, key: string) {
    forall x <- s :: Less(key, x.key)
  }

  ghost function Elms(s: seq<Elm>): set<Elm> {
    set x | x in s
  }

  ghost function Snap(s: set<Elm>): (m: Links)
    reads s
    ensures m.Keys == s
  {
    map x | x in s :: Link(x.left, x.right)
  }

  method SetLeft(x: Elm, y: Elm?, ghost s: set<Elm>)
    requires x in s
    modifies x`left
    ensures Snap(s) == old(Snap(s))[x := old(Snap(s))[x].(left := y)]
  {
    x.left := y;
  }

  method SetRight(x: Elm, y: Elm?, ghost s: set<Elm>)
    requires x in s
    modifies x`right
    ensures Snap(s) == old(Snap(s))[x := old(Snap(s))[x].(right := y)]
  {
    x.right := y;
  }

  lemma AtNode(s: set<Elm>, x: Elm)
    requires x in s
    ensures Snap(s)[x] == Link(x.left, x.right)
  {
  }

  /** The root has the key, or comes next to where it would be. */
  ghost predicate Near(t: Tree, key: string) {
    t.Fork? && (
      || t.node.key == key
      || (Less(key, t.node.key) && AllLess(Order(t.left), key))
      || (Less(t.node.key, key) && AllGreater(Order(t.right), key)))
  }

  /** The nodes on their rims are on the right sides of the key. */
  ghost predicate Parted(ls: seq<Spur>, rs: seq<Spur>, key: string) {
    AllLess(OrderL(ls), key) && AllGreater(OrderR(rs), key)
  }

  /** The loop can stop: the root has the key, or there is no node on the side of the key. */
  ghost predicate Settled(t: Tree, key: string) {
    t.Fork? && (
      || t.node.key == key
      || (Less(key, t.node.key) && t.left.Nil?)
      || (Less(t.node.key, key) && t.right.Nil?))
  }

  ghost function Size(t: Tree): nat {
    if t.Nil? then 0 else Size(t.left) + 1 + Size(t.right)
  }

  class Heap {
    var root: Elm?
    ghost var nodes: set<Elm>
    ghost var tree: Tree

    constructor ()
      ensures Valid() && nodes == {} && Order(tree) == []
    {
      root, nodes, tree := null, {}, Nil;
    }

    /** A search tree of exactly the nodes. */
    ghost predicate Valid()
      reads this, nodes
    {
      && root == Root(tree) && In(Snap(nodes), tree) && NoDup(Order(tree))
      && Elms(Order(tree)) == nodes && Sorted(Order(tree))
    }

    lemma OnTop(m: Links, t: Tree)
      requires In(m, t) && t.Fork?
      ensures t.node in Elms(Order(t)) && m[t.node] == Link(Root(t.left), Root(t.right))
    {
    }

    lemma OnTopLeft(m: Links, t: Tree)
      requires In(m, t) && t.Fork? && t.left.Fork? && NoDup(Order(t))
      ensures t.left.node in Elms(Order(t)) && t.left.node in m && t.left.node != t.node
      ensures m[t.left.node] == Link(Root(t.left.left), Root(t.left.right))
    {
      assert t.left.node in Order(t.left);
      assert Order(t) == Order(t.left) + ([t.node] + Order(t.right)) && t.node in [t.node] + Order(t.right);
      NoDupParts(Order(t.left), [t.node] + Order(t.right));
    }

    lemma OnTopRight(m: Links, t: Tree)
      requires In(m, t) && t.Fork? && t.right.Fork? && NoDup(Order(t))
      ensures t.right.node in Elms(Order(t)) && t.right.node in m && t.right.node != t.node
      ensures m[t.right.node] == Link(Root(t.right.left), Root(t.right.right))
    {
      assert t.right.node in Order(t.right) && t.node in Order(t.left) + [t.node];
      NoDupParts(Order(t.left) + [t.node], Order(t.right));
    }

    /** VSPLAY_ROTATE_RIGHT */
    method RotateUpLeft(tmp: Elm, h: Elm, left: Elm, right: Elm,
                        ghost ls: seq<Spur>, ghost t: Tree, ghost rs: seq<Spur>, ghost s: set<Elm>)
      requires Mid(Snap(s), root, h, left, right, ls, t, rs) && t.left.Fork? && tmp == t.left.node
      requires Elms(Order(t)) <= s
      modifies this`root, s`left, s`right
      ensures Mid(Snap(s), root, h, left, right, ls, RotR(t), rs) && Order(RotR(t)) == Order(t)
    {
      hide Mid, Snap;
      Unfold(Snap(s), root, h, left, right, ls, t, rs);
      Ends(Snap(s), root, h, left, right, ls, t, rs);
      OnTop(Snap(s), t);
      OnTopLeft(Snap(s), t);
      AtNode(s, t.node);
      AtNode(s, t.left.node);
      RotateRight(Snap(s), h, left, right, ls, t, rs);
      SetLeft(root, tmp.right, s);
      SetRight(tmp, root, s);
      root := tmp;
    }

    /** VSPLAY_ROTATE_LEFT */
    method RotateUpRight(tmp: Elm, h: Elm, left: Elm, right: Elm,
                         ghost ls: seq<Spur>, ghost t: Tree, ghost rs: seq<Spur>, ghost s: set<Elm>)
      requires Mid(Snap(s), root, h, left, right, ls, t, rs) && t.right.Fork? && tmp == t.right.node
      requires Elms(Order(t)) <= s
      modifies this`root, s`left, s`right
      ensures Mid(Snap(s), root, h, left, right, ls, RotL(t), rs) && Order(RotL(t)) == Order(t)
    {
      hide Mid, Snap;
      Unfold(Snap(s), root, h, left, right, ls, t, rs);
      Ends(Snap(s), root, h, left, right, ls, t, rs);
      OnTop(Snap(s), t);
      OnTopRight(Snap(s), t);
      AtNode(s, t.node);
      AtNode(s, t.right.node);
      RotateLeft(Snap(s), h, left, right, ls, t, rs);
      SetRight(root, tmp.left, s);
      SetLeft(tmp, root, s);
      root := tmp;
    }

    /** VSPLAY_LINKLEFT: the root goes to the greater nodes, and its left child is the new root. */
    method Hang(h: Elm, left: Elm, right: Elm, ghost ls: seq<Spur>, ghost t: Tree, ghost rs: seq<Spur>, ghost s: set<Elm>)
      returns (end: Elm)
      requires Mid(Snap(s), root, h, left, right, ls, t, rs) && t.left.Fork? && Elms(Order(t)) <= s
      modifies this`root, s`left
      ensures end == t.node && Mid(Snap(s), root, h, left, end, ls, t.left, rs + [Spur(t.node, t.right)])
      ensures Whole(ls, t.left, rs + [Spur(t.node, t.right)]) == Whole(ls, t, rs)
    {
      hide Mid, Snap;
      Unfold(Snap(s), root, h, left, right, ls, t, rs);
      Ends(Snap(s), root, h, left, right, ls, t, rs);
      OnTop(Snap(s), t);
      AtNode(s, t.node);
      LinkLeft(Snap(s), h, left, right, ls, t, rs);
      SetLeft(right, root, s);
      end := root;
      assert right != root;
      root := root.left;
    }

    /** VSPLAY_LINKRIGHT */
    method HangRight(h: Elm, left: Elm, right: Elm, ghost ls: seq<Spur>, ghost t: Tree, ghost rs: seq<Spur>, ghost s: set<Elm>)
      returns (end: Elm)
      requires Mid(Snap(s), root, h, left, right, ls, t, rs) && t.right.Fork? && Elms(Order(t)) <= s
      modifies this`root, s`right
      ensures end == t.node && Mid(Snap(s), root, h, end, right, ls + [Spur(t.node, t.left)], t.right, rs)
      ensures Whole(ls + [Spur(t.node, t.left)], t.right, rs) == Whole(ls, t, rs)
    {
      hide Mid, Snap;
      Unfold(Snap(s), root, h, left, right, ls, t, rs);
      Ends(Snap(s), root, h, left, right, ls, t, rs);
      OnTop(Snap(s), t);
      AtNode(s, t.node);
      LinkRight(Snap(s), h, left, right, ls, t, rs);
      SetRight(left, root, s);
      end := root;
      assert left != root;
      root := root.right;
    }

    /** VSPLAY_ASSEMBLE */
    method Join(h: Elm, left: Elm, right: Elm, ghost ls: seq<Spur>, ghost t: Tree, ghost rs: seq<Spur>, ghost s: set<Elm>)
      requires Mid(Snap(s), root, h, left, right, ls, t, rs) && Elms(Order(t)) <= s
      modifies s`left, s`right
      ensures In(Snap(s), Assembled(ls, t, rs)) && Root(Assembled(ls, t, rs)) == root
    {
      hide Mid, Snap, TreeL, TreeR, Whole;
      Unfold(Snap(s), root, h, left, right, ls, t, rs);
      AssembledOrder(ls, t, rs);
      FinishSides(h, left, right, ls, t, rs, s);
      ghost var m := Snap(s);
      AtNode(s, h);
      SetLeft(root, h.right, s);
      SetRight(root, h.left, s);
      Apex(m, Snap(s), h, ls, t, rs);
    }

    method FinishSides(h: Elm, left: Elm, right: Elm, ghost ls: seq<Spur>, ghost t: Tree, ghost rs: seq<Spur>, ghost s: set<Elm>)
      requires Mid(Snap(s), root, h, left, right, ls, t, rs) && Elms(Order(t)) <= s
      modifies s`left, s`right
      ensures h in s && h != root && root != null && root in s
      ensures var m := Snap(s);
        && m[h] == Link(Root(TreeR(rs, t.right)), Root(TreeL(ls, t.left)))
        && In(m, TreeL(ls, t.left)) && In(m, TreeR(rs, t.right))
    {
      hide Mid, Snap, TreeL, TreeR, Whole;
      Unfold(Snap(s), root, h, left, right, ls, t, rs);
      Ends(Snap(s), root, h, left, right, ls, t, rs);
      OnTop(Snap(s), t);
      AtNode(s, t.node);
      Assemble(Snap(s), h, left, right, ls, t, rs);
      SetRight(left, root.left, s);
      SetLeft(right, root.right, s);
    }

    lemma Apex(m: Links, n: Links, h: Elm, ls: seq<Spur>, t: Tree, rs: seq<Spur>)
      requires t.Fork? && In(m, TreeL(ls, t.left)) && In(m, TreeR(rs, t.right)) && t.node in m
      requires n == m[t.node := Link(Root(TreeL(ls, t.left)), Root(TreeR(rs, t.right)))]
      requires NoDup(Order(Assembled(ls, t, rs)))
      ensures In(n, Assembled(ls, t, rs))
    {
      var a, c := TreeL(ls, t.left), TreeR(rs, t.right);
      assert Order(Assembled(ls, t, rs)) == Order(a) + ([t.node] + Order(c));
      NoDupParts(Order(a), [t.node] + Order(c));
      NoDupParts([t.node], Order(c));
      assert t.node in [t.node];
      FrameTree(m, n, a);
      FrameTree(m, n, c);
    }
  
    lemma Begin(nodes: set<Elm>, h: Elm, t: Tree, key: string)
      requires t.Fork? && In(Snap(nodes), t) && NoDup(Order(t)) && Elms(Order(t)) == nodes && h !in nodes
      ensures Mid(Snap(nodes + {h}), t.node, h, h, h, [], t, []) && Whole([], t, []) == Order(t) && Parted([], [], key)
    {
      assert Whole([], t, []) == Order(t);
      assert h !in Order(t);
      FrameTree(Snap(nodes), Snap(nodes + {h}), t);
    }

    /** What the loop sees at the root. */
    lemma Look(s: set<Elm>, h: Elm, left: Elm, right: Elm, ls: seq<Spur>, t: Tree, rs: seq<Spur>)
      requires Mid(Snap(s), root, h, left, right, ls, t, rs) && Elms(Whole(ls, t, rs)) <= s
      ensures t.Fork? && root == t.node && root in s && Elms(Order(t)) <= s
      ensures root.left == Root(t.left) && root.right == Root(t.right)
    {
      assert forall x <- Order(t) :: x in Whole(ls, t, rs);
      OnTop(Snap(s), t);
      AtNode(s, t.node);
    }

    lemma SameWhole(ls: seq<Spur>, a: Tree, b: Tree, rs: seq<Spur>)
      requires Order(a) == Order(b)
      ensures Whole(ls, a, rs) == Whole(ls, b, rs)
    {
    }

    lemma Behind(s: seq<Elm>, a: seq<Elm>, y: Elm, c: seq<Elm>)
      requires s == a + [y] + c && Sorted(s)
      ensures AllLess(a, y.key) && AllGreater(c, y.key)
    {
      forall x <- a ensures Less(x.key, y.key) {
        var i :| 0 <= i < |a| && a[i] == x;
        assert s[i] == x && s[|a|] == y;
      }
      forall x <- c ensures Less(y.key, x.key) {
        var i :| 0 <= i < |c| && c[i] == x;
        assert s[|a| + 1 + i] == x && s[|a|] == y;
      }
    }

    lemma Around(ls: seq<Spur>, t: Tree, rs: seq<Spur>)
      requires t.Fork?
      ensures Whole(ls, t, rs) == (OrderL(ls) + Order(t.left)) + [t.node] + (Order(t.right) + OrderR(rs))
    {
    }

    /** A root behind the key goes to the greater nodes, with all behind it. */
    lemma PartRight(ls: seq<Spur>, t: Tree, rs: seq<Spur>, key: string)
      requires t.Fork? && Sorted(Whole(ls, t, rs)) && Parted(ls, rs, key) && Less(key, t.node.key)
      ensures Parted(ls, rs + [Spur(t.node, t.right)], key)
    {
      hide Whole, Order, Sorted;
      Around(ls, t, rs);
      PushOrderR(rs, Spur(t.node, t.right));
      Behind(Whole(ls, t, rs), OrderL(ls) + Order(t.left), t.node, Order(t.right) + OrderR(rs));
      forall x <- Order(t.right) ensures Less(key, x.key) {
        assert x in Order(t.right) + OrderR(rs);
        LessTrans(key, t.node.key, x.key);
      }
    }

    lemma PartLeft(ls: seq<Spur>, t: Tree, rs: seq<Spur>, key: string)
      requires t.Fork? && Sorted(Whole(ls, t, rs)) && Parted(ls, rs, key) && Less(t.node.key, key)
      ensures Parted(ls + [Spur(t.node, t.left)], rs, key)
    {
      hide Whole, Order, Sorted;
      Around(ls, t, rs);
      PushOrderL(ls, Spur(t.node, t.left));
      Behind(Whole(ls, t, rs), OrderL(ls) + Order(t.left), t.node, Order(t.right) + OrderR(rs));
      forall x <- Order(t.left) ensures Less(x.key, key) {
        assert x in OrderL(ls) + Order(t.left);
        LessTrans(x.key, t.node.key, key);
      }
    }

    lemma EndsNear(ls: seq<Spur>, t: Tree, rs: seq<Spur>, key: string)
      requires Settled(t, key) && Parted(ls, rs, key)
      ensures Near(Assembled(ls, t, rs), key)
    {
      AssembledOrder(ls, t, rs);
    }

    lemma Compared(key: string, x: Elm)
      ensures Strcmp(key, x.key) == 0 <==> key == x.key
      ensures Strcmp(key, x.key) < 0 ==> Less(key, x.key)
      ensures Strcmp(key, x.key) > 0 ==> Less(x.key, key)
    {
      StrcmpZero(key, x.key);
      StrcmpFlip(key, x.key);
    }

    lemma Sizes(t: Tree)
      requires t.Fork?
      ensures Size(t.left) < Size(t) && Size(t.right) < Size(t)
      ensures t.left.Fork? ==> Size(RotR(t)) == Size(t)
      ensures t.right.Fork? ==> Size(RotL(t)) == Size(t)
    {
    }

    /** The key is before the root: the loop body on that side, and whether it breaks out of the loop. */
    method GoLeft(key: string, h: Elm, left: Elm, right: Elm, ghost ls: seq<Spur>, ghost t: Tree, ghost rs: seq<Spur>,
                  ghost s: set<Elm>, ghost whole: seq<Elm>)
      returns (stop: bool, last: Elm, ghost u: Tree, ghost us: seq<Spur>)
      requires Mid(Snap(s), root, h, left, right, ls, t, rs) && Whole(ls, t, rs) == whole && Elms(whole) <= s
      requires Sorted(whole) && root != null && Less(key, root.key) && Parted(ls, rs, key)
      modifies this`root, s`left, s`right
      ensures Mid(Snap(s), root, h, left, last, ls, u, us) && Whole(ls, u, us) == whole && Parted(ls, us, key)
      ensures root != null && if stop then Settled(u, key) else Size(u) < Size(t)
    {
      hide Mid, Snap, Whole, Parted, Order, NoDup, Sorted, In, Size, Near, Elms;
      stop, last, u, us := true, right, t, rs;
      Look(s, h, left, right, ls, t, rs);
      var tmp := root.left;
      if tmp == null {
        return;
      }
      Compared(key, tmp);
      Sizes(t);
      if Strcmp(key, tmp.key) < 0 {
        RotateUpLeft(tmp, h, left, right, ls, t, rs, s);
        u := RotR(t);
        SameWhole(ls, t, u, rs);
        Look(s, h, left, right, ls, u, rs);
        if root.left == null {
          return;
        }
        Sizes(u);
      }
      PartRight(ls, u, rs, key);
      last := Hang(h, left, right, ls, u, rs, s);
      stop, u, us := false, u.left, rs + [Spur(u.node, u.right)];
      Look(s, h, left, last, ls, u, us);
    }

    /** The key is behind the root. */
    method GoRight(key: string, h: Elm, left: Elm, right: Elm, ghost ls: seq<Spur>, ghost t: Tree, ghost rs: seq<Spur>,
                   ghost s: set<Elm>, ghost whole: seq<Elm>)
      returns (stop: bool, last: Elm, ghost u: Tree, ghost us: seq<Spur>)
      requires Mid(Snap(s), root, h, left, right, ls, t, rs) && Whole(ls, t, rs) == whole && Elms(whole) <= s
      requires Sorted(whole) && root != null && Less(root.key, key) && Parted(ls, rs, key)
      modifies this`root, s`left, s`right
      ensures Mid(Snap(s), root, h, last, right, us, u, rs) && Whole(us, u, rs) == whole && Parted(us, rs, key)
      ensures root != null && if stop then Settled(u, key) else Size(u) < Size(t)
    {
      hide Mid, Snap, Whole, Parted, Order, NoDup, Sorted, In, Size, Near, Elms;
      stop, last, u, us := true, left, t, ls;
      Look(s, h, left, right, ls, t, rs);
      var tmp := root.right;
      if tmp == null {
        return;
      }
      Compared(key, tmp);
      Sizes(t);
      if Strcmp(key, tmp.key) > 0 {
        RotateUpRight(tmp, h, left, right, ls, t, rs, s);
        u := RotL(t);
        SameWhole(ls, t, u, rs);
        Look(s, h, left, right, ls, u, rs);
        if root.right == null {
          return;
        }
        Sizes(u);
      }
      PartLeft(ls, u, rs, key);
      last := HangRight(h, left, right, ls, u, rs, s);
      stop, u, us := false, u.right, ls + [Spur(u.node, u.left)];
      Look(s, h, last, right, us, u, rs);
    }

    /** VSPLAY: the node with the key, or one next to where it would be, comes to the top. */
    method Splay(key: string)
      requires Valid() && root != null
      modifies this`root, this`tree, nodes`left, nodes`right
      ensures Valid() && root != null && Order(tree) == old(Order(tree)) && Near(tree, key)
    {
      hide Mid, Snap, Whole, Parted, Order, NoDup, Sorted, In, Size, Near, Elms, Settled;
      var h := new Elm("");
      ghost var s, whole := nodes + {h}, Order(tree);
      ghost var ls: seq<Spur>, t, rs: seq<Spur> := [], tree, [];
      var left, right := h, h;
      Begin(nodes, h, tree, key);
      var comp := Strcmp(key, root.key);
      var stop := false;
      while comp != 0 && !stop
        invariant Mid(Snap(s), root, h, left, right, ls, t, rs) && Whole(ls, t, rs) == whole
        invariant root != null && comp == Strcmp(key, root.key) && Parted(ls, rs, key)
        invariant stop ==> Settled(t, key)
        decreases !stop, Size(t)
      {
        Compared(key, root);
        if comp < 0 {
          stop, right, t, rs := GoLeft(key, h, left, right, ls, t, rs, s, whole);
        } else {
          stop, left, t, ls := GoRight(key, h, left, right, ls, t, rs, s, whole);
        }
        comp := Strcmp(key, root.key);
      }
      Look(s, h, left, right, ls, t, rs);
      FoundSettles(t, key);
      EndsNear(ls, t, rs, key);
      Join(h, left, right, ls, t, rs, s);
      AssembledOrder(ls, t, rs);
      tree := Assembled(ls, t, rs);
      Smaller(nodes, h, tree);
    }

    lemma FoundSettles(t: Tree, key: string)
      requires t.Fork?
      ensures Strcmp(key, t.node.key) == 0 ==> Settled(t, key)
    {
      StrcmpZero(key, t.node.key);
    }

    lemma Smaller(nodes: set<Elm>, h: Elm, t: Tree)
      requires In(Snap(nodes + {h}), t) && Elms(Order(t)) <= nodes
      ensures In(Snap(nodes), t)
    {
      FrameTree(Snap(nodes + {h}), Snap(nodes), t);
    }
  
    // ------------------------------------------------------------ on top of splaying

    /** If the key is anywhere, it is at the root. */
    lemma NearFinds(t: Tree, key: string)
      requires Near(t, key) && Sorted(Order(t)) && t.node.key != key
      ensures forall x <- Order(t) :: x.key != key
    {
      Behind(Order(t), Order(t.left), t.node, Order(t.right));
      forall x <- Order(t) ensures x.key != key {
        StrcmpZero(x.key, key);
        StrcmpFlip(x.key, key);
        if x in Order(t.left) && Less(t.node.key, key) {
          LessTrans(x.key, t.node.key, key);
        } else if x in Order(t.right) && Less(key, t.node.key) {
          LessTrans(key, t.node.key, x.key);
        }
      }
    }

    /** VSPLAY_FIND */
    method Find(key: string) returns (tmp: Elm?)
      requires Valid()
      modifies this`root, this`tree, nodes`left, nodes`right
      ensures Valid() && Order(tree) == old(Order(tree))
      ensures if tmp != null then tmp in nodes && tmp.key == key else forall x <- nodes :: x.key != key
    {
      if root == null {
        return null;
      }
      Splay(key);
      StrcmpZero(key, root.key);
      assert root in Order(tree);
      if Strcmp(key, root.key) == 0 {
        return root;
      }
      NearFinds(tree, key);
      tmp := null;
    }

    lemma SortedInsert(a: seq<Elm>, x: Elm, b: seq<Elm>)
      requires Sorted(a + b) && AllLess(a, x.key) && AllGreater(b, x.key)
      ensures Sorted(a + [x] + b)
    {
      var s := a + [x] + b;
      forall i, j | 0 <= i < j < |s| ensures Less(s[i].key, s[j].key) {
        if i == |a| {
          assert s[j] == b[j - |a| - 1];
        } else if j == |a| {
          assert s[i] == a[i];
        } else {
          assert s[i] == (a + b)[if i < |a| then i else i - 1] && s[j] == (a + b)[if j < |a| then j else j - 1];
        }
      }
    }

    lemma NoDupInsert(a: seq<Elm>, x: Elm, b: seq<Elm>)
      requires NoDup(a + b) && x !in a + b
      ensures NoDup(a + [x] + b) && Elms(a + [x] + b) == Elms(a + b) + {x}
    {
      var s := a + [x] + b;
      forall i, j | 0 <= i < j < |s| ensures s[i] != s[j] {
        if i != |a| && j != |a| {
          assert s[i] == (a + b)[if i < |a| then i else i - 1] && s[j] == (a + b)[if j < |a| then j else j - 1];
        } else if i == |a| {
          assert s[j] == b[j - |a| - 1] && s[j] in a + b;
        } else {
          assert s[i] == a[i] && s[i] in a + b;
        }
      }
    }

    lemma RootKeys(key: string)
      requires Valid() && root != null
      ensures Less(key, root.key) ==> AllGreater([root] + Order(tree.right), key)
      ensures Less(root.key, key) ==> AllLess(Order(tree.left) + [root], key)
    {
      Behind(Order(tree), Order(tree.left), root, Order(tree.right));
      forall x <- Order(tree.right) | Less(key, root.key) ensures Less(key, x.key) {
        LessTrans(key, root.key, x.key);
      }
      forall x <- Order(tree.left) | Less(root.key, key) ensures Less(x.key, key) {
        LessTrans(x.key, root.key, key);
      }
    }

    /** A new node on top of a root that comes behind it. */
    method PutBefore(elm: Elm)
      requires Valid() && root != null && elm !in nodes && Less(elm.key, root.key) && AllLess(Order(tree.left), elm.key)
      modifies this, elm`left, elm`right, root`left
      ensures Valid() && nodes == old(nodes) + {elm}
      ensures Order(tree) == Order(old(tree).left) + [elm] + ([old(root)] + Order(old(tree).right))
    {
      hide Sorted, NoDup, Elms, Order, In, Snap;
      ghost var t, m := tree, Snap(nodes);
      RootKeys(elm.key);
      TopNode();
      OldNodes();
      SortedInsert(Order(t.left), elm, [t.node] + Order(t.right));
      NoDupInsert(Order(t.left), elm, [t.node] + Order(t.right));
      OnTop(m, t);
      AtNode(nodes, t.node);
      ghost var s := nodes + {elm};
      SnapMore(nodes, elm);
      SetLeft(elm, root.left, s);
      SetRight(elm, root, s);
      SetLeft(root, null, s);
      BeforeIn(m, Snap(s), t, elm);
      tree, nodes := Fork(t.left, elm, Fork(Nil, t.node, t.right)), s;
      root := elm;
    }

    lemma BeforeIn(m: Links, n: Links, t: Tree, elm: Elm)
      requires In(m, t) && t.Fork? && NoDup(Order(t)) && elm !in Order(t) && t.node in n && elm in n
      requires n[elm] == Link(Root(t.left), t.node) && n[t.node] == Link(null, Root(t.right))
      requires forall x <- m :: x in n && (x == elm || x == t.node || n[x] == m[x])
      ensures var u := Fork(t.left, elm, Fork(Nil, t.node, t.right));
        In(n, u) && Order(u) == Order(t.left) + [elm] + ([t.node] + Order(t.right))
    {
      var v := Fork(Nil, t.node, t.right);
      assert Order(v) == [t.node] + Order(t.right);
      RootApart(t);
      assert forall x <- Order(t.left) + Order(t.right) :: x in Order(t);
      FrameTree(m, n, t.left);
      FrameTree(m, n, t.right);
    }

    lemma SnapMore(s: set<Elm>, x: Elm)
      ensures Snap(s + {x}) == Snap(s)[x := Link(x.left, x.right)]
    {
    }

    method PutBehind(elm: Elm)
      requires Valid() && root != null && elm !in nodes && Less(root.key, elm.key) && AllGreater(Order(tree.right), elm.key)
      modifies this, elm`left, elm`right, root`right
      ensures Valid() && nodes == old(nodes) + {elm}
      ensures Order(tree) == (Order(old(tree).left) + [old(root)]) + [elm] + Order(old(tree).right)
    {
      hide Sorted, NoDup, Elms, Order, In, Snap;
      ghost var t, m := tree, Snap(nodes);
      RootKeys(elm.key);
      TopNode();
      OldNodes();
      SortedInsert(Order(t.left) + [t.node], elm, Order(t.right));
      NoDupInsert(Order(t.left) + [t.node], elm, Order(t.right));
      OnTop(m, t);
      AtNode(nodes, t.node);
      ghost var s := nodes + {elm};
      SnapMore(nodes, elm);
      SetRight(elm, root.right, s);
      SetLeft(elm, root, s);
      SetRight(root, null, s);
      BehindIn(m, Snap(s), t, elm);
      tree, nodes := Fork(Fork(t.left, t.node, Nil), elm, t.right), s;
      root := elm;
    }

    lemma BehindIn(m: Links, n: Links, t: Tree, elm: Elm)
      requires In(m, t) && t.Fork? && NoDup(Order(t)) && elm !in Order(t) && t.node in n && elm in n
      requires n[elm] == Link(t.node, Root(t.right)) && n[t.node] == Link(Root(t.left), null)
      requires forall x <- m :: x in n && (x == elm || x == t.node || n[x] == m[x])
      ensures var u := Fork(Fork(t.left, t.node, Nil), elm, t.right);
        In(n, u) && Order(u) == (Order(t.left) + [t.node]) + [elm] + Order(t.right)
    {
      var v := Fork(t.left, t.node, Nil);
      assert Order(v) == Order(t.left) + [t.node];
      RootApart(t);
      assert forall x <- Order(t.left) + Order(t.right) :: x in Order(t);
      FrameTree(m, n, t.left);
      FrameTree(m, n, t.right);
    }

    lemma OldNodes()
      requires Valid()
      ensures NoDup(Order(tree)) && Elms(Order(tree)) == nodes && In(Snap(nodes), tree) && Sorted(Order(tree))
      ensures forall x <- Order(tree) :: x in nodes
    {
    }

    lemma RootApart(t: Tree)
      requires t.Fork? && NoDup(Order(t))
      ensures t.node !in Order(t.left) && t.node !in Order(t.right)
    {
      NoDupParts(Order(t.left) + [t.node], Order(t.right));
      NoDupParts(Order(t.left), [t.node]);
      assert t.node in Order(t.left) + [t.node] && t.node in [t.node];
    }

    /** VSPLAY_INSERT */
    method Insert(elm: Elm) returns (dup: Elm?, ghost at: nat)
      requires Valid()
      modifies this, elm`left, elm`right, nodes`left, nodes`right
      ensures Valid()
      ensures dup != null ==> dup in nodes && dup.key == elm.key && nodes == old(nodes) && Order(tree) == old(Order(tree))
      ensures dup == null ==> nodes == old(nodes) + {elm} && forall x <- old(nodes) :: x.key != elm.key
      ensures dup == null ==> at <= |old(Order(tree))|
      ensures dup == null ==> Order(tree) == old(Order(tree))[..at] + [elm] + old(Order(tree))[at..]
    {
      at := 0;
      dup := null;
      if root == null {
        First(elm);
      } else {
        Splay(elm.key);
        Compared(elm.key, root);
        TopNode();
        var comp := Strcmp(elm.key, root.key);
        if comp == 0 {
          return root, 0;
        }
        NotThere(elm);
        if comp < 0 {
          at := |Order(tree.left)|;
          PutBefore(elm);
        } else {
          at := |Order(tree.left)| + 1;
          PutBehind(elm);
        }
      }
    }

    method First(elm: Elm)
      requires Valid() && root == null
      modifies this, elm`left, elm`right
      ensures Valid() && nodes == {elm} && Order(tree) == [elm] && old(nodes) == {} && old(Order(tree)) == []
    {
      elm.left, elm.right := null, null;
      root, nodes, tree := elm, {elm}, Fork(Nil, elm, Nil);
      assert Order(tree) == [elm];
    }

    lemma TopNode()
      requires Valid() && root != null
      ensures root in nodes && tree.Fork? && root == tree.node
      ensures Order(tree) == Order(tree.left) + ([root] + Order(tree.right))
      ensures Order(tree) == (Order(tree.left) + [root]) + Order(tree.right)
    {
      assert root in Order(tree);
    }

    lemma NotThere(elm: Elm)
      requires Valid() && Near(tree, elm.key) && tree.node.key != elm.key
      ensures elm !in nodes && forall x <- nodes :: x.key != elm.key
      ensures Less(elm.key, tree.node.key) ==> AllLess(Order(tree.left), elm.key)
      ensures Less(tree.node.key, elm.key) ==> AllGreater(Order(tree.right), elm.key)
    {
      NearFinds(tree, elm.key);
      StrcmpFlip(elm.key, tree.node.key);
    }
  
    // ------------------------------------------------------------ VSPLAY_REMOVE

    lemma SortedParts(a: seq<Elm>, x: Elm, b: seq<Elm>)
      requires Sorted(a + [x] + b)
      ensures Sorted(a) && Sorted(b) && Sorted(a + b)
    {
      var s := a + [x] + b;
      assert forall i :: 0 <= i < |a| ==> a[i] == s[i];
      assert forall i :: 0 <= i < |b| ==> b[i] == s[|a| + 1 + i];
      assert forall i :: 0 <= i < |a + b| ==> (a + b)[i] == s[if i < |a| then i else i + 1];
    }

    lemma NoDupRemove(a: seq<Elm>, x: Elm, b: seq<Elm>)
      requires NoDup(a + [x] + b)
      ensures NoDup(a) && NoDup(b) && NoDup(a + b) && Apart(a, b) && x !in a && x !in b
      ensures Elms(a + b) == Elms(a + [x] + b) - {x}
    {
      assert a + [x] + b == a + ([x] + b);
      NoDupParts(a, [x] + b);
      NoDupParts([x], b);
      assert x in [x] && x in [x] + b;
      assert forall y <- b :: y in [x] + b;
      forall i, j | 0 <= i < j < |a + b| ensures (a + b)[i] != (a + b)[j] {
        var s := a + [x] + b;
        assert s[if i < |a| then i else i + 1] == (a + b)[i] && s[if j < |a| then j else j + 1] == (a + b)[j];
      }
    }

    /** What is left of the root, and right of it. */
    lemma Halves()
      requires Valid() && root != null
      ensures tree.Fork? && root == tree.node && root in nodes
      ensures Order(tree) == Order(tree.left) + [root] + Order(tree.right)
      ensures NoDup(Order(tree.left)) && NoDup(Order(tree.right)) && NoDup(Order(tree.left) + Order(tree.right))
      ensures Sorted(Order(tree.left)) && Sorted(Order(tree.right)) && Sorted(Order(tree.left) + Order(tree.right))
      ensures Elms(Order(tree.left) + Order(tree.right)) == nodes - {root} && Apart(Order(tree.left), Order(tree.right))
      ensures Elms(Order(tree.left)) + Elms(Order(tree.right)) == nodes - {root}
      ensures Elms(Order(tree.left)) !! Elms(Order(tree.right))
      ensures root !in Order(tree.left) && root !in Order(tree.right)
      ensures AllLess(Order(tree.left), root.key) && AllGreater(Order(tree.right), root.key)
    {
      hide NoDup, Sorted;
      TopNode();
      OldNodes();
      assert Order(tree) == Order(tree.left) + [root] + Order(tree.right);
      NoDupRemove(Order(tree.left), root, Order(tree.right));
      SortedParts(Order(tree.left), root, Order(tree.right));
      Behind(Order(tree), Order(tree.left), root, Order(tree.right));
    }

    /** The node next to a key that is greater than all has nothing to its right. */
    lemma NearTop(u: Tree, key: string)
      requires Near(u, key) && AllLess(Order(u), key)
      ensures u.right.Nil?
    {
      assert u.node in Order(u);
      StrcmpFlip(u.node.key, key);
      StrcmpZero(u.node.key, key);
      if u.right.Fork? {
        var x := u.right.node;
        assert x in Order(u.right) && x in Order(u);
        StrcmpFlip(x.key, key);
      }
    }

    lemma Subtree(s: set<Elm>, t: Tree)
      requires In(Snap(s), t) && Elms(Order(t)) <= s
      ensures In(Snap(Elms(Order(t))), t)
    {
      FrameTree(Snap(s), Snap(Elms(Order(t))), t);
    }

    /** VSPLAY_REMOVE. The element itself is returned, also where another one with its key was removed. */
    method Remove(elm: Elm) returns (gone: Elm?, ghost at: nat)
      requires Valid()
      modifies this, nodes`left, nodes`right
      ensures Valid() && (gone == elm || gone == null)
      ensures gone == null ==> nodes == old(nodes) && Order(tree) == old(Order(tree)) && forall x <- nodes :: x.key != elm.key
      ensures gone != null ==> at < |old(Order(tree))| && old(Order(tree))[at].key == elm.key
      ensures gone != null ==> nodes == old(nodes) - {old(Order(tree))[at]}
      ensures gone != null ==> Order(tree) == old(Order(tree))[..at] + old(Order(tree))[at + 1..]
    {
      hide Sorted, NoDup, Elms, Order, In, Snap, Near, AllLess, AllGreater, Apart, Less, Strcmp;
      at := 0;
      if root == null {
        Nobody();
        return null, 0;
      }
      Splay(elm.key);
      TopNode();
      SameNodes(old(Order(tree)));
      Compared(elm.key, root);
      if Strcmp(elm.key, root.key) != 0 {
        NotThere(elm);
        return null, 0;
      }
      at := |Order(tree.left)|;
      Halves();
      Cut(Order(tree.left), root, Order(tree.right));
      if root.left == null {
        DropRoot();
      } else {
        JoinHalves(elm.key);
      }
      gone := elm;
    }

    lemma Nobody()
      requires Valid() && root == null
      ensures nodes == {}
    {
    }

    lemma SameNodes(s: seq<Elm>)
      requires Valid() && Order(tree) == s
      ensures nodes == Elms(s)
    {
    }

    lemma Cut(a: seq<Elm>, x: Elm, b: seq<Elm>)
      ensures var s := a + [x] + b; |a| < |s| && s[|a|] == x && s[..|a|] == a && s[|a| + 1..] == b
    {
    }

    method DropRoot()
      requires Valid() && root != null && root.left == null
      modifies this
      ensures Valid() && nodes == old(nodes) - {old(root)} && Order(tree) == Order(old(tree).left) + Order(old(tree).right)
    {
      hide Sorted, NoDup, Elms, Order, In, Snap;
      Halves();
      OldNodes();
      OnTop(Snap(nodes), tree);
      AtNode(nodes, root);
      NilOrder(tree.left);
      Subtree(nodes, tree.right);
      root := root.right;
      nodes := nodes - {tree.node};
      tree := tree.right;
    }

    lemma NilOrder(t: Tree)
      requires Root(t) == null
      ensures t.Nil? && Order(t) == [] && forall s: seq<Elm> :: [] + s == s
    {
    }
  
    /** The greatest of the smaller nodes takes the greater ones as its right side. */
    method JoinHalves(key: string)
      requires Valid() && root != null && root.left != null && root.key == key
      modifies this, nodes`left, nodes`right
      ensures Valid() && nodes == old(nodes) - {old(root)} && Order(tree) == Order(old(tree).left) + Order(old(tree).right)
    {
      hide Sorted, NoDup, Elms, Order, In, Snap, Near, AllLess, AllGreater, Apart;
      Halves();
      OldNodes();
      ghost var t, all, rest := tree, nodes, Elms(Order(tree.right));
      OnTop(Snap(nodes), t);
      AtNode(nodes, root);
      Subtree(nodes, t.left);
      Subtree(nodes, t.right);
      ghost var m := Snap(rest);
      var tmp := root.right;
      root := root.left;
      tree, nodes := t.left, Elms(Order(t.left));
      Splay(key);
      assert Snap(rest) == m;
      NearTop(tree, key);
      TopNode();
      Graft(tmp, t.right, rest);
    }

    method Graft(tmp: Elm?, ghost right: Tree, ghost rest: set<Elm>)
      requires Valid() && root != null && tree.right.Nil? && In(Snap(rest), right) && tmp == Root(right)
      requires Elms(Order(right)) == rest && nodes !! rest
      requires NoDup(Order(tree) + Order(right)) && Sorted(Order(tree) + Order(right))
      modifies this, root`right
      ensures Valid() && nodes == old(nodes) + rest && Order(tree) == Order(old(tree)) + Order(right)
    {
      hide Sorted, NoDup, In, Snap;
      ghost var u, m, s := tree, Snap(nodes), nodes + rest;
      TopNode();
      OldNodes();
      OnTop(m, u);
      AtNode(nodes, root);
      RootApart(u);
      ghost var r := Snap(rest);
      SnapBoth(nodes, rest);
      SetRight(root, tmp, s);
      GraftIn(m, r, Snap(s), u, right);
      tree, nodes := Fork(u.left, u.node, right), s;
    }

    lemma SnapBoth(a: set<Elm>, b: set<Elm>)
      requires a !! b
      ensures forall x :: x in a ==> Snap(a + b)[x] == Snap(a)[x]
      ensures forall x :: x in b ==> Snap(a + b)[x] == Snap(b)[x]
    {
    }

    lemma GraftIn(m: Links, r: Links, n: Links, u: Tree, right: Tree)
      requires In(m, u) && In(r, right) && u.Fork? && u.right.Nil? && NoDup(Order(u)) && u.node in n
      requires n[u.node] == Link(Root(u.left), Root(right)) && u.node !in r
      requires forall x <- m :: x in n && (x == u.node || n[x] == m[x])
      requires forall x <- r :: x in n && n[x] == r[x]
      ensures In(n, Fork(u.left, u.node, right))
      ensures Order(Fork(u.left, u.node, right)) == Order(u) + Order(right)
    {
      RootApart(u);
      assert Order(u) == Order(u.left) + [u.node] + [];
      FrameTree(m, n, u.left);
      FrameTree(r, n, right);
    }
  }
}
