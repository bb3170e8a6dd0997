/**
 The trees of VSPLAY_* (src/vtree.h), and the two unfinished trees that top-down splaying builds.
*/
module SplayShape {

  class Elm {
    const key: string
    var left: Elm?
    var right: Elm?

    constructor (key: string)
      ensures this.key == key && left == null && right == null
    {
      this.key, left, right := key, null, null;
    }
  }

  datatype Tree = Nil | Fork(left: Tree, node: Elm, right: Tree)

  /** A node on the rim of an unfinished tree, with its finished side. */
  datatype Spur = Spur(node: Elm, side: Tree)

  datatype Link = Link(left: Elm?, right: Elm?)
  type Links = map<Elm, Link>

  ghost function Root(t: Tree): Elm? {
    if t.Nil? then null else t.node
  }

  ghost function Order(t: Tree): seq<Elm> {
    if t.Nil? then [] else Order(t.left) + [t.node] + Order(t.right)
  }

  /** The nodes are linked as `t` says. */
  ghost predicate In(m: Links, t: Tree) {
    t.Fork? ==>
      && t.node in m && m[t.node] == Link(Root(t.left), Root(t.right))
      && In(m, t.left) && In(m, t.right)
  }

  /** The order of the smaller nodes, which grow to the right, and of the greater ones, which grow to
      the left. */
  ghost function OrderL(ls: seq<Spur>): seq<Elm> {
    if ls == [] then [] else Order(ls[0].side) + [ls[0].node] + OrderL(ls[1..])
  }

  ghost function OrderR(rs: seq<Spur>): seq<Elm> {
    if rs == [] then [] else OrderR(rs[1..]) + [rs[0].node] + Order(rs[0].side)
  }

  /** The unfinished tree of smaller nodes hangs to the right of `from` and ends at `last`. */
  ghost predicate SpineL(m: Links, from: Elm, ls: seq<Spur>, last: Elm) {
    from in m && if ls == [] then last == from else
      && m[from].right == ls[0].node && ls[0].node in m && m[ls[0].node].left == Root(ls[0].side)
      && In(m, ls[0].side) && SpineL(m, ls[0].node, ls[1..], last)
  }

  ghost predicate SpineR(m: Links, from: Elm, rs: seq<Spur>, last: Elm) {
    from in m && if rs == [] then last == from else
      && m[from].left == rs[0].node && rs[0].node in m && m[rs[0].node].right == Root(rs[0].side)
      && In(m, rs[0].side) && SpineR(m, rs[0].node, rs[1..], last)
  }

  /** The finished trees. */
  ghost function TreeL(ls: seq<Spur>, t: Tree): Tree {
    if ls == [] then t else Fork(ls[0].side, ls[0].node, TreeL(ls[1..], t))
  }

  ghost function TreeR(rs: seq<Spur>, t: Tree): Tree {
    if rs == [] then t else Fork(TreeR(rs[1..], t), rs[0].node, rs[0].side)
  }

  ghost predicate NoDup(s: seq<Elm>) {
    forall i, j :: 0 <= i < j < |s| ==> s[i] != s[j]
  }

  ghost predicate Apart(a: seq<Elm>, b: seq<Elm>) {
    forall x <- a :: x !in b
  }

  /** The nodes of `s` are linked in `n` as in `m`. */
  ghost predicate Same(m: Links, n: Links, s: seq<Elm>) {
    forall x <- s :: x in m ==> x in n && n[x] == m[x]
  }

  lemma NoDupParts(a: seq<Elm>, b: seq<Elm>)
    requires NoDup(a + b)
    ensures NoDup(a) && NoDup(b) && Apart(a, b)
  {
    var s := a + b;
    assert forall i :: 0 <= i < |a| ==> s[i] == a[i];
    assert forall i :: 0 <= i < |b| ==> s[|a| + i] == b[i];
    forall x <- a ensures x !in b {
      var i :| 0 <= i < |a| && a[i] == x;
      forall j | 0 <= j < |b| ensures b[j] != x {
        assert s[i] != s[|a| + j];
      }
    }
  }

  lemma {:induction false} FrameTree(m: Links, n: Links, t: Tree)
    requires In(m, t) && Same(m, n, Order(t))
    ensures In(n, t)
    decreases t
  {
    if t.Fork? {
      assert t.node in Order(t);
      FrameTree(m, n, t.left);
      FrameTree(m, n, t.right);
    }
  }

  lemma {:induction false} FrameSpineL(m: Links, n: Links, from: Elm, ls: seq<Spur>, last: Elm)
    requires SpineL(m, from, ls, last) && Same(m, n, OrderL(ls)) && from in n && n[from].right == m[from].right
    ensures SpineL(n, from, ls, last)
    decreases |ls|
  {
    if ls != [] {
      assert ls[0].node in OrderL(ls);
      FrameTree(m, n, ls[0].side);
      FrameSpineL(m, n, ls[0].node, ls[1..], last);
    }
  }

  lemma {:induction false} FrameSpineR(m: Links, n: Links, from: Elm, rs: seq<Spur>, last: Elm)
    requires SpineR(m, from, rs, last) && Same(m, n, OrderR(rs)) && from in n && n[from].left == m[from].left
    ensures SpineR(n, from, rs, last)
    decreases |rs|
  {
    if rs != [] {
      assert rs[0].node in OrderR(rs);
      FrameTree(m, n, rs[0].side);
      FrameSpineR(m, n, rs[0].node, rs[1..], last);
    }
  }

  lemma {:induction false} PushOrderL(ls: seq<Spur>, x: Spur)
    ensures OrderL(ls + [x]) == OrderL(ls) + Order(x.side) + [x.node]
    decreases |ls|
  {
    if ls == [] {
      assert ls + [x] == [x] && [x][1..] == [];
    } else {
      assert (ls + [x])[1..] == ls[1..] + [x];
      PushOrderL(ls[1..], x);
    }
  }

  lemma {:induction false} PushOrderR(rs: seq<Spur>, x: Spur)
    ensures OrderR(rs + [x]) == [x.node] + Order(x.side) + OrderR(rs)
    decreases |rs|
  {
    if rs == [] {
      assert rs + [x] == [x] && [x][1..] == [];
    } else {
      assert (rs + [x])[1..] == rs[1..] + [x];
      PushOrderR(rs[1..], x);
    }
  }

  lemma {:induction false} TreeLOrder(ls: seq<Spur>, t: Tree)
    ensures Order(TreeL(ls, t)) == OrderL(ls) + Order(t)
    decreases |ls|
  {
    if ls != [] { TreeLOrder(ls[1..], t); }
  }

  lemma {:induction false} TreeROrder(rs: seq<Spur>, t: Tree)
    ensures Order(TreeR(rs, t)) == Order(t) + OrderR(rs)
    decreases |rs|
  {
    if rs != [] { TreeROrder(rs[1..], t); }
  }

  // ---------------------------------------------------------------- linking to a rim

  lemma LastL(m: Links, from: Elm, ls: seq<Spur>, last: Elm)
    requires SpineL(m, from, ls, last)
    ensures last in m && (if ls == [] then last == from else last in OrderL(ls))
    decreases |ls|
  {
    if ls != [] { LastL(m, ls[0].node, ls[1..], last); }
  }

  lemma LastR(m: Links, from: Elm, rs: seq<Spur>, last: Elm)
    requires SpineR(m, from, rs, last)
    ensures last in m && (if rs == [] then last == from else last in OrderR(rs))
    decreases |rs|
  {
    if rs != [] { LastR(m, rs[0].node, rs[1..], last); }
  }

  /** The first spur takes its nodes out of the way of all the others. */
  lemma FirstL(from: Elm, ls: seq<Spur>, rest: seq<Elm>)
    requires ls != [] && NoDup([from] + OrderL(ls) + rest)
    ensures NoDup([ls[0].node] + OrderL(ls[1..]) + rest) && Apart(Order(ls[0].side), [ls[0].node] + OrderL(ls[1..]) + rest)
    ensures from !in OrderL(ls) + rest
  {
    hide NoDup, Order;
    var s, more := Order(ls[0].side), [ls[0].node] + OrderL(ls[1..]) + rest;
    Rejoin([from], s, [ls[0].node], OrderL(ls[1..]), rest);
    NoDupParts([from], s + more);
    NoDupParts(s, more);
    assert from in [from];
  }

  lemma Rejoin(f: seq<Elm>, s: seq<Elm>, n: seq<Elm>, o: seq<Elm>, r: seq<Elm>)
    ensures f + (s + n + o) + r == f + (s + (n + o + r)) && (s + n + o) + r == s + (n + o + r)
    ensures r + (o + n + s) + f == ((r + o + n) + s) + f && r + (o + n + s) == (r + o + n) + s
  {
  }

  lemma FirstR(from: Elm, rs: seq<Spur>, rest: seq<Elm>)
    requires rs != [] && NoDup(rest + OrderR(rs) + [from])
    ensures NoDup(rest + OrderR(rs[1..]) + [rs[0].node]) && Apart(rest + OrderR(rs[1..]) + [rs[0].node], Order(rs[0].side))
    ensures from !in rest + OrderR(rs)
  {
    hide NoDup, Order;
    var s, more := Order(rs[0].side), rest + OrderR(rs[1..]) + [rs[0].node];
    Rejoin([from], s, [rs[0].node], OrderR(rs[1..]), rest);
    NoDupParts(more + s, [from]);
    NoDupParts(more, s);
  }

  /** A tree linked to the end of the rim finishes the tree of smaller nodes. */
  lemma {:induction false} CloseL(m: Links, n: Links, from: Elm, ls: seq<Spur>, last: Elm, t: Tree)
    requires SpineL(m, from, ls, last) && In(m, t) && NoDup([from] + OrderL(ls) + Order(t))
    requires last in m && n == m[last := m[last].(right := Root(t))]
    ensures from in n && n[from].right == Root(TreeL(ls, t)) && In(n, TreeL(ls, t))
    decreases |ls|
  {
    LastL(m, from, ls, last);
    if ls == [] {
      NoDupParts([from] + [], Order(t));
      assert from in [from] + [];
      FrameTree(m, n, t);
    } else {
      FirstL(from, ls, Order(t));
      LastL(m, ls[0].node, ls[1..], last);
      FrameTree(m, n, ls[0].side);
      CloseL(m, n, ls[0].node, ls[1..], last, t);
    }
  }

  lemma {:induction false} CloseR(m: Links, n: Links, from: Elm, rs: seq<Spur>, last: Elm, t: Tree)
    requires SpineR(m, from, rs, last) && In(m, t) && NoDup(Order(t) + OrderR(rs) + [from])
    requires last in m && n == m[last := m[last].(left := Root(t))]
    ensures from in n && n[from].left == Root(TreeR(rs, t)) && In(n, TreeR(rs, t))
    decreases |rs|
  {
    LastR(m, from, rs, last);
    if rs == [] {
      assert Order(t) + [] + [from] == Order(t) + [from];
      NoDupParts(Order(t), [from]);
      FrameTree(m, n, t);
    } else {
      FirstR(from, rs, Order(t));
      LastR(m, rs[0].node, rs[1..], last);
      FrameTree(m, n, rs[0].side);
      CloseR(m, n, rs[0].node, rs[1..], last, t);
    }
  }

  /** One more spur at the end of the rim. */
  lemma {:induction false} PushL(m: Links, n: Links, from: Elm, ls: seq<Spur>, last: Elm, x: Spur)
    requires SpineL(m, from, ls, last) && In(m, x.side) && NoDup([from] + OrderL(ls) + (Order(x.side) + [x.node]))
    requires x.node in m && m[x.node].left == Root(x.side)
    requires last in m && n == m[last := m[last].(right := x.node)]
    ensures SpineL(n, from, ls + [x], x.node)
    decreases |ls|
  {
    LastL(m, from, ls, last);
    if ls == [] {
      NoDupParts([from] + [], Order(x.side) + [x.node]);
      assert from in [from] + [] && ls + [x] == [x] && [x][1..] == [];
      FrameTree(m, n, x.side);
    } else {
      FirstL(from, ls, Order(x.side) + [x.node]);
      LastL(m, ls[0].node, ls[1..], last);
      FrameTree(m, n, ls[0].side);
      PushL(m, n, ls[0].node, ls[1..], last, x);
      assert (ls + [x])[1..] == ls[1..] + [x];
    }
  }

  lemma {:induction false} PushR(m: Links, n: Links, from: Elm, rs: seq<Spur>, last: Elm, x: Spur)
    requires SpineR(m, from, rs, last) && In(m, x.side) && NoDup(([x.node] + Order(x.side)) + OrderR(rs) + [from])
    requires x.node in m && m[x.node].right == Root(x.side)
    requires last in m && n == m[last := m[last].(left := x.node)]
    ensures SpineR(n, from, rs + [x], x.node)
    decreases |rs|
  {
    LastR(m, from, rs, last);
    var own := [x.node] + Order(x.side);
    if rs == [] {
      assert own + [] + [from] == own + [from];
      NoDupParts(own, [from]);
      assert forall y <- Order(x.side) :: y in own;
      assert rs + [x] == [x] && [x][1..] == [];
      FrameTree(m, n, x.side);
    } else {
      FirstR(from, rs, own);
      LastR(m, rs[0].node, rs[1..], last);
      FrameTree(m, n, rs[0].side);
      PushR(m, n, rs[0].node, rs[1..], last, x);
      assert (rs + [x])[1..] == rs[1..] + [x];
    }
  }

  // ---------------------------------------------------------------- the middle of a splay

  ghost function Whole(ls: seq<Spur>, t: Tree, rs: seq<Spur>): seq<Elm> {
    OrderL(ls) + Order(t) + OrderR(rs)
  }

  /** The tree `t` under way, with the smaller and the greater nodes hanging from the auxiliary node
      `h`, up to `left` and `right`. */
  ghost predicate Mid(m: Links, root: Elm?, h: Elm, left: Elm, right: Elm, ls: seq<Spur>, t: Tree, rs: seq<Spur>) {
    && t.Fork? && root == t.node && In(m, t) && SpineL(m, h, ls, left) && SpineR(m, h, rs, right)
    && NoDup(Whole(ls, t, rs)) && h !in Whole(ls, t, rs)
  }

  /** Where the ends of the rims are not. */
  lemma Ends(m: Links, root: Elm?, h: Elm, left: Elm, right: Elm, ls: seq<Spur>, t: Tree, rs: seq<Spur>)
    requires Mid(m, root, h, left, right, ls, t, rs)
    ensures Apart(OrderL(ls), Order(t)) && Apart(OrderL(ls), OrderR(rs)) && Apart(Order(t), OrderR(rs))
    ensures NoDup(OrderL(ls)) && NoDup(Order(t)) && NoDup(OrderR(rs))
    ensures h !in OrderL(ls) && h !in Order(t) && h !in OrderR(rs)
    ensures left in m && left !in Order(t) && left !in OrderR(rs) && (left == h || left in OrderL(ls))
    ensures right in m && right !in Order(t) && right !in OrderL(ls) && (right == h || right in OrderR(rs))
  {
    NoDupParts(OrderL(ls) + Order(t), OrderR(rs));
    NoDupParts(OrderL(ls), Order(t));
    assert forall x <- OrderL(ls) :: x in OrderL(ls) + Order(t);
    assert forall x <- Order(t) :: x in OrderL(ls) + Order(t);
    LastL(m, h, ls, left);
    LastR(m, h, rs, right);
  }

  lemma Edges(h: Elm, ls: seq<Spur>, t: Tree, rs: seq<Spur>)
    requires NoDup(Whole(ls, t, rs)) && h !in Whole(ls, t, rs)
    ensures NoDup([h] + OrderL(ls) + Order(t)) && NoDup(Order(t) + OrderR(rs) + [h])
  {
    hide NoDup;
    var a, b, c := OrderL(ls), Order(t), OrderR(rs);
    NoDupParts(a + b, c);
    Assoc(a, b, c);
    NoDupParts(a, b + c);
    NoDupNew(h, a + b);
    NoDupNew(h, b + c);
    Assoc([h], a, b);
  }

  lemma Assoc(a: seq<Elm>, b: seq<Elm>, c: seq<Elm>)
    ensures a + b + c == a + (b + c)
    ensures forall x :: x in a + b + c <==> x in a || x in b || x in c
  {
  }

  lemma NoDupNew(h: Elm, s: seq<Elm>)
    requires NoDup(s) && h !in s
    ensures NoDup([h] + s) && NoDup(s + [h])
  {
  }

  lemma LinkLeft(m: Links, h: Elm, left: Elm, right: Elm, ls: seq<Spur>, t: Tree, rs: seq<Spur>)
    requires Mid(m, Root(t), h, left, right, ls, t, rs) && t.left.Fork? && right in m
    ensures var x := Spur(t.node, t.right);
      && Mid(m[right := m[right].(left := t.node)], Root(t.left), h, left, t.node, ls, t.left, rs + [x])
      && Whole(ls, t.left, rs + [x]) == Whole(ls, t, rs)
  {
    hide Mid, SpineL, SpineR, OrderL, OrderR;
    Unfold(m, Root(t), h, left, right, ls, t, rs);
    var x, n := Spur(t.node, t.right), m[right := m[right].(left := t.node)];
    Ends(m, Root(t), h, left, right, ls, t, rs);
    PushOrderR(rs, x);
    assert Order(t) == Order(t.left) + ([x.node] + Order(x.side));
    assert Whole(ls, t.left, rs + [x]) == Whole(ls, t, rs);
    FrameTree(m, n, t.left);
    FrameSpineL(m, n, h, ls, left);
    Edges(h, ls, t, rs);
    var own := [x.node] + Order(x.side);
    assert Order(t) + OrderR(rs) + [h] == Order(t.left) + (own + OrderR(rs) + [h]);
    NoDupParts(Order(t.left), own + OrderR(rs) + [h]);
    PushR(m, n, h, rs, right, x);
    Fold(n, Root(t.left), h, left, t.node, ls, t.left, rs + [x]);
  }

  lemma LinkRight(m: Links, h: Elm, left: Elm, right: Elm, ls: seq<Spur>, t: Tree, rs: seq<Spur>)
    requires Mid(m, Root(t), h, left, right, ls, t, rs) && t.right.Fork? && left in m
    ensures var x := Spur(t.node, t.left);
      && Mid(m[left := m[left].(right := t.node)], Root(t.right), h, t.node, right, ls + [x], t.right, rs)
      && Whole(ls + [x], t.right, rs) == Whole(ls, t, rs)
  {
    hide Mid, SpineL, SpineR, OrderL, OrderR;
    Unfold(m, Root(t), h, left, right, ls, t, rs);
    var x, n := Spur(t.node, t.left), m[left := m[left].(right := t.node)];
    Ends(m, Root(t), h, left, right, ls, t, rs);
    PushOrderL(ls, x);
    assert Order(t) == (Order(x.side) + [x.node]) + Order(t.right);
    assert Whole(ls + [x], t.right, rs) == Whole(ls, t, rs);
    FrameTree(m, n, t.right);
    FrameSpineR(m, n, h, rs, right);
    Edges(h, ls, t, rs);
    var own := Order(x.side) + [x.node];
    assert [h] + OrderL(ls) + Order(t) == ([h] + OrderL(ls) + own) + Order(t.right);
    NoDupParts([h] + OrderL(ls) + own, Order(t.right));
    PushL(m, n, h, ls, left, x);
    Fold(n, Root(t.right), h, t.node, right, ls + [x], t.right, rs);
  }

  lemma Unfold(m: Links, root: Elm?, h: Elm, left: Elm, right: Elm, ls: seq<Spur>, t: Tree, rs: seq<Spur>)
    requires Mid(m, root, h, left, right, ls, t, rs)
    ensures t.Fork? && root == t.node && In(m, t) && SpineL(m, h, ls, left) && SpineR(m, h, rs, right)
    ensures NoDup(Whole(ls, t, rs)) && h !in Whole(ls, t, rs)
    ensures t.node in Order(t) && (forall x <- Order(t.left) :: x in Order(t)) && (forall x <- Order(t.right) :: x in Order(t))
  {
  }

  lemma Fold(m: Links, root: Elm?, h: Elm, left: Elm, right: Elm, ls: seq<Spur>, t: Tree, rs: seq<Spur>)
    requires t.Fork? && root == t.node && In(m, t) && SpineL(m, h, ls, left) && SpineR(m, h, rs, right)
    requires NoDup(Whole(ls, t, rs)) && h !in Whole(ls, t, rs)
    ensures Mid(m, root, h, left, right, ls, t, rs)
  {
  }

  ghost function RotR(t: Tree): Tree
    requires t.Fork? && t.left.Fork?
  {
    Fork(t.left.left, t.left.node, Fork(t.left.right, t.node, t.right))
  }

  ghost function RotL(t: Tree): Tree
    requires t.Fork? && t.right.Fork?
  {
    Fork(Fork(t.left, t.node, t.right.left), t.right.node, t.right.right)
  }

  lemma RotROrder(t: Tree)
    requires t.Fork? && t.left.Fork?
    ensures Order(RotR(t)) == Order(t)
  {
    Regroup(Order(t.left.left), [t.left.node], Order(t.left.right), [t.node], Order(t.right));
  }

  lemma RotLOrder(t: Tree)
    requires t.Fork? && t.right.Fork?
    ensures Order(RotL(t)) == Order(t)
  {
    Regroup(Order(t.left), [t.node], Order(t.right.left), [t.right.node], Order(t.right.right));
  }

  lemma Regroup(a: seq<Elm>, x: seq<Elm>, b: seq<Elm>, y: seq<Elm>, c: seq<Elm>)
    ensures a + x + (b + y + c) == (a + x + b) + y + c
    ensures (a + x) + b + (y + c) == a + (x + b + y) + c
  {
  }

  /** The links of two nodes of `t` change; what hangs elsewhere stays. */
  lemma Elsewhere(m: Links, n: Links, h: Elm, left: Elm, right: Elm, ls: seq<Spur>, t: Tree, rs: seq<Spur>)
    requires Mid(m, Root(t), h, left, right, ls, t, rs)
    requires forall x <- m :: x in n && (x in Order(t) || n[x] == m[x])
    ensures SpineL(n, h, ls, left) && SpineR(n, h, rs, right)
  {
    Ends(m, Root(t), h, left, right, ls, t, rs);
    FrameSpineL(m, n, h, ls, left);
    FrameSpineR(m, n, h, rs, right);
  }

  lemma RotateRight(m: Links, h: Elm, left: Elm, right: Elm, ls: seq<Spur>, t: Tree, rs: seq<Spur>)
    requires Mid(m, Root(t), h, left, right, ls, t, rs) && t.left.Fork? && t.node in m && t.left.node in m
    ensures Mid(m[t.node := m[t.node].(left := Root(t.left.right))][t.left.node := m[t.left.node].(right := t.node)],
                t.left.node, h, left, right, ls, RotR(t), rs)
    ensures Order(RotR(t)) == Order(t)
  {
    var y, x := t.node, t.left.node;
    var n := m[y := m[y].(left := Root(t.left.right))][x := m[x].(right := y)];
    hide SpineL, SpineR;
    RotROrder(t);
    Ends(m, Root(t), h, left, right, ls, t, rs);
    RotatedIn(m, n, t);
    assert x in Order(t) && y in Order(t);
    Elsewhere(m, n, h, left, right, ls, t, rs);
  }

  lemma RotatedIn(m: Links, n: Links, t: Tree)
    requires In(m, t) && t.Fork? && t.left.Fork? && NoDup(Order(t)) && t.node in m && t.left.node in m
    requires n == m[t.node := m[t.node].(left := Root(t.left.right))][t.left.node := m[t.left.node].(right := t.node)]
    ensures In(n, RotR(t))
  {
    var a, x, b, y, c := t.left.left, t.left.node, t.left.right, t.node, t.right;
    assert Order(t) == Order(a) + ([x] + (Order(b) + ([y] + Order(c))));
    NoDupParts(Order(a), [x] + (Order(b) + ([y] + Order(c))));
    NoDupParts([x], Order(b) + ([y] + Order(c)));
    NoDupParts(Order(b), [y] + Order(c));
    NoDupParts([y], Order(c));
    assert x in [x] && y in [y];
    FrameTree(m, n, a);
    FrameTree(m, n, b);
    FrameTree(m, n, c);
  }

  lemma RotateLeft(m: Links, h: Elm, left: Elm, right: Elm, ls: seq<Spur>, t: Tree, rs: seq<Spur>)
    requires Mid(m, Root(t), h, left, right, ls, t, rs) && t.right.Fork? && t.node in m && t.right.node in m
    ensures Mid(m[t.node := m[t.node].(right := Root(t.right.left))][t.right.node := m[t.right.node].(left := t.node)],
                t.right.node, h, left, right, ls, RotL(t), rs)
    ensures Order(RotL(t)) == Order(t)
  {
    var x, y := t.node, t.right.node;
    var n := m[x := m[x].(right := Root(t.right.left))][y := m[y].(left := x)];
    hide SpineL, SpineR;
    RotLOrder(t);
    Ends(m, Root(t), h, left, right, ls, t, rs);
    RotatedLeftIn(m, n, t);
    assert x in Order(t) && y in Order(t);
    Elsewhere(m, n, h, left, right, ls, t, rs);
  }

  lemma RotatedLeftIn(m: Links, n: Links, t: Tree)
    requires In(m, t) && t.Fork? && t.right.Fork? && NoDup(Order(t)) && t.node in m && t.right.node in m
    requires n == m[t.node := m[t.node].(right := Root(t.right.left))][t.right.node := m[t.right.node].(left := t.node)]
    ensures In(n, RotL(t))
  {
    var a, x, b, y, c := t.left, t.node, t.right.left, t.right.node, t.right.right;
    assert Order(t) == Order(a) + ([x] + (Order(b) + ([y] + Order(c))));
    NoDupParts(Order(a), [x] + (Order(b) + ([y] + Order(c))));
    NoDupParts([x], Order(b) + ([y] + Order(c)));
    NoDupParts(Order(b), [y] + Order(c));
    NoDupParts([y], Order(c));
    assert x in [x] && y in [y];
    FrameTree(m, n, a);
    FrameTree(m, n, b);
    FrameTree(m, n, c);
  }

  /** The tree that a splay ends with. */
  ghost function Assembled(ls: seq<Spur>, t: Tree, rs: seq<Spur>): Tree
    requires t.Fork?
  {
    Fork(TreeL(ls, t.left), t.node, TreeR(rs, t.right))
  }

  lemma AssembledOrder(ls: seq<Spur>, t: Tree, rs: seq<Spur>)
    requires t.Fork?
    ensures Order(Assembled(ls, t, rs)) == Whole(ls, t, rs)
    ensures Order(TreeL(ls, t.left)) == OrderL(ls) + Order(t.left) && Order(TreeR(rs, t.right)) == Order(t.right) + OrderR(rs)
  {
    hide TreeL, TreeR, OrderL, OrderR;
    TreeLOrder(ls, t.left);
    TreeROrder(rs, t.right);
    Regroup(OrderL(ls), Order(t.left), [t.node], Order(t.right), OrderR(rs));
  }

  /** The first two assignments of VSPLAY_ASSEMBLE finish both trees. */
  lemma Assemble(m: Links, h: Elm, left: Elm, right: Elm, ls: seq<Spur>, t: Tree, rs: seq<Spur>)
    requires Mid(m, Root(t), h, left, right, ls, t, rs) && left in m && right in m
    ensures var n := m[left := m[left].(right := Root(t.left))];
      right in n && (
      var o := n[right := n[right].(left := Root(t.right))];
      && h in o && o[h] == Link(Root(TreeR(rs, t.right)), Root(TreeL(ls, t.left))) && t.node in o
      && In(o, TreeL(ls, t.left)) && In(o, TreeR(rs, t.right)))
  {
    hide Mid, SpineL, SpineR, TreeL, TreeR, OrderL, OrderR;
    Unfold(m, Root(t), h, left, right, ls, t, rs);
    var n := m[left := m[left].(right := Root(t.left))];
    var o := n[right := n[right].(left := Root(t.right))];
    Ends(m, Root(t), h, left, right, ls, t, rs);
    Edges(h, ls, t, rs);
    var y := [t.node];
    assert [h] + OrderL(ls) + Order(t) == ([h] + OrderL(ls) + Order(t.left)) + (y + Order(t.right));
    NoDupParts([h] + OrderL(ls) + Order(t.left), y + Order(t.right));
    assert Order(t) + OrderR(rs) + [h] == (Order(t.left) + y) + (Order(t.right) + OrderR(rs) + [h]);
    NoDupParts(Order(t.left) + y, Order(t.right) + OrderR(rs) + [h]);
    CloseL(m, n, h, ls, left, t.left);
    FrameTree(m, n, t.right);
    FrameSpineR(m, n, h, rs, right);
    CloseR(n, o, h, rs, right, t.right);
    TreeLOrder(ls, t.left);
    FrameTree(n, o, TreeL(ls, t.left));
  }
}
