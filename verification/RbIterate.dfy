/**
 Walking the red-black tree of src/vtree.h: VRBT_MINMAX, VRBT_NEXT, VRBT_PREV, the FOREACH
 loops, flushing a table, and whole runs of insertions and removals.
*/
module RbIterate {
  import opened RbShape
  import opened RbTree

  /** The element of `s` at `i`, or null outside. */
  ghost function At(s: seq<Node>, i: int): Node? {
    if 0 <= i < |s| then s[i] else null
  }

  /** A context and subtree for the node at position `at`. */
  lemma FindPlace(h: Head, elm: Node, at: nat) returns (c: Ctx, t: Tree)
    requires h.Valid() && at < |h.Seq()| && h.Seq()[at] == elm
    ensures h.Owns(c, t) && t.Bin? && t.node == elm && elm in h.nodes
    ensures h.Seq() == Ahead(c, t) + [elm] + Behind(c, t) && |Ahead(c, t)| == at
  {
    InOrderNodes(h.tree);
    assert elm in InOrder(h.tree);
    c, t := Locate(Top, h.tree, elm);
    h.GoIn(c, t);
    AheadBehind(c, t);
    SortedUnique(h.Seq(), at, |Ahead(c, t)|);
  }

  /** VRBT_NEXT: the successor in key order, or null after the last node. */
  method Next(h: Head, elm: Node, ghost at: nat) returns (next: Node?)
    requires h.Valid() && at < |h.Seq()| && h.Seq()[at] == elm
    ensures next == At(h.Seq(), at + 1)
  {
    ghost var c, t := FindPlace(h, elm, at);
    h.Look(c, t);
    if elm.right != null {
      h.GoRight(c, t);
      ghost var inner, s;
      next, inner, s := h.LeftMost(elm.right, InR(c, elm, t.red, t.left), t.right);
      PlugInOrder(inner, s);
      assert Behind(c, t)[0] == next;
    } else {
      assert Behind(c, t) == After(c);
      next := Ascend(h, elm, c, t);
    }
  }

  /** Up the parent links until a left child is left behind. */
  method Ascend(h: Head, elm: Node, ghost c: Ctx, ghost t: Tree) returns (next: Node?)
    requires h.Owns(c, t) && t.Bin? && t.node == elm
    ensures next == At(After(c), 0)
  {
    var x := elm;
    ghost var d, s := c, t;
    h.Look(d, s);
    if x.parent != null && x == x.parent.left {
      next := x.parent;
    } else {
      while x.parent != null && x == x.parent.right
        invariant h.Owns(d, s) && s.Bin? && s.node == x && After(d) == After(c)
        invariant x.parent == Par(d) && (d.InR? <==> x.parent != null && x == x.parent.right)
        decreases Depth(d)
      {
        h.GoUp(d, s);
        d, s := d.up, Fill(d, s);
        x := x.parent;
        h.Look(d, s);
      }
      next := x.parent;
    }
  }

  /** Down the right links: the last node of a subtree. */
  method RightMost(h: Head, from: Node, ghost c: Ctx, ghost t: Tree) returns (elm: Node)
    requires h.Owns(c, t) && t.Bin? && t.node == from
    ensures InOrder(t)[|InOrder(t)| - 1] == elm
  {
    hide InOrder, Head.Owns;
    elm := from;
    ghost var d, s := c, t;
    h.Look(d, s);
    while elm.right != null
      invariant h.Owns(d, s) && s.Bin? && s.node == elm && elm.right == RootOf(s.right)
      invariant RightEnd(t) == RightEnd(s)
      decreases s
    {
      h.GoRight(d, s);
      d, s := InR(d, s.node, s.red, s.left), s.right;
      elm := elm.right;
      h.Look(d, s);
    }
    EndIsLast(t);
  }

  /** The node at the end of the right links. */
  ghost function RightEnd(t: Tree): Node
    requires t.Bin?
  {
    if t.right.Leaf? then t.node else RightEnd(t.right)
  }

  lemma {:induction false} EndIsLast(t: Tree)
    requires t.Bin?
    ensures |InOrder(t)| > 0 && InOrder(t)[|InOrder(t)| - 1] == RightEnd(t)
  {
    if t.right.Bin? { EndIsLast(t.right); }
  }

  /** VRBT_PREV: the predecessor in key order, or null before the first node. */
  method Prev(h: Head, elm: Node, ghost at: nat) returns (prev: Node?)
    requires h.Valid() && at < |h.Seq()| && h.Seq()[at] == elm
    ensures prev == At(h.Seq(), at - 1)
  {
    ghost var c, t := FindPlace(h, elm, at);
    h.Look(c, t);
    if elm.left != null {
      h.GoLeft(c, t);
      prev := RightMost(h, elm.left, InL(c, elm, t.red, t.right), t.left);
      assert Ahead(c, t)[at - 1] == prev;
    } else {
      assert Ahead(c, t) == Before(c);
      prev := AscendLeft(h, elm, c, t);
    }
  }

  /** Up the parent links until a right child is left behind. */
  method AscendLeft(h: Head, elm: Node, ghost c: Ctx, ghost t: Tree) returns (prev: Node?)
    requires h.Owns(c, t) && t.Bin? && t.node == elm
    ensures prev == At(Before(c), |Before(c)| - 1)
  {
    hide Head.Owns;
    var x := elm;
    ghost var d, s := c, t;
    h.Look(d, s);
    if x.parent != null && x == x.parent.right {
      prev := x.parent;
    } else {
      while x.parent != null && x == x.parent.left
        invariant h.Owns(d, s) && s.Bin? && s.node == x && Before(d) == Before(c)
        invariant x.parent == Par(d) && (d.InL? <==> x.parent != null && x == x.parent.left)
        decreases Depth(d)
      {
        h.GoUp(d, s);
        d, s := d.up, Fill(d, s);
        x := x.parent;
        h.Look(d, s);
      }
      prev := x.parent;
    }
  }

  /** VRBT_MINMAX: the first node for a negative `val`, the last one otherwise. */
  method MinMax(h: Head, val: int) returns (parent: Node?)
    requires h.Valid()
    ensures parent == At(h.Seq(), if val < 0 then 0 else |h.Seq()| - 1)
  {
    var tmp := h.root;
    parent := null;
    ghost var c, t := Top, h.tree;
    h.Look(c, t);
    while tmp != null
      invariant h.Owns(c, t) && Order(c, t) == h.Seq() && tmp == RootOf(t) && parent == Par(c)
      invariant val < 0 ==> Before(c) == [] && !c.InR?
      invariant val >= 0 ==> After(c) == [] && !c.InL?
      decreases t
    {
      h.Look(c, t);
      parent := tmp;
      if val < 0 {
        h.GoLeft(c, t);
        c, t := InL(c, t.node, t.red, t.right), t.left;
        tmp := tmp.left;
      } else {
        h.GoRight(c, t);
        c, t := InR(c, t.node, t.red, t.left), t.right;
        tmp := tmp.right;
      }
      OrderUp(c, t);
    }
    assert InOrder(t) == [] && Order(c, t) == Before(c) + After(c);
  }

  /** VRBT_FOREACH: every node once, in key order. */
  method Foreach(h: Head) returns (visited: seq<Node>)
    requires h.Valid()
    ensures visited == h.Seq() && Sorted(visited)
  {
    visited := [];
    var x := MinMax(h, -1);
    while x != null
      invariant |visited| <= |h.Seq()| && visited == h.Seq()[..|visited|] && x == At(h.Seq(), |visited|)
      decreases |h.Seq()| - |visited|
    {
      visited := visited + [x];
      x := Next(h, x, |visited| - 1);
    }
  }

  /** flush_global_variables: VRBT_FOREACH_SAFE around VRBT_REMOVE meets every node once, in
      key order, and leaves the empty tree. */
  method Flush(h: Head) returns (visited: seq<Node>)
    requires h.Valid()
    modifies h, h.nodes`left, h.nodes`right, h.nodes`parent, h.nodes`red
    ensures h.Valid() && h.nodes == {} && h.root == null
    ensures visited == old(h.Seq())
  {
    hide Head.Valid;
    visited := [];
    ghost var all := h.Seq();
    var x := MinMax(h, -1);
    while x != null
      invariant h.Valid() && h.nodes <= old(h.nodes)
      invariant |visited| <= |all| && visited == all[..|visited|]
      invariant h.Seq() == all[|visited|..] && x == At(all, |visited|)
      decreases |all| - |visited|
    {
      Tail(all, |visited|);
      var y := Next(h, x, 0);
      RemoveFirst(h, x);
      visited := visited + [x];
      x := y;
    }
    EmptySeq(h);
  }

  lemma EmptySeq(h: Head)
    requires h.Valid() && h.Seq() == []
    ensures h.nodes == {} && h.root == null
  {
    InOrderNodes(h.tree);
    h.Look(Top, h.tree);
  }

  lemma Tail(s: seq<Node>, k: nat)
    requires k < |s|
    ensures s[k..][0] == s[k] && s[k..][1..] == s[k + 1..] && s[..k + 1] == s[..k] + [s[k]]
    ensures At(s[k..], 1) == At(s, k + 1)
  {
  }

  method RemoveFirst(h: Head, x: Node)
    requires h.Valid() && |h.Seq()| > 0 && h.Seq()[0] == x
    modifies h, h.nodes`left, h.nodes`right, h.nodes`parent, h.nodes`red
    ensures h.Valid() && h.nodes == old(h.nodes) - {x} && h.Seq() == old(h.Seq())[1..]
  {
    ghost var c, t := FindPlace(h, x, 0);
    ghost var s := h.Seq();
    var gone; ghost var at;
    gone, at := h.Remove(x);
    SortedUnique(s, at, 0);
  }

  // ---------------------------------------------------------------- whole runs

  datatype Op = Put(node: Node) | Take(key: string)

  /** What a run does to the set of nodes of a table. */
  ghost function Run(s: set<Node>, ops: seq<Op>): set<Node> {
    if ops == [] then s
    else
      var before := Run(s, ops[..|ops| - 1]);
      match ops[|ops| - 1]
      case Put(n) => if exists x <- before :: x.key == n.key then before else before + {n}
      case Take(k) => set x | x in before && x.key != k
  }

  ghost function Fresh(ops: seq<Op>): set<Node> {
    set i | 0 <= i < |ops| && ops[i].Put? :: ops[i].node
  }

  /** Insertions (of taken keys, too) and removals (of absent keys, too), in any order: after
      each prefix of the run the tree is a red-black search tree of exactly the right nodes,
      and its height is at most 2 lg(n + 1). */
  method Execute(h: Head, ops: seq<Op>)
    requires h.Valid()
    modifies h, h.nodes`left, h.nodes`right, h.nodes`parent, h.nodes`red, Fresh(ops)`left, Fresh(ops)`right, Fresh(ops)`parent, Fresh(ops)`red
    ensures h.Valid() && h.nodes == Run(old(h.nodes), ops)
    ensures Pow2(Height(h.tree)) <= (|h.nodes| + 1) * (|h.nodes| + 1)
  {
    hide Head.Valid;
    ghost var s := h.nodes;
    for i := 0 to |ops|
      invariant h.Valid() && h.nodes == Run(s, ops[..i]) && h.nodes <= s + Fresh(ops)
    {
      assert ops[..i + 1][..i] == ops[..i];
      match ops[i] {
        case Put(n) =>
          assert n in Fresh(ops);
          var dup; ghost var at;
          dup, at := h.Insert(n);
        case Take(k) =>
          TakeKey(h, k);
      }
    }
    assert ops[..|ops|] == ops;
    LowHeight(h);
  }

  lemma LowHeight(h: Head)
    requires h.Valid()
    ensures Pow2(Height(h.tree)) <= (|h.nodes| + 1) * (|h.nodes| + 1)
  {
    HeightBound(h.tree);
    SizeIsCount(h.tree);
  }

  method TakeKey(h: Head, k: string)
    requires h.Valid()
    modifies h, h.nodes`left, h.nodes`right, h.nodes`parent, h.nodes`red
    ensures h.Valid() && h.nodes == set x | x in old(h.nodes) && x.key != k
  {
    var x := h.Find(k);
    if x != null {
      h.OneKeyEach();
      var gone; ghost var at;
      gone, at := h.Remove(x);
    }
  }
}
