/**
 The mathematical side of the red-black tree of src/vtree.h: the tree a set of linked
 nodes denotes, the context ("one-hole tree") that surrounds a node the code is looking
 at, and what rotations, recolourings and unlinkings do to both. Nothing here reads the heap.
*/
module RbShape {
  import opened CString

  /** An element with its embedded VRBT_ENTRY. Keys never change while a node exists. */
  class Node {
    const key: string
    var value: string
    var left: Node?
    var right: Node?
    var parent: Node?
    var red: bool

    constructor (key: string, value: string)
      ensures this.key == key && this.value == value
    {
      this.key, this.value := key, value;
      left, right, parent, red := null, null, null, false;
    }
  }

  datatype Tree = Leaf | Bin(left: Tree, node: Node, red: bool, right: Tree)

  /** A tree with one subtree missing, from the hole outwards. */
  datatype Ctx = Top
               | InL(up: Ctx, node: Node, red: bool, right: Tree)
               | InR(up: Ctx, node: Node, red: bool, left: Tree)

  function RootOf(t: Tree): Node? {
    if t.Leaf? then null else t.node
  }

  /** The node the hole hangs from. */
  function Par(c: Ctx): Node? {
    if c.Top? then null else c.node
  }

  /** The parent link's view of a whole tree: the root when the hole holds `hole`. */
  function Outer(c: Ctx, hole: Node?): Node? {
    if c.Top? then hole else Outer(c.up, c.node)
  }

  ghost function Nodes(t: Tree): set<Node> {
    match t
    case Leaf => {}
    case Bin(l, x, _, r) => {x} + Nodes(l) + Nodes(r)
  }

  ghost function CtxNodes(c: Ctx): set<Node> {
    match c
    case Top => {}
    case InL(up, x, _, s) => {x} + Nodes(s) + CtxNodes(up)
    case InR(up, x, _, s) => {x} + Nodes(s) + CtxNodes(up)
  }

  /** No node occurs twice. */
  ghost predicate Distinct(t: Tree) {
    t.Bin? ==>
      && t.node !in Nodes(t.left) && t.node !in Nodes(t.right)
      && Nodes(t.left) !! Nodes(t.right)
      && Distinct(t.left) && Distinct(t.right)
  }

  ghost predicate CtxDistinct(c: Ctx) {
    match c
    case Top => true
    case InL(up, x, _, s) =>
      x !in Nodes(s) && x !in CtxNodes(up) && Nodes(s) !! CtxNodes(up) && Distinct(s) && CtxDistinct(up)
    case InR(up, x, _, s) =>
      x !in Nodes(s) && x !in CtxNodes(up) && Nodes(s) !! CtxNodes(up) && Distinct(s) && CtxDistinct(up)
  }

  function InOrder(t: Tree): seq<Node> {
    match t
    case Leaf => []
    case Bin(l, x, _, r) => InOrder(l) + [x] + InOrder(r)
  }

  /** What precedes, and what follows, the hole in the in-order sequence. */
  function Before(c: Ctx): seq<Node> {
    match c
    case Top => []
    case InL(up, _, _, _) => Before(up)
    case InR(up, x, _, l) => Before(up) + InOrder(l) + [x]
  }

  function After(c: Ctx): seq<Node> {
    match c
    case Top => []
    case InL(up, x, _, r) => [x] + InOrder(r) + After(up)
    case InR(up, _, _, _) => After(up)
  }

  /** One step outwards: the subtree of the hole's parent once the hole holds `t`. */
  function Fill(c: Ctx, t: Tree): Tree
    requires !c.Top?
  {
    if c.InL? then Bin(t, c.node, c.red, c.right) else Bin(c.left, c.node, c.red, t)
  }

  function Plug(c: Ctx, t: Tree): Tree {
    if c.Top? then t else Plug(c.up, Fill(c, t))
  }

  /** `inner` seen from outside as a continuation of `outer`. */
  function Extend(outer: Ctx, inner: Ctx): Ctx {
    match inner
    case Top => outer
    case InL(up, x, red, s) => InL(Extend(outer, up), x, red, s)
    case InR(up, x, red, s) => InR(Extend(outer, up), x, red, s)
  }

  function Depth(c: Ctx): nat {
    if c.Top? then 0 else 1 + Depth(c.up)
  }

  function RotL(t: Tree): Tree
    requires t.Bin? && t.right.Bin?
  {
    Bin(Bin(t.left, t.node, t.red, t.right.left), t.right.node, t.right.red, t.right.right)
  }

  function RotR(t: Tree): Tree
    requires t.Bin? && t.left.Bin?
  {
    Bin(t.left.left, t.left.node, t.left.red, Bin(t.left.right, t.node, t.red, t.right))
  }

  function Blacken(t: Tree): Tree {
    if t.Leaf? then t else t.(red := false)
  }

  // ---------------------------------------------------------------- order of the nodes

  lemma {:induction false} PlugInOrder(c: Ctx, t: Tree)
    ensures InOrder(Plug(c, t)) == Before(c) + InOrder(t) + After(c)
    decreases c
  {
    if !c.Top? {
      PlugInOrder(c.up, Fill(c, t));
    }
  }

  /** The nodes of `t` in the hole of `c`, in key order. */
  function Order(c: Ctx, t: Tree): seq<Node> {
    Before(c) + InOrder(t) + After(c)
  }

  lemma OrderUp(c: Ctx, t: Tree)
    requires !c.Top?
    ensures Order(c.up, Fill(c, t)) == Order(c, t)
  {
  }

  lemma {:induction false} ExtendInOrder(outer: Ctx, inner: Ctx)
    ensures Before(Extend(outer, inner)) == Before(outer) + Before(inner)
    ensures After(Extend(outer, inner)) == After(inner) + After(outer)
  {
    match inner
    case Top =>
    case InL(up, _, _, _) => ExtendInOrder(outer, up);
    case InR(up, _, _, _) => ExtendInOrder(outer, up);
  }

  lemma {:induction false} PlugExtend(outer: Ctx, inner: Ctx, t: Tree)
    ensures Plug(Extend(outer, inner), t) == Plug(outer, Plug(inner, t))
    decreases inner
  {
    match inner
    case Top =>
    case InL(up, _, _, _) => PlugExtend(outer, up, Fill(inner, t));
    case InR(up, _, _, _) => PlugExtend(outer, up, Fill(inner, t));
  }

  lemma {:induction false} InOrderNodes(t: Tree)
    ensures forall x :: x in InOrder(t) <==> x in Nodes(t)
  {
    match t
    case Leaf =>
    case Bin(l, _, _, r) => InOrderNodes(l); InOrderNodes(r);
  }

  lemma {:induction false} ContextNodes(c: Ctx)
    ensures forall x :: x in Before(c) || x in After(c) <==> x in CtxNodes(c)
  {
    match c
    case Top =>
    case InL(up, _, _, s) => ContextNodes(up); InOrderNodes(s);
    case InR(up, _, _, s) => ContextNodes(up); InOrderNodes(s);
  }

  lemma {:induction false} PlugNodes(c: Ctx, t: Tree)
    ensures Nodes(Plug(c, t)) == CtxNodes(c) + Nodes(t)
    decreases c
  {
    if !c.Top? { PlugNodes(c.up, Fill(c, t)); }
  }

  lemma {:induction false} ExtendNodes(outer: Ctx, inner: Ctx)
    ensures CtxNodes(Extend(outer, inner)) == CtxNodes(outer) + CtxNodes(inner)
  {
    match inner
    case Top =>
    case InL(up, _, _, _) => ExtendNodes(outer, up);
    case InR(up, _, _, _) => ExtendNodes(outer, up);
  }

  lemma {:induction false} OuterInside(c: Ctx, hole: Node?)
    ensures c.Top? || Outer(c, hole) in CtxNodes(c)
  {
    if !c.Top? { OuterInside(c.up, c.node); }
  }

  /** Rotations keep the node sequence: this is why they keep the search order. */
  lemma RotLKeepsOrder(t: Tree)
    requires t.Bin? && t.right.Bin?
    ensures InOrder(RotL(t)) == InOrder(t)
  {
    var a, x, b, y, c := InOrder(t.left), t.node, InOrder(t.right.left), t.right.node, InOrder(t.right.right);
    assert InOrder(t.right) == b + [y] + c;
    assert InOrder(RotL(t)) == (a + [x] + b) + [y] + c;
    Turned(a, [x], b, [y], c);
  }

  lemma Turned(a: seq<Node>, x: seq<Node>, b: seq<Node>, y: seq<Node>, c: seq<Node>)
    ensures (a + x + b) + y + c == a + x + (b + y + c)
  {
  }

  lemma RotLKeepsNodes(t: Tree)
    requires t.Bin? && t.right.Bin? && Distinct(t)
    ensures Nodes(RotL(t)) == Nodes(t) && Distinct(RotL(t))
  {
    var a, b, d := t.left, t.right.left, t.right.right;
    assert Nodes(t.right) == {t.right.node} + Nodes(b) + Nodes(d);
    assert Distinct(t.right);
    assert Nodes(RotL(t).left) == {t.node} + Nodes(a) + Nodes(b);
    assert Distinct(RotL(t).left);
  }

  lemma RotRKeepsNodes(t: Tree)
    requires t.Bin? && t.left.Bin? && Distinct(t)
    ensures Nodes(RotR(t)) == Nodes(t) && Distinct(RotR(t))
  {
    var a, b, d := t.left.left, t.left.right, t.right;
    assert Nodes(t.left) == {t.left.node} + Nodes(a) + Nodes(b);
    assert Distinct(t.left);
    assert Nodes(RotR(t).right) == {t.node} + Nodes(b) + Nodes(d);
    assert Distinct(RotR(t).right);
  }

  lemma RotRKeepsOrder(t: Tree)
    requires t.Bin? && t.left.Bin?
    ensures InOrder(RotR(t)) == InOrder(t)
  {
    assert RotL(RotR(t)) == t;
    RotLKeepsOrder(RotR(t));
  }

  /** Every node of a tree is the root of a subtree in some context. */
  lemma {:induction false} Locate(outer: Ctx, t: Tree, x: Node) returns (c: Ctx, s: Tree)
    requires x in Nodes(t)
    ensures s.Bin? && s.node == x && Plug(c, s) == Plug(outer, t)
    decreases t
  {
    if t.node == x {
      c, s := outer, t;
    } else if x in Nodes(t.left) {
      c, s := Locate(InL(outer, t.node, t.red, t.right), t.left, x);
    } else {
      c, s := Locate(InR(outer, t.node, t.red, t.left), t.right, x);
    }
  }

  lemma {:induction false} PlugDistinct(c: Ctx, t: Tree)
    ensures Distinct(Plug(c, t)) <==> CtxDistinct(c) && Distinct(t) && CtxNodes(c) !! Nodes(t)
    decreases c
  {
    if !c.Top? { PlugDistinct(c.up, Fill(c, t)); }
  }

  /** What is left of a tree when a node without left child goes. */
  lemma WithoutSuccessor(r: Tree, inner: Ctx, s: Tree)
    requires Distinct(r) && s.Bin? && s.left.Leaf? && Plug(inner, s) == r
    ensures var r' := Plug(inner, s.right);
            Nodes(r) == Nodes(r') + {s.node} && s.node !in Nodes(r') && Distinct(r')
    ensures !inner.Top? ==> inner.node in Nodes(r)
  {
    PlugNodes(inner, s);
    PlugNodes(inner, s.right);
    PlugDistinct(inner, s);
    PlugDistinct(inner, s.right);
    assert Nodes(s) == {s.node} + Nodes(s.right);
    assert !inner.Top? ==> inner.node in CtxNodes(inner);
  }

  /** Where the successor of the root of `t` sits, and what is left when it goes. */
  lemma Successor(t: Tree, inner: Ctx, s: Tree)
    requires t.Bin? && Distinct(t)
    requires s.Bin? && s.left.Leaf? && Plug(inner, s) == t.right
    ensures var t', x := t.(right := Plug(inner, s.right)), s.node;
      x in Nodes(t) && x != t.node && x !in Nodes(t') && Nodes(t) == Nodes(t') + {x} && Distinct(t')
    ensures !inner.Top? ==> inner.node != t.node
  {
    WithoutSuccessor(t.right, inner, s);
  }

  lemma ExtendPar(o: Ctx, inner: Ctx)
    ensures Par(Extend(o, inner)) == if inner.Top? then Par(o) else inner.node
  {
  }

  // ---------------------------------------------------------------- search order

  ghost predicate Sorted(s: seq<Node>) {
    forall i, j :: 0 <= i < j < |s| ==> Less(s[i].key, s[j].key)
  }

  ghost predicate AllLess(s: seq<Node>, k: string) {
    forall x :: x in s ==> Less(x.key, k)
  }

  ghost predicate AllGreater(s: seq<Node>, k: string) {
    forall x :: x in s ==> Less(k, x.key)
  }

  lemma SortedSplit(a: seq<Node>, x: Node, b: seq<Node>)
    ensures Sorted(a + [x] + b) <==> Sorted(a) && Sorted(b) && AllLess(a, x.key) && AllGreater(b, x.key)
  {
    var s := a + [x] + b;
    if Sorted(s) {
      forall y | y in a ensures Less(y.key, x.key) {
        var i :| 0 <= i < |a| && a[i] == y;
        assert s[i] == y && s[|a|] == x;
      }
      forall y | y in b ensures Less(x.key, y.key) {
        var i :| 0 <= i < |b| && b[i] == y;
        assert s[|a| + 1 + i] == y && s[|a|] == x;
      }
      forall i, j | 0 <= i < j < |a| ensures Less(a[i].key, a[j].key) {
        assert a[i] == s[i] && a[j] == s[j];
      }
      forall i, j | 0 <= i < j < |b| ensures Less(b[i].key, b[j].key) {
        assert b[i] == s[|a| + 1 + i] && b[j] == s[|a| + 1 + j];
      }
    }
    if Sorted(a) && Sorted(b) && AllLess(a, x.key) && AllGreater(b, x.key) {
      forall i, j | 0 <= i < j < |s| ensures Less(s[i].key, s[j].key) {
        if i < |a| { assert s[i] == a[i] && a[i] in a; } 
        if j > |a| { assert s[j] == b[j - |a| - 1] && b[j - |a| - 1] in b; }
        if i > |a| { assert s[i] == b[i - |a| - 1]; }
        if j < |a| { assert s[j] == a[j]; }
        if i < |a| < j { LessTrans(s[i].key, x.key, s[j].key); }
      }
    }
  }

  lemma SortedParts(a: seq<Node>, b: seq<Node>)
    requires Sorted(a + b)
    ensures Sorted(a) && Sorted(b)
  {
    var s := a + b;
    forall i, j | 0 <= i < j < |a| ensures Less(a[i].key, a[j].key) {
      assert a[i] == s[i] && a[j] == s[j];
    }
    forall i, j | 0 <= i < j < |b| ensures Less(b[i].key, b[j].key) {
      assert b[i] == s[|a| + i] && b[j] == s[|a| + j];
    }
  }

  /** Putting a new key between the smaller and the greater ones keeps the order. */
  lemma SortedInsert(a: seq<Node>, x: Node, b: seq<Node>)
    requires Sorted(a + b) && AllLess(a, x.key) && AllGreater(b, x.key)
    ensures Sorted(a + [x] + b)
  {
    SortedParts(a, b);
    SortedSplit(a, x, b);
  }

  lemma SortedRemove(a: seq<Node>, x: Node, b: seq<Node>)
    requires Sorted(a + [x] + b)
    ensures Sorted(a + b)
  {
    SortedSplit(a, x, b);
    var s, u := a + [x] + b, a + b;
    forall i, j | 0 <= i < j < |u| ensures Less(u[i].key, u[j].key) {
      assert u[i] == if i < |a| then s[i] else s[i + 1];
      assert u[j] == if j < |a| then s[j] else s[j + 1];
    }
  }

  /** In a sorted sequence split at `k`, the first key from `k` on is the least of them. */
  lemma FirstIsLeast(a: seq<Node>, b: seq<Node>, k: string)
    requires Sorted(a + b) && AllLess(a, k) && AllGreater(b, k) && b != []
    ensures !Less(b[0].key, k)
    ensures forall x | x in a + b && !Less(x.key, k) :: !Less(x.key, b[0].key)
  {
    SortedParts(a, b);
    StrcmpFlip(b[0].key, k);
    forall x | x in a + b && !Less(x.key, k) ensures !Less(x.key, b[0].key) {
      var i :| 0 <= i < |b| && b[i] == x;
      StrcmpFlip(x.key, b[0].key);
      StrcmpZero(x.key, b[0].key);
    }
  }

  lemma SortedUnique(s: seq<Node>, i: nat, j: nat)
    requires Sorted(s) && i < |s| && j < |s| && s[i] == s[j]
    ensures i == j
  {
    StrcmpZero(s[i].key, s[j].key);
  }

  lemma LessAll(s: seq<Node>, k: string, k': string)
    requires AllLess(s, k) && Less(k, k')
    ensures AllLess(s, k')
  {
    forall x | x in s ensures Less(x.key, k') { LessTrans(x.key, k, k'); }
  }

  lemma GreaterAll(s: seq<Node>, k: string, k': string)
    requires AllGreater(s, k) && Less(k', k)
    ensures AllGreater(s, k')
  {
    forall x | x in s ensures Less(k', x.key) { LessTrans(k', k, x.key); }
  }

  // ---------------------------------------------------------------- colours and heights

  predicate IsRed(t: Tree) { t.Bin? && t.red }

  function BH(t: Tree): nat {
    if t.Leaf? then 0 else BH(t.left) + (if t.red then 0 else 1)
  }

  /** Equal black counts on every path, and no red node with a red child. */
  predicate RB(t: Tree) {
    t.Bin? ==> RB(t.left) && RB(t.right) && BH(t.left) == BH(t.right) && (t.red ==> !IsRed(t.left) && !IsRed(t.right))
  }

  /** Filling the hole with a red-black tree of black height `h`, rooted red only if `red`,
      gives a red-black tree with a black root. */
  predicate CtxRB(c: Ctx, h: nat, red: bool) {
    match c
    case Top => !red
    case InL(up, _, xr, s) =>
      RB(s) && BH(s) == h && (xr ==> !red && !IsRed(s)) && CtxRB(up, h + (if xr then 0 else 1), xr)
    case InR(up, _, xr, s) =>
      RB(s) && BH(s) == h && (xr ==> !red && !IsRed(s)) && CtxRB(up, h + (if xr then 0 else 1), xr)
  }

  lemma {:induction false} PlugRB(c: Ctx, t: Tree)
    ensures RB(Plug(c, t)) && !IsRed(Plug(c, t)) <==> RB(t) && CtxRB(c, BH(t), IsRed(t))
    decreases c
  {
    if !c.Top? { PlugRB(c.up, Fill(c, t)); }
  }

  lemma RedHoleIsStronger(c: Ctx, h: nat)
    requires CtxRB(c, h, true)
    ensures CtxRB(c, h, false)
  {
  }

  // ---------------------------------------------------------------- the colour fix-ups

  function Sibling(c: Ctx): Tree
    requires !c.Top?
  {
    if c.InL? then c.right else c.left
  }

  /** What the insertion loop knows: `t` is rooted at the node just made red, and only a red
      parent of it can be wrong. */
  predicate RedOnTop(c: Ctx, t: Tree) {
    IsRed(t) && RB(t) && CtxRB(c, BH(t), false)
  }

  /** What the removal loop knows: paths through the hole are one black node short, and only
      the colour of the root of `t` can be wrong. */
  predicate Short(c: Ctx, t: Tree) {
    RB(Blacken(t)) && (!IsRed(t) ==> RB(t)) && CtxRB(c, BH(t) + 1, false)
  }

  /** A red parent is never the root, and its parent is black. */
  lemma RedParent(c: Ctx, t: Tree)
    requires RedOnTop(c, t) && !c.Top? && c.red
    ensures !c.up.Top? && !c.up.red
  {
    assert CtxRB(c.up, BH(t), true);
  }

  lemma InsertPushL(c: Ctx, t: Tree)
    requires RedOnTop(c, t) && !c.Top? && c.red && c.up.InL? && IsRed(c.up.right)
    ensures var g := Bin(Blacken(Fill(c, t)), c.up.node, true, Blacken(c.up.right));
            RedOnTop(c.up.up, g) && Order(c.up.up, g) == Order(c, t)
  {
    OrderUp(c, t);
    OrderUp(c.up, Fill(c, t));
    assert InOrder(Blacken(Fill(c, t))) == InOrder(Fill(c, t)) && InOrder(Blacken(Sibling(c.up))) == InOrder(Sibling(c.up));
    assert CtxRB(c.up, BH(t), true);
    assert RB(Blacken(Fill(c, t)));
  }

  lemma InsertPushR(c: Ctx, t: Tree)
    requires RedOnTop(c, t) && !c.Top? && c.red && c.up.InR? && IsRed(c.up.left)
    ensures var g := Bin(Blacken(c.up.left), c.up.node, true, Blacken(Fill(c, t)));
            RedOnTop(c.up.up, g) && Order(c.up.up, g) == Order(c, t)
  {
    OrderUp(c, t);
    OrderUp(c.up, Fill(c, t));
    assert InOrder(Blacken(Fill(c, t))) == InOrder(Fill(c, t)) && InOrder(Blacken(Sibling(c.up))) == InOrder(Sibling(c.up));
    assert CtxRB(c.up, BH(t), true);
    assert RB(Blacken(Fill(c, t)));
  }

  /** The inner rotation turns a zig-zag into a zig-zig. */
  lemma InsertTurnL(c: Ctx, t: Tree)
    requires RedOnTop(c, t) && c.InR? && c.red
    ensures RedOnTop(InL(c.up, t.node, true, t.right), Bin(c.left, c.node, true, t.left))
  {
  }

  lemma InsertTurnR(c: Ctx, t: Tree)
    requires RedOnTop(c, t) && c.InL? && c.red
    ensures RedOnTop(InR(c.up, t.node, true, t.left), Bin(t.right, c.node, true, c.right))
  {
  }

  /** The outer rotation ends the loop: the parent is black now. */
  lemma InsertLiftL(c: Ctx, t: Tree)
    requires RedOnTop(c, t) && c.InL? && c.red && c.up.InL? && !IsRed(c.up.right)
    ensures RedOnTop(InL(c.up.up, c.node, false, Bin(c.right, c.up.node, true, c.up.right)), t)
  {
    assert CtxRB(c.up, BH(t), true);
  }

  lemma InsertLiftR(c: Ctx, t: Tree)
    requires RedOnTop(c, t) && c.InR? && c.red && c.up.InR? && !IsRed(c.up.left)
    ensures RedOnTop(InR(c.up.up, c.node, false, Bin(c.up.left, c.up.node, true, c.left)), t)
  {
    assert CtxRB(c.up, BH(t), true);
  }

  lemma InsertLiftOrderL(c: Ctx, t: Tree)
    requires c.InL? && c.up.InL?
    ensures Order(InL(c.up.up, c.node, false, Bin(c.right, c.up.node, true, c.up.right)), t) == Order(c, t)
  {
    var g := Bin(c.right, c.up.node, true, c.up.right);
    var c' := InL(c.up.up, c.node, false, g);
    assert Before(c) == Before(c.up) == Before(c.up.up) == Before(c');
    assert After(c.up) == [c.up.node] + InOrder(c.up.right) + After(c.up.up);
    assert InOrder(g) == InOrder(c.right) + [c.up.node] + InOrder(c.up.right);
    assert After(c') == [c.node] + InOrder(g) + After(c.up.up);
    assert After(c') == [c.node] + InOrder(c.right) + ([c.up.node] + InOrder(c.up.right) + After(c.up.up));
  }

  lemma InsertLiftOrderR(c: Ctx, t: Tree)
    requires c.InR? && c.up.InR?
    ensures Order(InR(c.up.up, c.node, false, Bin(c.up.left, c.up.node, true, c.left)), t) == Order(c, t)
  {
    var g := Bin(c.up.left, c.up.node, true, c.left);
    var c' := InR(c.up.up, c.node, false, g);
    assert After(c) == After(c.up) == After(c.up.up) == After(c');
    assert Before(c.up) == Before(c.up.up) + InOrder(c.up.left) + [c.up.node];
    assert InOrder(g) == InOrder(c.up.left) + [c.up.node] + InOrder(c.left);
    assert Before(c') == Before(c.up.up) + InOrder(g) + [c.node];
    assert Before(c') == (Before(c.up.up) + InOrder(c.up.left) + [c.up.node]) + InOrder(c.left) + [c.node];
  }

  lemma InsertDone(c: Ctx, t: Tree)
    requires RedOnTop(c, t) && (c.Top? || !c.red)
    ensures RB(Blacken(Plug(c, t)))
  {
    if !c.Top? {
      assert CtxRB(c, BH(t), true);
      PlugRB(c, t);
    }
  }

  /** A red sibling is rotated away; the hole gets a black sibling and a red parent. */
  lemma RemoveRedSiblingL(c: Ctx, t: Tree)
    requires Short(c, t) && c.InL? && IsRed(c.right)
    ensures c.right.left.Bin? && !c.right.left.red && !c.red
    ensures Short(InL(InL(c.up, c.right.node, false, c.right.right), c.node, true, c.right.left), t)
  {
  }

  lemma RemoveRedSiblingR(c: Ctx, t: Tree)
    requires Short(c, t) && c.InR? && IsRed(c.left)
    ensures c.left.right.Bin? && !c.left.right.red && !c.red
    ensures Short(InR(InR(c.up, c.left.node, false, c.left.left), c.node, true, c.left.right), t)
  {
  }

  /** Two black nephews: the sibling is made red and the shortage moves up. */
  lemma RemovePushL(c: Ctx, t: Tree)
    requires Short(c, t) && !IsRed(t) && c.InL? && c.right.Bin? && !c.right.red
    requires !IsRed(c.right.left) && !IsRed(c.right.right)
    ensures Short(c.up, Bin(t, c.node, c.red, c.right.(red := true)))
  {
    assert RB(c.right.(red := true)) && BH(c.right.(red := true)) == BH(t);
    if c.red { RedHoleIsStronger(c.up, BH(t) + 1); }
  }

  lemma RemovePushR(c: Ctx, t: Tree)
    requires Short(c, t) && !IsRed(t) && c.InR? && c.left.Bin? && !c.left.red
    requires !IsRed(c.left.left) && !IsRed(c.left.right)
    ensures Short(c.up, Bin(c.left.(red := true), c.node, c.red, t))
  {
    assert RB(c.left.(red := true)) && BH(c.left.(red := true)) == BH(t);
    if c.red { RedHoleIsStronger(c.up, BH(t) + 1); }
  }

  /** A black far nephew: the near one is red and is rotated to the far side. */
  lemma RemoveTurnL(c: Ctx, t: Tree)
    requires Short(c, t) && !IsRed(t) && c.InL? && c.right.Bin? && !c.right.red
    requires IsRed(c.right.left) && !IsRed(c.right.right)
    ensures Short(c.(right := RotR(c.right.(red := true, left := Blacken(c.right.left)))), t)
  {
    var s := c.right;
    assert RB(s.left) && RB(Bin(s.left.right, s.node, true, s.right));
  }

  lemma RemoveTurnR(c: Ctx, t: Tree)
    requires Short(c, t) && !IsRed(t) && c.InR? && c.left.Bin? && !c.left.red
    requires IsRed(c.left.right) && !IsRed(c.left.left)
    ensures Short(c.(left := RotL(c.left.(red := true, right := Blacken(c.left.right)))), t)
  {
    var s := c.left;
    assert RB(s.right) && RB(Bin(s.left, s.node, true, s.right.left));
  }

  /** A red far nephew: one rotation makes up for the missing black node. */
  lemma RemoveLiftL(c: Ctx, t: Tree)
    requires Short(c, t) && !IsRed(t) && c.InL? && c.right.Bin? && !c.right.red && IsRed(c.right.right)
    ensures var s := c.right; var n := Bin(Bin(t, c.node, false, s.left), s.node, c.red, Blacken(s.right));
            RB(n) && CtxRB(c.up, BH(n), IsRed(n))
  {
    var s := c.right;
    assert RB(s.right) && RB(Bin(t, c.node, false, s.left));
  }

  lemma RemoveLiftR(c: Ctx, t: Tree)
    requires Short(c, t) && !IsRed(t) && c.InR? && c.left.Bin? && !c.left.red && IsRed(c.left.left)
    ensures var s := c.left; var n := Bin(Blacken(s.left), s.node, c.red, Bin(s.right, c.node, false, t));
            RB(n) && CtxRB(c.up, BH(n), IsRed(n))
  {
    var s := c.left;
    assert RB(s.left) && RB(Bin(s.right, c.node, false, t));
  }

  lemma RemoveOrderL(c: Ctx, t: Tree)
    requires c.InL? && c.right.Bin?
    ensures var s := c.right;
            Order(InL(InL(c.up, s.node, false, s.right), c.node, true, s.left), t) == Order(c, t)
  {
    hide InOrder;
    var s := c.right;
    InOrderOf(s);
    var o := InL(c.up, s.node, false, s.right);
    var c' := InL(o, c.node, true, s.left);
    assert Before(c') == Before(o) == Before(c.up) == Before(c);
    assert After(o) == [s.node] + InOrder(s.right) + After(c.up);
    assert After(c') == [c.node] + InOrder(s.left) + ([s.node] + InOrder(s.right) + After(c.up));
    assert After(c) == [c.node] + (InOrder(s.left) + [s.node] + InOrder(s.right)) + After(c.up);
    Between([c.node], InOrder(s.left), [s.node], InOrder(s.right), After(c.up));
    assert After(c') == [c.node] + (InOrder(s.left) + [s.node] + (InOrder(s.right) + After(c.up)));
  }

  lemma RemoveOrderR(c: Ctx, t: Tree)
    requires c.InR? && c.left.Bin?
    ensures var s := c.left;
            Order(InR(InR(c.up, s.node, false, s.left), c.node, true, s.right), t) == Order(c, t)
  {
    hide InOrder;
    var s := c.left;
    InOrderOf(s);
    var o := InR(c.up, s.node, false, s.left);
    var c' := InR(o, c.node, true, s.right);
    assert After(c') == After(o) == After(c.up) == After(c);
    assert Before(o) == Before(c.up) + InOrder(s.left) + [s.node];
    assert Before(c') == (Before(c.up) + InOrder(s.left) + [s.node]) + InOrder(s.right) + [c.node];
    assert Before(c) == Before(c.up) + (InOrder(s.left) + [s.node] + InOrder(s.right)) + [c.node];
    Between(Before(c.up), InOrder(s.left), [s.node], InOrder(s.right), [c.node]);
  }

  lemma InOrderOf(t: Tree)
    requires t.Bin?
    ensures InOrder(t) == InOrder(t.left) + [t.node] + InOrder(t.right)
  {
  }

  lemma Between(a: seq<Node>, b: seq<Node>, c: seq<Node>, d: seq<Node>, e: seq<Node>)
    ensures (a + b + c) + d + e == a + (b + c + d) + e
    ensures a + (b + c + (d + e)) == a + ((b + c + d) + e)
  {
  }

  /** A black hole always has a sibling. */
  lemma ShortSibling(c: Ctx, t: Tree)
    requires Short(c, t)
    ensures (c.InL? ==> c.right.Bin?) && (c.InR? ==> c.left.Bin?)
  {
  }

  lemma RemoveDone(c: Ctx, t: Tree)
    requires Short(c, t) && (c.Top? || IsRed(t))
    ensures RB(Plug(c, Blacken(t))) && !IsRed(Plug(c, Blacken(t)))
  {
    if !c.Top? { PlugRB(c, Blacken(t)); }
  }

  /** A new red leaf in an empty hole between smaller and greater keys. */
  lemma NewLeaf(c: Ctx, x: Node)
    requires RB(Plug(c, Leaf)) && !IsRed(Plug(c, Leaf)) && Sorted(InOrder(Plug(c, Leaf)))
    requires AllLess(Before(c), x.key) && AllGreater(After(c), x.key)
    ensures var t := Bin(Leaf, x, true, Leaf);
            RedOnTop(c, t) && Sorted(Order(c, t)) && Order(c, t) == Before(c) + [x] + After(c)
  {
    PlugRB(c, Leaf);
    PlugInOrder(c, Leaf);
    assert InOrder(Plug(c, Leaf)) == Before(c) + After(c);
    SortedInsert(Before(c), x, After(c));
    assert InOrder(Bin(Leaf, x, true, Leaf)) == [x];
  }

  lemma HoleIndex(c: Ctx)
    ensures var s, i := InOrder(Plug(c, Leaf)), |Before(c)|;
            i <= |s| && s[..i] == Before(c) && s[i..] == After(c) && s == Before(c) + After(c)
  {
    PlugInOrder(c, Leaf);
    assert InOrder(Plug(c, Leaf)) == Before(c) + After(c);
  }

  /** Black heights do not see which node sits where. */
  lemma {:induction false} ExtendRB(o: Ctx, o': Ctx, inner: Ctx, h: nat, red: bool)
    requires forall k: nat, r :: CtxRB(o, k, r) <==> CtxRB(o', k, r)
    ensures CtxRB(Extend(o, inner), h, red) <==> CtxRB(Extend(o', inner), h, red)
  {
    match inner
    case Top =>
    case InL(up, _, xr, _) => ExtendRB(o, o', up, h + (if xr then 0 else 1), xr);
    case InR(up, _, xr, _) => ExtendRB(o, o', up, h + (if xr then 0 else 1), xr);
  }

  /** A red node with at most one child can go without further ado; a black one leaves its
      only subtree one short. */
  lemma CutOut(c: Ctx, t: Tree, s: Tree)
    requires RB(Plug(c, t)) && !IsRed(Plug(c, t)) && t.Bin?
    requires (t.left.Leaf? && s == t.right) || (t.right.Leaf? && s == t.left)
    ensures t.red ==> RB(Plug(c, s)) && !IsRed(Plug(c, s))
    ensures !t.red ==> Short(c, s)
    ensures t.red ==> RB(s) && !IsRed(s) && CtxRB(c, BH(s), false)
  {
    hide Plug, CtxRB;
    PlugRB(c, t);
    if t.red {
      RedHoleIsStronger(c, BH(t));
      PlugRB(c, s);
    }
  }

  /** Cutting a node out cuts it out of the sequence. */
  lemma CutOrder(c: Ctx, t: Tree, s: Tree)
    requires t.Bin? && ((t.left.Leaf? && s == t.right) || (t.right.Leaf? && s == t.left))
    requires Sorted(InOrder(Plug(c, t)))
    ensures Order(c, s) == Ahead(c, t) + Behind(c, t) && Sorted(Order(c, s))
  {
    AheadBehind(c, t);
    SortedRemove(Ahead(c, t), t.node, Behind(c, t));
  }

  /** The nodes before, and after, the root of `t` in the whole tree. */
  function Ahead(c: Ctx, t: Tree): seq<Node>
    requires t.Bin?
  {
    Before(c) + InOrder(t.left)
  }

  function Behind(c: Ctx, t: Tree): seq<Node>
    requires t.Bin?
  {
    InOrder(t.right) + After(c)
  }

  lemma AheadBehind(c: Ctx, t: Tree)
    requires t.Bin?
    ensures InOrder(Plug(c, t)) == Ahead(c, t) + [t.node] + Behind(c, t)
    ensures var s, i := InOrder(Plug(c, t)), |Ahead(c, t)|;
            i < |s| && s[i] == t.node && s[..i] == Ahead(c, t) && s[i + 1..] == Behind(c, t)
  {
    hide InOrder, Plug, Before, After;
    PlugInOrder(c, t);
    RootOrder(t);
    GroupAround(Before(c), InOrder(t.left), t.node, InOrder(t.right), After(c));
  }

  lemma RootOrder(t: Tree)
    requires t.Bin?
    ensures InOrder(t) == InOrder(t.left) + [t.node] + InOrder(t.right)
  {
  }

  lemma GroupAround(a: seq<Node>, b: seq<Node>, x: Node, d: seq<Node>, e: seq<Node>)
    ensures var s := a + (b + [x] + d) + e;
      s == (a + b) + [x] + (d + e) && s[|a + b|] == x && s[..|a + b|] == a + b && s[|a + b| + 1..] == d + e
  {
  }

  /** Moving the successor into the place of the root of `t` leaves the sequence without that root. */
  lemma PromoteOrder(c: Ctx, t: Tree, inner: Ctx, s: Tree)
    requires t.Bin? && s.Bin? && s.left.Leaf? && Plug(inner, s) == t.right && Before(inner) == []
    requires Sorted(InOrder(Plug(c, t)))
    ensures var d := Extend(InR(c, s.node, t.red, t.left), inner);
            Order(d, s.right) == Ahead(c, t) + Behind(c, t) && Sorted(Order(d, s.right))
  {
    var o := InR(c, s.node, t.red, t.left);
    var d := Extend(o, inner);
    ExtendInOrder(o, inner);
    PlugInOrder(inner, s);
    AheadBehind(c, t);
    SortedRemove(Ahead(c, t), t.node, Behind(c, t));
    var a, x, r, e, f := Ahead(c, t), [s.node], InOrder(s.right), After(inner), After(c);
    assert InOrder(s.left) == [];
    assert Before(d) == a + x + [] && After(d) == e + f;
    assert Behind(c, t) == ([] + ([] + x + r) + e) + f;
    Regroup(a, x, r, e, f);
  }

  lemma Regroup(a: seq<Node>, x: seq<Node>, r: seq<Node>, e: seq<Node>, f: seq<Node>)
    ensures (a + x + []) + r + (e + f) == a + (([] + ([] + x + r) + e) + f)
  {
  }

  lemma PromoteRB(c: Ctx, t: Tree, inner: Ctx, s: Tree)
    requires t.Bin? && s.Bin? && s.left.Leaf? && Plug(inner, s) == t.right
    requires RB(Plug(c, t)) && !IsRed(Plug(c, t))
    ensures var d := Extend(InR(c, s.node, t.red, t.left), inner);
            (s.red ==> RB(s.right) && CtxRB(d, BH(s.right), IsRed(s.right))) && (!s.red ==> Short(d, s.right))
  {
    var o, o' := InR(c, t.node, t.red, t.left), InR(c, s.node, t.red, t.left);
    PlugExtend(o, inner, s);
    CutOut(Extend(o, inner), s, s.right);
    ExtendRB(o, o', inner, BH(s.right), IsRed(s.right));
    ExtendRB(o, o', inner, BH(s.right) + 1, false);
  }

  function Size(t: Tree): nat {
    if t.Leaf? then 0 else Size(t.left) + 1 + Size(t.right)
  }

  lemma {:induction false} SizeIsCount(t: Tree)
    requires Distinct(t)
    ensures Size(t) == |Nodes(t)|
  {
    if t.Bin? {
      SizeIsCount(t.left);
      SizeIsCount(t.right);
      assert Nodes(t) == {t.node} + (Nodes(t.left) + Nodes(t.right));
    }
  }

  function Height(t: Tree): nat {
    if t.Leaf? then 0 else 1 + (if Height(t.left) > Height(t.right) then Height(t.left) else Height(t.right))
  }

  function Pow2(n: nat): nat {
    if n == 0 then 1 else 2 * Pow2(n - 1)
  }

  lemma {:induction false} SizeAboveBlackHeight(t: Tree)
    requires RB(t)
    ensures Pow2(BH(t)) <= Size(t) + 1
  {
    if t.Bin? { SizeAboveBlackHeight(t.left); SizeAboveBlackHeight(t.right); }
  }

  lemma {:induction false} HeightBelowBlackHeight(t: Tree)
    requires RB(t)
    ensures Height(t) <= 2 * BH(t) + (if IsRed(t) then 1 else 0)
  {
    if t.Bin? { HeightBelowBlackHeight(t.left); HeightBelowBlackHeight(t.right); }
  }

  lemma {:induction false} Pow2Mono(m: nat, n: nat)
    requires m <= n
    ensures Pow2(m) <= Pow2(n)
  {
    if m < n { Pow2Mono(m, n - 1); }
  }

  lemma {:induction false} Pow2Double(n: nat)
    ensures Pow2(2 * n) == Pow2(n) * Pow2(n)
  {
    if n > 0 {
      Pow2Double(n - 1);
      assert Pow2(2 * n) == 2 * (2 * Pow2(2 * (n - 1)));
    }
  }

  lemma SquareMono(p: nat, n: nat)
    requires p <= n
    ensures p * p <= n * n
  {
    assert p * p <= p * n;
    assert p * n <= n * n;
  }

  /** Height at most 2 lg(n + 1), without logarithms: 2^height <= (n + 1)^2. */
  lemma HeightBound(t: Tree)
    requires RB(t) && !IsRed(t)
    ensures Pow2(Height(t)) <= (Size(t) + 1) * (Size(t) + 1)
  {
    hide Pow2, Height, BH, Size, RB;
    HeightBelowBlackHeight(t);
    SizeAboveBlackHeight(t);
    Pow2Mono(Height(t), 2 * BH(t));
    Pow2Double(BH(t));
    SquareMono(Pow2(BH(t)), Size(t) + 1);
  }
}
