/**
 cJSON_Duplicate (src/cJSON.c): a copy of a tree of linked items that shares no item with it.
*/
module Duplicate {
  import opened ChildList

  /** An item with its children, down to the leaves. */
  datatype Tree = Tree(item: Item, kids: seq<Tree>)

  /** What a tree of items says. */
  datatype Rose = Rose(load: Payload, kids: seq<Rose>)

  /** All items of some trees, and those that are not roots. */
  ghost function All(ts: seq<Tree>): set<Item> {
    if ts == [] then {} else {ts[0].item} + All(ts[0].kids) + All(ts[1..])
  }

  ghost function Under(ts: seq<Tree>): set<Item> {
    if ts == [] then {} else All(ts[0].kids) + Under(ts[1..])
  }

  ghost function Roots(ts: seq<Tree>): (s: seq<Item>)
    ensures |s| == |ts| && forall i :: 0 <= i < |s| ==> s[i] == ts[i].item
  {
    seq(|ts|, i requires 0 <= i < |ts| => ts[i].item)
  }

  function Contents(ts: seq<Tree>): seq<Rose> {
    if ts == [] then [] else [Rose(ts[0].item.load, Contents(ts[0].kids))] + Contents(ts[1..])
  }

  /** The copy of a payload belongs to its item: it is no reference to another one. */
  function Own(load: Payload): Payload {
    load.(isReference := false)
  }

  function Copies(rs: seq<Rose>): seq<Rose> {
    if rs == [] then [] else [Rose(Own(rs[0].load), Copies(rs[0].kids))] + Copies(rs[1..])
  }

  lemma {:induction false} RootsInside(ts: seq<Tree>)
    ensures forall x <- Roots(ts) :: x in All(ts)
    decreases ts
  {
    if ts != [] {
      RootsInside(ts[1..]);
      assert Roots(ts) == [ts[0].item] + Roots(ts[1..]);
    }
  }

  /** The children of every item in `ts` are linked as `ts` says. */
  ghost predicate Built(ts: seq<Tree>)
    reads All(ts)`child, All(ts)`kids, Under(ts)`next, Under(ts)`prev
  {
    if ts == [] then true
    else
      RootsInside(ts[0].kids); UnderInside(ts[0].kids);
      && ts[0].item.kids == Roots(ts[0].kids)
      && Chain(ts[0].item.child, Roots(ts[0].kids))
      && Built(ts[0].kids) && Built(ts[1..])
  }

  lemma {:induction false} UnderInside(ts: seq<Tree>)
    ensures Under(ts) <= All(ts)
    decreases ts
  {
    if ts != [] { UnderInside(ts[1..]); }
  }

  /** No item is in two places. */
  ghost predicate Separate(ts: seq<Tree>) {
    ts == [] || (
      && ts[0].item !in All(ts[0].kids) + All(ts[1..]) && All(ts[0].kids) !! All(ts[1..])
      && Separate(ts[0].kids) && Separate(ts[1..]))
  }

  lemma {:induction false} AllConcat(a: seq<Tree>, b: seq<Tree>)
    ensures All(a + b) == All(a) + All(b) && Under(a + b) == Under(a) + Under(b)
    ensures Built(a + b) <==> Built(a) && Built(b)
    ensures Separate(a) && Separate(b) && All(a) !! All(b) ==> Separate(a + b)
    decreases |a|
  {
    if a == [] {
      assert a + b == b;
    } else {
      assert (a + b)[0] == a[0] && (a + b)[1..] == a[1..] + b;
      AllConcat(a[1..], b);
    }
  }

  lemma {:induction false} RootsAbove(ts: seq<Tree>)
    requires Separate(ts)
    ensures forall x <- Roots(ts) :: x !in Under(ts)
    ensures Distinct(Roots(ts))
    decreases ts
  {
    if ts != [] {
      RootsAbove(ts[1..]);
      RootsInside(ts[1..]);
      UnderInside(ts[1..]);
      assert Roots(ts) == [ts[0].item] + Roots(ts[1..]);
    }
  }

  // ---------------------------------------------------------------- the copy

  /** The links of element `k` of a list that has no link back to its end yet. */
  ghost predicate StrungAt(s: seq<Item>, k: nat)
    requires k < |s|
    reads {s[k]}`next, {s[k]}`prev
  {
    s[k].next == Get(s, k + 1) && (k > 0 ==> s[k].prev == s[k - 1])
  }

  ghost predicate Strung(s: seq<Item>)
    reads (set x | x in s)`next, (set x | x in s)`prev
  {
    forall k :: 0 <= k < |s| ==> StrungAt(s, k)
  }

  /** The copies of the children so far, linked below `copy`. */
  ghost predicate Begun(copy: Item, last: Item?, us: seq<Tree>)
    reads copy`child, All(us)`child, All(us)`kids, All(us)`next, All(us)`prev
  {
    RootsInside(us); UnderInside(us);
    && Built(us) && Separate(us) && copy !in All(us) && Strung(Roots(us))
    && copy.child == Get(Roots(us), 0) && last == if us == [] then null else us[|us| - 1].item
  }

  /** One more copied child is linked behind the last one. */
  method LinkCopy(copy: Item, last: Item?, newchild: Item, ghost us: seq<Tree>, ghost v: Tree,
                  ghost made: set<Item>)
    requires Begun(copy, last, us) && Built([v]) && Separate([v]) && All([v]) !! All(us) + {copy} && v.item == newchild
    requires All(us) + All([v]) <= made && newchild.next == null && newchild.prev == null
    modifies copy`child, (if last == null then {} else {last})`next, newchild`prev
    ensures Begun(copy, newchild, us + [v])
  {
    hide Built, Separate, All, Under;
    RootsAbove(us);
    RootsInside(us);
    UnderInside(us);
    OneTree(v);
    UnderOne(v);
    UnderInside([v]);
    assert last != null ==> last == Roots(us)[|us| - 1] && last in Roots(us);
    String(copy, last, newchild, Roots(us));
    AllConcat(us, [v]);
    assert Roots(us + [v]) == Roots(us) + [newchild];
    assert Built(us) && Built([v]);
  }

  lemma UnderOne(v: Tree)
    ensures Under([v]) == All(v.kids)
  {
    assert [v][1..] == [];
  }

  /** The links of the loop. */
  method String(copy: Item, last: Item?, newchild: Item, ghost s: seq<Item>)
    requires Strung(s) && copy.child == Get(s, 0) && last == (if s == [] then null else s[|s| - 1]) && Distinct(s)
    requires newchild !in s && newchild.next == null && newchild.prev == null
    modifies copy`child, (if last == null then {} else {last})`next, newchild`prev
    ensures Strung(s + [newchild]) && copy.child == Get(s + [newchild], 0)
  {
    ghost var z := s + [newchild];
    if last != null {
      assert StrungAt(s, |s| - 1) && last in s;
      last.next := newchild;
      newchild.prev := last;
    } else {
      copy.child := newchild;
    }
    forall k | 0 <= k < |z| ensures StrungAt(z, k) {
      if k < |s| { assert old(StrungAt(s, k)); }
    }
  }

  lemma NothingCopied(copy: Item)
    requires copy.child == null
    ensures Begun(copy, null, []) && All([]) == {} && Contents([]) == [] && Copies([]) == []
  {
  }

  lemma OneTree(t: Tree)
    ensures Built([t]) <==> t.item.kids == Roots(t.kids) && Chain(t.item.child, Roots(t.kids)) && Built(t.kids)
    ensures Separate([t]) <==> t.item !in All(t.kids) && Separate(t.kids)
    ensures All([t]) == {t.item} + All(t.kids)
    ensures Contents([t]) == [Rose(t.item.load, Contents(t.kids))]
    ensures Copies(Contents([t])) == [Rose(Own(t.item.load), Copies(Contents(t.kids)))]
  {
    assert [t][1..] == [];
  }

  lemma {:induction false} KidBuilt(ts: seq<Tree>, i: nat)
    requires Built(ts) && i < |ts|
    ensures Built([ts[i]]) && All([ts[i]]) <= All(ts)
    decreases i
  {
    if i == 0 {
      assert [ts[0]][1..] == [];
    } else {
      KidBuilt(ts[1..], i - 1);
    }
  }

  lemma {:induction false} CopiesConcat(a: seq<Rose>, b: seq<Rose>)
    ensures Copies(a + b) == Copies(a) + Copies(b)
    decreases |a|
  {
    if a == [] {
      assert a + b == b;
    } else {
      assert (a + b)[1..] == a[1..] + b;
      CopiesConcat(a[1..], b);
    }
  }

  lemma {:induction false} ContentsConcat(a: seq<Tree>, b: seq<Tree>)
    ensures Contents(a + b) == Contents(a) + Contents(b)
    decreases |a|
  {
    if a == [] {
      assert a + b == b;
    } else {
      assert (a + b)[0] == a[0] && (a + b)[1..] == a[1..] + b;
      ContentsConcat(a[1..], b);
    }
  }

  lemma KidCopied(ts: seq<Tree>, us: seq<Tree>, v: Tree)
    requires |us| < |ts| && Contents(us) == Copies(Contents(ts[..|us|])) && Contents([v]) == Copies(Contents([ts[|us|]]))
    ensures Contents(us + [v]) == Copies(Contents(ts[..|us| + 1]))
  {
    hide Contents, Copies;
    var front, one := ts[..|us|], [ts[|us|]];
    assert ts[..|us| + 1] == front + one;
    ContentsConcat(us, [v]);
    ContentsConcat(front, one);
    CopiesConcat(Contents(front), Contents(one));
  }

  /** The first child gets its link to the last one. */
  method CloseRing(copy: Item, last: Item?, ghost us: seq<Tree>)
    requires Begun(copy, last, us)
    modifies copy`kids, (if copy.child == null then {} else {copy.child})`prev
    ensures Built([Tree(copy, us)]) && Separate([Tree(copy, us)])
  {
    ghost var s := Roots(us);
    RootsInside(us);
    RootsAbove(us);
    if copy.child != null {
      assert StrungAt(s, |s| - 1) && StrungAt(s, 0) && s[0] in s;
      copy.child.prev := last;
    }
    copy.kids := s;
    forall k | 0 <= k < |s| ensures LinkAt(s, k) {
      assert old(StrungAt(s, k));
    }
    OneTree(Tree(copy, us));
  }

  /** cJSON_Duplicate: an item by itself, or with copies of all its children. */
  method Duplicate(item: Item?, recurse: bool, ghost t: Tree, ghost own: set<Item>)
    returns (copy: Item?, ghost u: Tree, ghost made: set<Item>)
    requires item != null ==> t.item == item && Built([t]) && All([t]) <= own
    ensures item == null ==> copy == null
    ensures item != null ==>
      && copy == u.item && copy.next == null && copy.prev == null
      && Built([u]) && Separate([u]) && All([u]) == made && copy in made && fresh(made)
      && Contents([u]) == if recurse then Copies(Contents([t])) else [Rose(Own(item.load), [])]
    decreases t
  {
    hide Built, Separate, Copies, Contents, Begun;
    u, made := t, {};
    if item == null {
      return null, t, {};
    }
    OneTree(t);
    UnderInside(t.kids);
    RootsInside(t.kids);
    copy := new Item(Own(item.load));
    ghost var us: seq<Tree> := [];
    NothingCopied(copy);
    if recurse {
      us, made := CopyChildren(copy, item, t, own);
    }
    u := Tree(copy, us);
    OneTree(u);
    made := made + {copy};
  }

  /** The loop over the children. */
  method CopyChildren(copy: Item, item: Item, ghost t: Tree, ghost own: set<Item>)
    returns (ghost us: seq<Tree>, ghost made: set<Item>)
    requires t.item == item && item.kids == Roots(t.kids) && Chain(item.child, Roots(t.kids)) && Built(t.kids)
    requires {item} + All(t.kids) <= own && copy !in own
    requires copy.child == null && copy.next == null && copy.prev == null
    modifies copy
    ensures copy.next == null && copy.prev == null
    ensures Built([Tree(copy, us)]) && Separate([Tree(copy, us)]) && All(us) == made && fresh(made)
    ensures Contents(us) == Copies(Contents(t.kids))
    decreases t, 0
  {
    hide Built, Separate, Copies, Contents, Begun, Chain, All, Under;
    us, made := [], {};
    NothingCopied(copy);
    var child := item.child;
    var last: Item? := null;
    ghost var s := Roots(t.kids);
    UnderInside(t.kids);
    RootsInside(t.kids);
    FirstKid(item, s);
    while child != null
      invariant |us| <= |t.kids| && child == Get(s, |us|) && Chain(item.child, s) && Built(t.kids)
      invariant Begun(copy, last, us) && All(us) == made && fresh(made)
      invariant copy.next == null && copy.prev == null
      invariant Contents(us) == Copies(Contents(t.kids[..|us|]))
      decreases |t.kids| - |us|
    {
      var newchild; ghost var v, more;
      KidBuilt(t.kids, |us|);
      newchild, v, more := Duplicate(child, true, t.kids[|us|], own);
      AllConcat(us, [v]);
      BegunEnds(copy, last, us);
      LinkCopy(copy, last, newchild, us, v, made + more);
      KidCopied(t.kids, us, v);
      NextKid(item, s, |us|);
      us, made := us + [v], made + more;
      last := newchild;
      child := child.next;
    }
    assert t.kids[..|us|] == t.kids;
    BegunEnds(copy, last, us);
    CloseRing(copy, last, us);
  }

  lemma BegunEnds(copy: Item, last: Item?, us: seq<Tree>)
    requires Begun(copy, last, us)
    ensures (last != null ==> last in All(us)) && (copy.child != null ==> copy.child in All(us)) && copy !in All(us)
  {
    RootsInside(us);
    if us != [] {
      assert Roots(us)[|us| - 1] in Roots(us) && Roots(us)[0] in Roots(us);
    }
  }

  lemma FirstKid(item: Item, s: seq<Item>)
    requires Chain(item.child, s)
    ensures item.child == Get(s, 0)
  {
  }

  lemma NextKid(item: Item, s: seq<Item>, k: nat)
    requires Chain(item.child, s) && k < |s|
    ensures s[k].next == Get(s, k + 1)
  {
    assert LinkAt(s, k);
  }
}
