/**
 The linked children of a JSON item (src/cJSON.c): a list through `next` whose first element's
 `prev` is the last one, kept in step with a sequence.
*/
module ChildList {
  import opened JsonSpec

  /** What an item holds besides its links: its kind and flags, number, text and key. */
  datatype Payload = Payload(kind: nat, isReference: bool, number: real, text: Option<string>, key: Option<string>)

  class Item {
    const load: Payload
    var next: Item?
    var prev: Item?
    var child: Item?
    ghost var kids: seq<Item>

    constructor (load: Payload)
      ensures this.load == load && next == null && prev == null && child == null && kids == []
    {
      this.load := load;
      next, prev, child, kids := null, null, null, [];
    }
  }

  /** `child` and the links between the children spell out the sequence `s`. */
  ghost predicate Chain(child: Item?, s: seq<Item>)
    reads (set x | x in s)`next, (set x | x in s)`prev
  {
    && child == Get(s, 0)
    && (forall i :: 0 <= i < |s| ==> LinkAt(s, i))
    && Distinct(s)
  }

  /** The links of element `i`: to the one behind it, and to the one before it, the last one for
      the first. */
  ghost predicate LinkAt(s: seq<Item>, i: nat)
    requires i < |s|
    reads {s[i]}`next, {s[i]}`prev
  {
    s[i].next == Get(s, i + 1) && s[i].prev == s[if i == 0 then |s| - 1 else i - 1]
  }

  ghost predicate Distinct(s: seq<Item>) {
    forall i, j :: 0 <= i < j < |s| ==> s[i] != s[j]
  }

  ghost predicate Valid(p: Item)
    reads p`child, p`kids, (set x | x in p.kids)`next, (set x | x in p.kids)`prev
  {
    Chain(p.child, p.kids)
  }

  /** Element `i` of a sequence, or null past its end. */
  ghost function Get(s: seq<Item>, i: nat): Item? {
    if i < |s| then s[i] else null
  }

  ghost function Inserted(s: seq<Item>, i: nat, x: Item): seq<Item> {
    if i < |s| then s[..i] + [x] + s[i..] else s + [x]
  }

  ghost function Removed(s: seq<Item>, i: nat): seq<Item> {
    if i < |s| then s[..i] + s[i + 1..] else s
  }

  ghost function Replaced(s: seq<Item>, i: nat, x: Item): seq<Item> {
    if i < |s| then s[i := x] else s
  }

  /** What the three leave where. */
  lemma ChangesAt(s: seq<Item>, i: nat, x: Item)
    ensures var r := Inserted(s, i, x); |r| == |s| + 1 && r[if i < |s| then i else |s|] == x
    ensures forall k :: 0 <= k < |s| ==> Inserted(s, i, x)[if k < i then k else k + 1] == s[k]
    ensures |Removed(s, i)| == |s| - if i < |s| then 1 else 0
    ensures forall k :: 0 <= k < |Removed(s, i)| ==> Removed(s, i)[k] == s[if k < i then k else k + 1]
    ensures |Replaced(s, i, x)| == |s| && forall k :: 0 <= k < |s| ==> Replaced(s, i, x)[k] == if k == i then x else s[k]
  {
  }

  // ---------------------------------------------------------------- reading

  /** cJSON_GetArraySize, without the cast to int. */
  method GetArraySize(parent: Item?) returns (size: nat)
    requires parent != null ==> Valid(parent)
    ensures size == if parent == null then 0 else |parent.kids|
  {
    size := 0;
    if parent == null {
      return;
    }
    var child := parent.child;
    while child != null
      invariant size <= |parent.kids| && child == Get(parent.kids, size)
      decreases |parent.kids| - size
    {
      assert LinkAt(parent.kids, size);
      size := size + 1;
      child := child.next;
    }
  }

  /** get_array_item */
  method GetItem(parent: Item?, index: nat) returns (item: Item?)
    requires parent != null ==> Valid(parent)
    ensures item == if parent == null then null else Get(parent.kids, index)
  {
    if parent == null {
      return null;
    }
    item := parent.child;
    var i := index;
    while item != null && 0 < i
      invariant 0 <= i <= index && item == Get(parent.kids, index - i)
    {
      assert LinkAt(parent.kids, index - i);
      i := i - 1;
      item := item.next;
    }
  }

  // ---------------------------------------------------------------- changing the list

  ghost function One(x: Item?): set<Item> {
    if x == null then {} else {x}
  }

  ghost function Kids(p: Item?): set<Item>
    reads (if p == null then {} else {p})`kids
  {
    if p == null then {} else set x | x in p.kids
  }

  /** `item` may be put into the list of `parent`: it is not there, and nothing follows it. */
  ghost predicate Loose(parent: Item, item: Item)
    reads parent`kids, item`next
  {
    item !in parent.kids && item.next == null
  }

  /** add_item_to_array */
  method Append(parent: Item?, item: Item?) returns (ok: bool)
    requires parent != null ==> Valid(parent)
    requires parent != null && item != null && parent != item ==> Loose(parent, item)
    modifies One(parent)`child, One(parent)`kids, (One(item) + Kids(parent))`next, (One(item) + Kids(parent))`prev
    ensures ok <==> parent != null && item != null && parent != item
    ensures parent != null ==> Valid(parent)
    ensures parent != null ==> parent.kids == if ok then old(parent.kids) + [item] else old(parent.kids)
    ensures !ok && item != null ==> unchanged(item)
  {
    if item == null || parent == null || parent == item {
      return false;
    }
    ghost var s := parent.kids;
    ghost var t := s + [item];
    var child := parent.child;
    if child == null {
      parent.child := item;
      item.prev := item;
      item.next := null;
    } else {
      assert LinkAt(s, 0) && LinkAt(s, |s| - 1);
      var last := child.prev;
      if last != null {
        last.next := item;
        item.prev := last;
        parent.child.prev := item;
      }
    }
    parent.kids := t;
    forall k | 0 <= k < |t| ensures LinkAt(t, k) {
      if k < |s| { assert old(LinkAt(s, k)); }
    }
    ok := true;
  }

  /** cJSON_InsertItemInArray. An item is refused as its own child at the end of the list only. */
  method InsertAt(parent: Item?, which: int, item: Item?) returns (ok: bool)
    requires parent != null ==> Valid(parent)
    requires parent != null && item != null && 0 <= which < |parent.kids| ==> item !in parent.kids
    requires parent != null && item != null && parent != item && which >= |parent.kids| ==> Loose(parent, item)
    modifies One(parent)`child, One(parent)`kids, (One(item) + Kids(parent))`next, (One(item) + Kids(parent))`prev
    ensures ok <==> parent != null && item != null && 0 <= which && (parent != item || which < old(|parent.kids|))
    ensures parent != null ==> Valid(parent)
    ensures parent != null ==> parent.kids == if ok then Inserted(old(parent.kids), which, item) else old(parent.kids)
    ensures !ok && item != null ==> unchanged(item)
  {
    if which < 0 || item == null {
      return false;
    }
    var after := GetItem(parent, which);
    if after == null {
      ok := Append(parent, item);
      return;
    }
    assert LinkAt(parent.kids, which);
    if after != parent.child && after.prev == null {
      return false;
    }
    InsertBefore(parent, which, after, item);
    ok := true;
  }

  method InsertBefore(parent: Item, ghost i: nat, after: Item, item: Item)
    requires Valid(parent) && i < |parent.kids| && parent.kids[i] == after && item !in parent.kids
    modifies parent`child, parent`kids, ({item} + Kids(parent))`next, ({item} + Kids(parent))`prev
    ensures Valid(parent) && parent.kids == Inserted(old(parent.kids), i, item)
  {
    ghost var s := parent.kids;
    ghost var t := Inserted(s, i, item);
    assert LinkAt(s, i);
    item.next := after;
    item.prev := after.prev;
    after.prev := item;
    if after == parent.child {
      parent.child := item;
    } else {
      item.prev.next := item;
    }
    parent.kids := t;
    forall k | 0 <= k < |t| ensures LinkAt(t, k) {
      if k < i { assert old(LinkAt(s, k)); }
      if i < k { assert old(LinkAt(s, k - 1)); }
    }
  }

  /** cJSON_DetachItemViaPointer of the child at place `i` of the list. */
  method Detach(parent: Item?, item: Item?, ghost i: nat) returns (detached: Item?)
    requires parent != null && item != null ==> Valid(parent) && item == Get(parent.kids, i)
    modifies One(parent)`child, One(parent)`kids, Kids(parent)`next, Kids(parent)`prev
    ensures detached == if parent == null then null else item
    ensures parent != null && item != null ==>
      && Valid(parent) && parent.kids == Removed(old(parent.kids), i)
      && item !in parent.kids && item.next == null && item.prev == null
    ensures parent != null && item == null ==> unchanged(parent) && unchanged(Kids(parent))
  {
    if parent == null || item == null {
      return null;
    }
    Unlink(parent, item, i);
    detached := item;
  }

  lemma RemovedDistinct(s: seq<Item>, i: nat)
    requires i < |s| && Distinct(s)
    ensures Distinct(Removed(s, i)) && s[i] !in Removed(s, i) && |Removed(s, i)| == |s| - 1
  {
  }

  /** Where the elements around `k` were before element `i` went. */
  lemma RemovedAround(s: seq<Item>, i: nat, k: nat)
    requires i < |s| && k < |Removed(s, i)|
    ensures var t, j := Removed(s, i), if k < i then k else k + 1;
      && |t| == |s| - 1 && t[k] == s[j] && Get(t, k + 1) == Get(s, if j + 1 == i then j + 2 else j + 1)
      && t[if k == 0 then |t| - 1 else k - 1]
        == s[if k == 0 then (if i == |s| - 1 then |s| - 2 else |s| - 1) else if j == i + 1 then j - 2 else j - 1]
  {
  }

  /** The link changes of that. */
  method Unlink(parent: Item, item: Item, ghost i: nat)
    requires Valid(parent) && item == Get(parent.kids, i)
    modifies parent`child, parent`kids, Kids(parent)`next, Kids(parent)`prev
    ensures Valid(parent) && parent.kids == Removed(old(parent.kids), i)
    ensures item !in parent.kids && item.next == null && item.prev == null
  {
    hide Removed;
    ghost var s := parent.kids;
    ghost var t := Removed(s, i);
    RemovedDistinct(s, i);
    if t != [] { RemovedAround(s, i, 0); }
    assert LinkAt(s, i) && LinkAt(s, 0);
    if i + 1 < |s| { assert LinkAt(s, i + 1); }
    if item != parent.child {
      item.prev.next := item.next;
    }
    if item.next != null {
      item.next.prev := item.prev;
    }
    if item == parent.child {
      parent.child := item.next;
    } else if item.next == null {
      parent.child.prev := item.prev;
    }
    item.prev := null;
    item.next := null;
    parent.kids := t;
    forall k | 0 <= k < |t| ensures LinkAt(t, k) {
      RemovedAround(s, i, k);
      assert old(LinkAt(s, if k < i then k else k + 1));
    }
  }

  /** cJSON_ReplaceItemViaPointer of the child at place `i`, up to the deletion of `item`. */
  method Replace(parent: Item?, item: Item?, replacement: Item?, ghost i: nat) returns (ok: bool)
    requires parent != null ==> Valid(parent)
    requires parent != null && item != null ==> item == Get(parent.kids, i)
    requires parent != null && replacement != null ==> replacement == item || replacement !in parent.kids
    modifies One(parent)`child, One(parent)`kids
    modifies (One(replacement) + Kids(parent))`next, (One(replacement) + Kids(parent))`prev
    ensures ok <==> parent != null && replacement != null && item != null
    ensures parent != null ==> Valid(parent)
    ensures parent != null ==>
      parent.kids == if ok then Replaced(old(parent.kids), i, replacement) else old(parent.kids)
    ensures !ok && replacement != null ==> unchanged(replacement)
    ensures ok && item != replacement ==> item.next == null && item.prev == null
  {
    if parent == null || parent.child == null || replacement == null || item == null {
      return false;
    }
    if replacement == item {
      return true;
    }
    Swap(parent, item, replacement, i);
    ok := true;
  }

  lemma ReplacedAround(s: seq<Item>, i: nat, x: Item, k: nat)
    requires i < |s| && k < |s|
    ensures var t := Replaced(s, i, x);
      && |t| == |s| && t[k] == (if k == i then x else s[k])
      && Get(t, k + 1) == (if k + 1 == i then x else Get(s, k + 1))
      && t[if k == 0 then |t| - 1 else k - 1]
        == if i == (if k == 0 then |t| - 1 else k - 1) then x else s[if k == 0 then |t| - 1 else k - 1]
  {
  }

  lemma ReplacedDistinct(s: seq<Item>, i: nat, x: Item)
    requires i < |s| && Distinct(s) && x !in s
    ensures Distinct(Replaced(s, i, x)) && |Replaced(s, i, x)| == |s|
  {
  }

  /** The link changes of that. */
  method Swap(parent: Item, item: Item, replacement: Item, ghost i: nat)
    requires Valid(parent) && item == Get(parent.kids, i) && replacement !in parent.kids
    modifies parent`child, parent`kids
    modifies ({replacement} + Kids(parent))`next, ({replacement} + Kids(parent))`prev
    ensures Valid(parent) && parent.kids == Replaced(old(parent.kids), i, replacement)
    ensures item.next == null && item.prev == null
  {
    hide Replaced;
    ghost var s := parent.kids;
    ghost var t := Replaced(s, i, replacement);
    ReplacedDistinct(s, i, replacement);
    ReplacedAround(s, i, replacement, 0);
    assert LinkAt(s, i) && LinkAt(s, 0);
    if i + 1 < |s| { assert LinkAt(s, i + 1); }
    replacement.next := item.next;
    replacement.prev := item.prev;
    if replacement.next != null {
      replacement.next.prev := replacement;
    }
    if parent.child == item {
      if parent.child.prev == parent.child {
        replacement.prev := replacement;
      }
      parent.child := replacement;
    } else {
      if replacement.prev != null {
        replacement.prev.next := replacement;
      }
      if replacement.next == null {
        parent.child.prev := replacement;
      }
    }
    item.next := null;
    item.prev := null;
    parent.kids := t;
    forall k | 0 <= k < |t| ensures LinkAt(t, k) {
      ReplacedAround(s, i, replacement, k);
      assert old(LinkAt(s, k));
    }
  }

  // ---------------------------------------------------------------- whole runs

  datatype Op = AppendOp(x: Item) | InsertOp(which: int, x: Item) | DetachOp(which: int) | ReplaceOp(which: int, x: Item)

  /** What an operation does to the children, as a sequence. */
  ghost function Step(s: seq<Item>, op: Op): seq<Item> {
    match op
    case AppendOp(x) => s + [x]
    case InsertOp(which, x) => if which < 0 then s else Inserted(s, which, x)
    case DetachOp(which) => if which < 0 then s else Removed(s, which)
    case ReplaceOp(which, x) => if which < 0 then s else Replaced(s, which, x)
  }

  ghost function Steps(s: seq<Item>, ops: seq<Op>): seq<Item>
    decreases |ops|
  {
    if ops == [] then s else Steps(Step(s, ops[0]), ops[1..])
  }

  /** The items outside the list that can be put into it, after an operation: a detached item
      can be used again, a replaced one is gone. */
  ghost function Spare(s: seq<Item>, spare: set<Item>, op: Op): set<Item> {
    match op
    case AppendOp(x) => spare - {x}
    case InsertOp(which, x) => if which < 0 then spare else spare - {x}
    case DetachOp(which) => if 0 <= which < |s| then spare + {s[which]} else spare
    case ReplaceOp(which, x) => if 0 <= which < |s| then spare - {x} else spare
  }

  /** Every item put into the list is spare at that point. */
  ghost predicate Fits(s: seq<Item>, spare: set<Item>, ops: seq<Op>)
    decreases |ops|
  {
    ops == [] || (
      && (ops[0].DetachOp? || ops[0].x in spare)
      && Fits(Step(s, ops[0]), Spare(s, spare, ops[0]), ops[1..]))
  }

  /** Items apart from the list, with no links to follow. */
  ghost predicate Apart(p: Item, spare: set<Item>)
    reads p`kids, spare`next
  {
    p !in spare && p !in p.kids && forall x <- spare :: Loose(p, x)
  }

  lemma StepHolds(s: seq<Item>, op: Op, spare: set<Item>)
    requires Distinct(s) && (op.DetachOp? || op.x in spare) && forall x <- spare :: x !in s
    ensures Spare(s, spare, op) + (set x | x in Step(s, op)) <= spare + (set x | x in s)
    ensures forall x <- Spare(s, spare, op) :: x !in Step(s, op)
  {
  }

  method Perform(p: Item, op: Op, ghost spare: set<Item>)
    requires Valid(p) && Apart(p, spare) && (op.DetachOp? || op.x in spare)
    modifies p`child, p`kids, (spare + Kids(p))`next, (spare + Kids(p))`prev
    ensures Valid(p) && p.kids == Step(old(p.kids), op)
    ensures Apart(p, Spare(old(p.kids), spare, op))
    ensures Spare(old(p.kids), spare, op) + Kids(p) <= spare + old(Kids(p))
  {
    StepHolds(p.kids, op, spare);
    hide Valid, Inserted, Removed, Replaced;
    var ok;
    match op {
      case AppendOp(x) =>
        ok := Append(p, x);
      case InsertOp(which, x) =>
        ok := InsertAt(p, which, x);
      case DetachOp(which) =>
        if 0 <= which {
          var item := GetItem(p, which);
          item := Detach(p, item, which);
        }
      case ReplaceOp(which, x) =>
        if 0 <= which {
          var item := GetItem(p, which);
          ok := Replace(p, item, x, which);
        }
    }
  }

  /** Any run of operations leaves the list that the same run leaves of a sequence. */
  method Execute(p: Item, ops: seq<Op>, ghost spare: set<Item>)
    requires Valid(p) && Apart(p, spare) && Fits(p.kids, spare, ops)
    modifies p`child, p`kids, (spare + Kids(p))`next, (spare + Kids(p))`prev
    ensures Valid(p) && p.kids == Steps(old(p.kids), ops)
    decreases |ops|
  {
    hide Step, Spare, Valid;
    if ops != [] {
      ghost var rest := Spare(p.kids, spare, ops[0]);
      Perform(p, ops[0], spare);
      Execute(p, ops[1..], rest);
    }
  }
}
