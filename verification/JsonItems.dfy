/**
 The linked items the parser builds (src/cJSON.c), and the values they stand for.
*/
module JsonItems {
  import opened JsonText
  import opened JsonSpec
  import opened ChildList
  import opened Duplicate

  // The kinds of items.
  const FALSE := 1
  const TRUE := 2
  const NULL := 4
  const NUMBER := 8
  const STRING := 16
  const ARRAY := 32
  const OBJECT := 64

  /** The fields of an item besides its links. */
  function Load(v: Value, key: Option<string>): Payload {
    match v
    case Null => Payload(NULL, false, 0.0, None, key)
    case Bool(b) => Payload(if b then TRUE else FALSE, false, 0.0, None, key)
    case Number(n) => Payload(NUMBER, false, n, None, key)
    case String(s) => Payload(STRING, false, 0.0, Some(s), key)
    case Array(_) => Payload(ARRAY, false, 0.0, None, key)
    case Object(_) => Payload(OBJECT, false, 0.0, None, key)
  }

  /** What the children of an item say. */
  function Inside(v: Value): seq<Rose> {
    match v
    case Array(items) => ItemRoses(items)
    case Object(members) => MemberRoses(members)
    case _ => []
  }

  function ItemRoses(items: seq<Value>): seq<Rose> {
    if items == [] then [] else [Rose(Load(items[0], None), Inside(items[0]))] + ItemRoses(items[1..])
  }

  function MemberRoses(members: seq<Member>): seq<Rose> {
    if members == [] then []
    else [Rose(Load(members[0].value, Some(members[0].key)), Inside(members[0].value))] + MemberRoses(members[1..])
  }

  lemma {:induction false} ItemRosesNext(items: seq<Value>, v: Value)
    ensures ItemRoses(items + [v]) == ItemRoses(items) + [Rose(Load(v, None), Inside(v))]
    decreases |items|
  {
    hide Load, Inside;
    if items == [] {
      assert ItemRoses([v][1..]) == [];
    } else {
      assert (items + [v])[0] == items[0] && (items + [v])[1..] == items[1..] + [v];
      ItemRosesNext(items[1..], v);
    }
  }

  lemma {:induction false} MemberRosesNext(members: seq<Member>, m: Member)
    ensures MemberRoses(members + [m]) == MemberRoses(members) + [Rose(Load(m.value, Some(m.key)), Inside(m.value))]
    decreases |members|
  {
    hide Load, Inside;
    if members == [] {
      assert MemberRoses([m][1..]) == [];
    } else {
      assert (members + [m])[0] == members[0] && (members + [m])[1..] == members[1..] + [m];
      MemberRosesNext(members[1..], m);
    }
  }

  /** What an item and those below it say determines the value. */
  lemma {:induction false} SaysOne(v: Value, w: Value, key: Option<string>, other: Option<string>)
    requires Load(v, key) == Load(w, other) && Inside(v) == Inside(w)
    ensures v == w && key == other
    decreases v
  {
    match v
    case Array(items) => SayOneList(items, w.items);
    case Object(members) => SayOneObject(members, w.members);
    case _ =>
  }

  lemma {:induction false} SayOneList(a: seq<Value>, b: seq<Value>)
    requires ItemRoses(a) == ItemRoses(b)
    ensures a == b
    decreases a
  {
    if a != [] {
      assert ItemRoses(b)[0] == ItemRoses(a)[0] && ItemRoses(b)[1..] == ItemRoses(a)[1..];
      SaysOne(a[0], b[0], None, None);
      SayOneList(a[1..], b[1..]);
      assert a == [a[0]] + a[1..] && b == [b[0]] + b[1..];
    }
  }

  lemma {:induction false} SayOneObject(a: seq<Member>, b: seq<Member>)
    requires MemberRoses(a) == MemberRoses(b)
    ensures a == b
    decreases a
  {
    if a != [] {
      assert MemberRoses(b)[0] == MemberRoses(a)[0] && MemberRoses(b)[1..] == MemberRoses(a)[1..];
      SaysOne(a[0].value, b[0].value, Some(a[0].key), Some(b[0].key));
      SayOneObject(a[1..], b[1..]);
      assert a == [a[0]] + a[1..] && b == [b[0]] + b[1..];
    }
  }

  /** The items of `made` are linked on every level, are not linked to anything else, and say what
      the value says. */
  ghost predicate Stands(t: Tree, v: Value, key: Option<string>, made: set<Item>)
    reads t.item`next, t.item`prev, All([t])`child, All([t])`kids, All([t])`next, All([t])`prev
  {
    UnderInside([t]);
    && Built([t]) && Separate([t]) && All([t]) == made && t.item.next == null && t.item.prev == null
    && Contents([t]) == [Rose(Load(v, key), Inside(v))]
  }

  /** Every item of the tree has its children in a list as ChildList keeps it. */
  lemma {:induction false} BuiltValid(ts: seq<Tree>)
    requires Built(ts)
    ensures forall x <- All(ts) :: Valid(x)
    decreases ts
  {
    if ts != [] {
      BuiltValid(ts[0].kids);
      BuiltValid(ts[1..]);
    }
  }

  /** A new item that stands for `v`, if any. */
  ghost predicate StandsFor(item: Item?, t: Option<Tree>, v: Value, key: Option<string>, made: set<Item>)
    reads if t.None? then {} else {t.value.item} + All([t.value])
  {
    item != null && t.Some? && item == t.value.item && item in made && Stands(t.value, v, key, made)
  }

  /** The children of `item` so far: `us`, which say `said`, with `last` at the end. */
  ghost predicate Growing(item: Item, last: Item?, us: seq<Tree>, said: seq<Rose>, made: set<Item>)
    reads item`child, item`next, item`prev, All(us)`child, All(us)`kids, All(us)`next, All(us)`prev
  {
    Begun(item, last, us) && All(us) == made && item.next == null && item.prev == null && Contents(us) == said
  }

  /** An item without children. */
  method Leaf(v: Value, key: Option<string>) returns (item: Item?, ghost t: Option<Tree>, ghost made: set<Item>)
    requires Inside(v) == []
    ensures fresh(made) && StandsFor(item, t, v, key, made)
  {
    var leaf := new Item(Load(v, key));
    item := leaf;
    t := Some(Tree(leaf, []));
    made := {leaf};
    OneTree(t.value);
    NothingCopied(leaf);
  }

  /** An item that is about to get children. */
  method Empty(load: Payload) returns (item: Item)
    ensures fresh(item) && item.load == load && Growing(item, null, [], [], {})
  {
    item := new Item(load);
    NothingCopied(item);
  }

  /** One more child, behind the last one. */
  method Add(item: Item, last: Item?, newItem: Item, ghost us: seq<Tree>, ghost said: seq<Rose>, ghost made: set<Item>,
             ghost t: Tree, ghost v: Value, ghost key: Option<string>, ghost more: set<Item>)
    requires Growing(item, last, us, said, made) && StandsFor(newItem, Some(t), v, key, more) && more !! made + {item}
    modifies item`child, (if last == null then {} else {last})`next, newItem`prev
    ensures Growing(item, newItem, us + [t], said + [Rose(Load(v, key), Inside(v))], made + more)
  {
    hide Built, Separate, Contents, Begun, Load, Inside;
    BegunEnds(item, last, us);
    OneTree(t);
    AllConcat(us, [t]);
    ContentsConcat(us, [t]);
    LinkCopy(item, last, newItem, us, t, made + more);
  }

  /** The same for an item that has just been read. */
  method AddLast(item: Item, last: Item?, newItem: Item?, ghost us: seq<Tree>, ghost said: seq<Rose>, ghost made: set<Item>,
                 ghost t: Option<Tree>, ghost v: Value, ghost key: Option<string>, ghost more: set<Item>)
    returns (newLast: Item?, ghost vs: seq<Tree>, ghost all: set<Item>)
    requires Growing(item, last, us, said, made) && StandsFor(newItem, t, v, key, more) && more !! made + {item}
    modifies item`child, made`next, more`prev
    ensures newLast == newItem && all == made + more
    ensures Growing(item, newLast, vs, said + [Rose(Load(v, key), Inside(v))], all)
  {
    hide Built, Separate, Contents, Begun, Stands, Load, Inside;
    newLast, vs, all := newItem, us + [t.value], made + more;
    BegunEnds(item, last, us);
    Add(item, last, newItem, us, said, made, t.value, v, key, more);
  }

  lemma NoRoses()
    ensures ItemRoses([]) == [] && MemberRoses([]) == []
  {
  }

  /** The first child gets its link to the last one, and `item` is complete. */
  method Close(item: Item, last: Item?, ghost us: seq<Tree>, ghost made: set<Item>,
               ghost v: Value, ghost key: Option<string>)
    requires Growing(item, last, us, Inside(v), made) && item.load == Load(v, key)
    modifies item`kids, (if item.child == null then {} else {item.child})`prev
    ensures StandsFor(item, Some(Tree(item, us)), v, key, made + {item})
  {
    hide Built, Separate, Contents, Begun, Load, Inside;
    BegunEnds(item, last, us);
    CloseRing(item, last, us);
    OneTree(Tree(item, us));
  }

  /** The same, with the tree it makes. */
  method CloseNew(whole: Item, last: Item?, ghost us: seq<Tree>, ghost more: set<Item>,
                  ghost v: Value, ghost key: Option<string>)
    returns (item: Item?, ghost t: Option<Tree>, ghost made: set<Item>)
    requires Growing(whole, last, us, Inside(v), more) && whole.load == Load(v, key)
    modifies whole`kids, more`prev
    ensures made == more + {whole} && StandsFor(item, t, v, key, made)
  {
    hide Built, Separate, Contents, Begun, Stands, Load, Inside;
    BegunEnds(whole, last, us);
    item, t, made := whole, Some(Tree(whole, us)), more + {whole};
    Close(whole, last, us, more, v, key);
  }

  // ---------------------------------------------------------------- reading

  /** The linked items from `item` down say what the value says. */
  ghost predicate Says(item: Item, t: Tree, v: Value, key: Option<string>, own: set<Item>)
    reads own`child, own`kids, own`next, own`prev
  {
    UnderInside([t]);
    item == t.item && All([t]) <= own && Built([t]) && Contents([t]) == [Rose(Load(v, key), Inside(v))]
  }

  /** The children of `item` are linked, and say `said`. */
  ghost predicate SayBelow(item: Item, ts: seq<Tree>, said: seq<Rose>, own: set<Item>)
    reads item`child, own`child, own`kids, own`next, own`prev
  {
    UnderInside(ts); RootsInside(ts);
    All(ts) <= own && Built(ts) && Contents(ts) == said && Chain(item.child, Roots(ts))
  }

  lemma SaysFields(item: Item, t: Tree, v: Value, key: Option<string>, own: set<Item>)
    requires Says(item, t, v, key, own)
    ensures item.load == Load(v, key) && SayBelow(item, t.kids, Inside(v), own)
  {
    OneTree(t);
  }

  lemma SayFirst(item: Item, ts: seq<Tree>, said: seq<Rose>, own: set<Item>)
    requires SayBelow(item, ts, said, own)
    ensures |ts| == |said| && item.child == Get(Roots(ts), 0)
  {
    ContentsLength(ts);
  }

  lemma {:induction false} ContentsLength(ts: seq<Tree>)
    ensures |Contents(ts)| == |ts|
    decreases |ts|
  {
    if ts != [] { ContentsLength(ts[1..]); }
  }

  lemma {:induction false} ContentsAt(ts: seq<Tree>, i: nat)
    requires i < |ts|
    ensures |Contents(ts)| == |ts| && Contents([ts[i]]) == [Contents(ts)[i]]
    decreases |ts|
  {
    ContentsLength(ts);
    if i == 0 {
      assert [ts[0]][1..] == [];
    } else {
      ContentsAt(ts[1..], i - 1);
    }
  }

  lemma SayKid(item: Item, ts: seq<Tree>, said: seq<Rose>, own: set<Item>, i: nat, v: Value, key: Option<string>)
    requires SayBelow(item, ts, said, own) && i < |said| && said[i] == Rose(Load(v, key), Inside(v))
    ensures i < |ts| && Says(ts[i].item, ts[i], v, key, own) && ts[i].item.next == Get(Roots(ts), i + 1)
  {
    hide Load, Inside, Chain, Built;
    SayFirst(item, ts, said, own);
    ContentsAt(ts, i);
    KidBuilt(ts, i);
    NextKid(item, Roots(ts), i);
  }

  lemma {:induction false} ItemRosesAt(items: seq<Value>, i: nat)
    requires i < |items|
    ensures |ItemRoses(items)| == |items| && ItemRoses(items)[i] == Rose(Load(items[i], None), Inside(items[i]))
    decreases |items|
  {
    hide Load, Inside;
    ItemRosesLength(items);
    if i > 0 { ItemRosesAt(items[1..], i - 1); }
  }

  lemma {:induction false} ItemRosesLength(items: seq<Value>)
    ensures |ItemRoses(items)| == |items|
    decreases |items|
  {
    if items != [] { ItemRosesLength(items[1..]); }
  }

  lemma {:induction false} MemberRosesAt(members: seq<Member>, i: nat)
    requires i < |members|
    ensures |MemberRoses(members)| == |members|
    ensures MemberRoses(members)[i] == Rose(Load(members[i].value, Some(members[i].key)), Inside(members[i].value))
    decreases |members|
  {
    hide Load, Inside;
    MemberRosesLength(members);
    if i > 0 { MemberRosesAt(members[1..], i - 1); }
  }

  lemma {:induction false} MemberRosesLength(members: seq<Member>)
    ensures |MemberRoses(members)| == |members|
    decreases |members|
  {
    if members != [] { MemberRosesLength(members[1..]); }
  }

  /** What the parser builds can be read. */
  lemma StandsSays(item: Item?, t: Option<Tree>, v: Value, key: Option<string>, made: set<Item>)
    requires StandsFor(item, t, v, key, made)
    ensures Says(item, t.value, v, key, made)
  {
  }
}
