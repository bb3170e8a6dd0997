/**
 What the flattened names mean: with a delimiter that occurs in no key, the variables are the
 scalar leaves of the document, each under its joined path, and a dumped table loads as itself.
*/
module JsonPaths {
  import opened JsonText
  import opened JsonSpec
  import opened VariablesDump
  import opened JsonFlatten

  type Path = seq<string>
  type Leaf = (Path, string)

  /** The scalar leaves of an object with the keys that lead to them. */
  function Leaves(members: seq<Member>): seq<Leaf>
    decreases members, 0
  {
    if members == [] then [] else LeavesOne(members[0]) + Leaves(members[1..])
  }

  function LeavesOne(m: Member): seq<Leaf>
    decreases m, 1
  {
    if m.value.Object? then Under(m.key, Leaves(m.value.members))
    else if Emitted(m.value).Some? then [([m.key], Emitted(m.value).value)]
    else []
  }

  function Under(key: string, leaves: seq<Leaf>): (r: seq<Leaf>)
    ensures |r| == |leaves| && forall i :: 0 <= i < |r| ==> r[i] == ([key] + leaves[i].0, leaves[i].1)
  {
    seq(|leaves|, i requires 0 <= i < |leaves| => ([key] + leaves[i].0, leaves[i].1))
  }

  /** A path as a variable name. */
  function Join(path: Path, delimiter: string): string {
    if path == [] then ""
    else if |path| == 1 then path[0]
    else path[0] + delimiter + Join(path[1..], delimiter)
  }

  function Named(leaves: seq<Leaf>, prefix: string, delimiter: string): (r: seq<Row>)
    ensures |r| == |leaves|
    ensures forall i :: 0 <= i < |r| ==> r[i] == (prefix + Join(leaves[i].0, delimiter), leaves[i].1)
  {
    seq(|leaves|, i requires 0 <= i < |leaves| => (prefix + Join(leaves[i].0, delimiter), leaves[i].1))
  }

  lemma {:induction false} LeavesHavePaths(members: seq<Member>)
    ensures forall l <- Leaves(members) :: |l.0| > 0
    decreases members
  {
    if members != [] {
      LeavesHavePaths(members[1..]);
      if members[0].value.Object? { LeavesHavePaths(members[0].value.members); }
    }
  }

  lemma NamedUnder(key: string, leaves: seq<Leaf>, prefix: string, delimiter: string)
    requires forall l <- leaves :: |l.0| > 0
    ensures Named(Under(key, leaves), prefix, delimiter) == Named(leaves, prefix + key + delimiter, delimiter)
  {
    var a, b := Named(Under(key, leaves), prefix, delimiter), Named(leaves, prefix + key + delimiter, delimiter);
    forall i | 0 <= i < |leaves| ensures a[i] == b[i] {
      var path := leaves[i].0;
      assert leaves[i] in leaves && ([key] + path)[1..] == path;
      assert prefix + (key + delimiter + Join(path, delimiter)) == prefix + key + delimiter + Join(path, delimiter);
    }
    assert a == b;
  }

  lemma NamedConcat(a: seq<Leaf>, b: seq<Leaf>, prefix: string, delimiter: string)
    ensures Named(a + b, prefix, delimiter) == Named(a, prefix, delimiter) + Named(b, prefix, delimiter)
  {
    assert forall i | 0 <= i < |a + b| :: (a + b)[i] == if i < |a| then a[i] else b[i - |a|];
  }

  /** The walk inserts the leaves, named by their joined paths, for every delimiter. */
  lemma {:induction false} FlattenIsLeaves(members: seq<Member>, prefix: string, delimiter: string)
    ensures Flatten(members, prefix, delimiter) == Named(Leaves(members), prefix, delimiter)
    decreases members
  {
    hide Emitted;
    if members != [] {
      var m := members[0];
      FlattenIsLeaves(members[1..], prefix, delimiter);
      NamedConcat(LeavesOne(m), Leaves(members[1..]), prefix, delimiter);
      if m.value.Object? {
        FlattenIsLeaves(m.value.members, prefix + m.key + delimiter, delimiter);
        LeavesHavePaths(m.value.members);
        NamedUnder(m.key, Leaves(m.value.members), prefix, delimiter);
      }
    }
  }

  // ---------------------------------------------------------------- clean documents

  /** Keys are non-empty, distinct within each object, and free of the delimiter. */
  predicate Clean(members: seq<Member>, d: char)
    decreases members, 1
  {
    && (forall i, j :: 0 <= i < j < |members| ==> members[i].key != members[j].key)
    && CleanEach(members, d)
  }

  predicate CleanEach(members: seq<Member>, d: char)
    decreases members, 0
  {
    members == [] || (
      && members[0].key != "" && d !in members[0].key
      && (members[0].value.Object? ==> Clean(members[0].value.members, d))
      && CleanEach(members[1..], d))
  }

  lemma CleanTail(members: seq<Member>, d: char)
    requires Clean(members, d) && members != []
    ensures Clean(members[1..], d) && members[0].key != "" && d !in members[0].key
    ensures members[0].value.Object? ==> Clean(members[0].value.members, d)
    ensures Avoids(members[1..], members[0].key)
  {
    assert forall i :: 0 <= i < |members[1..]| ==> members[1..][i] == members[i + 1];
  }

  predicate CleanPath(path: Path, d: char) {
    path != [] && forall k <- path :: k != "" && d !in k
  }

  /** The value a path leads to, taking the first member with each key. */
  function Lookup(members: seq<Member>, path: Path): Option<Value>
    decreases members
  {
    if members == [] || path == [] then None
    else if members[0].key != path[0] then Lookup(members[1..], path)
    else if |path| == 1 then Some(members[0].value)
    else if members[0].value.Object? then Lookup(members[0].value.members, path[1..])
    else None
  }

  predicate Avoids(members: seq<Member>, key: string) {
    forall i :: 0 <= i < |members| ==> members[i].key != key
  }

  /** Leaves below other keys start with other keys. */
  lemma {:induction false} NotBelow(members: seq<Member>, path: Path, x: string)
    requires path != [] && Avoids(members, path[0])
    ensures (path, x) !in Leaves(members)
    decreases |members|
  {
    hide Emitted;
    if members != [] {
      assert forall i :: 0 <= i < |members[1..]| ==> members[1..][i] == members[i + 1];
      NotBelow(members[1..], path, x);
      LeafOfOne(members[0], path, x);
    }
  }

  /** The leaves are exactly the scalars that paths lead to. */
  lemma {:induction false} LeafIff(members: seq<Member>, d: char, path: Path, x: string)
    requires Clean(members, d)
    ensures (path, x) in Leaves(members) <==> Lookup(members, path).Some? && Emitted(Lookup(members, path).value) == Some(x)
    decreases members
  {
    hide Emitted;
    LeavesHavePaths(members);
    if members != [] && path != [] {
      var m := members[0];
      CleanTail(members, d);
      LeafIff(members[1..], d, path, x);
      LeafOfOne(m, path, x);
      if m.value.Object? {
        ObjectsEmitNothing(m.value);
        LeafIff(m.value.members, d, path[1..], x);
        LeavesHavePaths(m.value.members);
      }
      if m.key == path[0] {
        NotBelow(members[1..], path, x);
      }
    }
  }

  lemma ObjectsEmitNothing(v: Value)
    requires v.Object?
    ensures Emitted(v) == None
  {
  }

  lemma LeafOfOne(m: Member, path: Path, x: string)
    requires path != []
    ensures (path, x) in LeavesOne(m) <==>
      path[0] == m.key && (if m.value.Object? then (path[1..], x) in Leaves(m.value.members)
                           else |path| == 1 && Emitted(m.value) == Some(x))
  {
    hide Emitted, Leaves;
    if m.value.Object? {
      var inner := Leaves(m.value.members);
      var r := Under(m.key, inner);
      if path[0] == m.key && (path[1..], x) in inner {
        var i :| 0 <= i < |inner| && inner[i] == (path[1..], x);
        assert path == [m.key] + path[1..];
        assert r[i] == (path, x);
      }
    } else if |path| == 1 {
      assert path == [path[0]];
    }
  }

  // ---------------------------------------------------------------- distinct names

  predicate DistinctPaths(leaves: seq<Leaf>) {
    forall i, j :: 0 <= i < j < |leaves| ==> leaves[i].0 != leaves[j].0
  }

  lemma {:induction false} LeavesAreClean(members: seq<Member>, d: char)
    requires Clean(members, d)
    ensures forall l <- Leaves(members) :: CleanPath(l.0, d)
    decreases members
  {
    hide Emitted;
    if members != [] {
      var m := members[0];
      CleanTail(members, d);
      LeavesAreClean(members[1..], d);
      if m.value.Object? { LeavesAreClean(m.value.members, d); }
      forall l <- LeavesOne(m) ensures CleanPath(l.0, d) {
        LeavesHavePaths([m]);
        assert Leaves([m]) == LeavesOne(m) by { assert [m][1..] == []; }
        LeafOfOne(m, l.0, l.1);
        if m.value.Object? {
          assert (l.0[1..], l.1) in Leaves(m.value.members);
          assert CleanPath(l.0[1..], d);
          assert l.0 == [l.0[0]] + l.0[1..];
        }
      }
    }
  }

  lemma {:induction false} LeavesAreDistinct(members: seq<Member>, d: char)
    requires Clean(members, d)
    ensures DistinctPaths(Leaves(members))
    decreases members
  {
    hide Emitted;
    if members != [] {
      var m, rest := members[0], Leaves(members[1..]);
      CleanTail(members, d);
      LeavesAreDistinct(members[1..], d);
      if m.value.Object? { LeavesAreDistinct(m.value.members, d); }
      DistinctBelow(m);
      forall a, b | a in LeavesOne(m) && b in rest ensures a.0 != b.0 {
        Apart(members, a, b);
      }
    }
  }

  lemma DistinctBelow(m: Member)
    requires m.value.Object? ==> DistinctPaths(Leaves(m.value.members))
    ensures DistinctPaths(LeavesOne(m))
  {
    hide Emitted, Leaves;
    if m.value.Object? {
      var inner := Leaves(m.value.members);
      var r := LeavesOne(m);
      forall i, j | 0 <= i < j < |r| ensures r[i].0 != r[j].0 {
        assert r[i].0[1..] == inner[i].0 && r[j].0[1..] == inner[j].0;
      }
    }
  }

  lemma Apart(members: seq<Member>, a: Leaf, b: Leaf)
    requires members != [] && Avoids(members[1..], members[0].key)
    requires a in LeavesOne(members[0]) && b in Leaves(members[1..])
    ensures a.0 != b.0
  {
    hide Emitted, Leaves;
    LeavesHavePaths(members[1..]);
    if b.0[0] == members[0].key {
      NotBelow(members[1..], b.0, b.1);
    }
  }

  /** Without the delimiter in any key, a name splits into its keys in one way only. */
  lemma {:induction false} JoinInjective(p: Path, q: Path, d: char)
    requires CleanPath(p, d) && CleanPath(q, d) && Join(p, [d]) == Join(q, [d])
    ensures p == q
  {
    JoinStarts(p, d);
    JoinStarts(q, d);
    assert p[0] in p && q[0] in q;
    FirstDelimiter(p[0], if |p| == 1 then "" else [d] + Join(p[1..], [d]),
                   q[0], if |q| == 1 then "" else [d] + Join(q[1..], [d]), d);
    if |p| > 1 && |q| > 1 {
      assert ([d] + Join(p[1..], [d]))[1..] == Join(p[1..], [d]);
      assert ([d] + Join(q[1..], [d]))[1..] == Join(q[1..], [d]);
      CleanRest(p, d);
      CleanRest(q, d);
      JoinInjective(p[1..], q[1..], d);
      assert p == [p[0]] + p[1..] && q == [q[0]] + q[1..];
    }
  }

  lemma CleanRest(p: Path, d: char)
    requires CleanPath(p, d) && |p| > 1
    ensures CleanPath(p[1..], d)
  {
    assert forall k <- p[1..] :: k in p;
  }

  lemma JoinStarts(p: Path, d: char)
    requires p != []
    ensures Join(p, [d]) == p[0] + if |p| == 1 then "" else [d] + Join(p[1..], [d])
  {
    if |p| > 1 {
      Regroup(p[0], [d], Join(p[1..], [d]));
    }
  }

  lemma Regroup(a: string, b: string, c: string)
    ensures a + b + c == a + (b + c)
  {
  }

  lemma FirstDelimiter(a: string, s: string, b: string, t: string, d: char)
    requires d !in a && d !in b && a + s == b + t
    requires (s == "" || s[0] == d) && (t == "" || t[0] == d)
    ensures a == b && s == t
  {
    if |a| < |b| { Overhang(a, s, b, t); }
    if |b| < |a| { Overhang(b, t, a, s); }
    assert a == (a + s)[..|a|] && b == (b + t)[..|b|];
    assert s == (a + s)[|a|..] && t == (b + t)[|b|..];
  }

  lemma Overhang(a: string, s: string, b: string, t: string)
    requires a + s == b + t && |a| < |b|
    ensures s != "" && s[0] in b
  {
    assert (a + s)[|a|] == (b + t)[|a|];
  }

  /** Rows with distinct, non-empty, unused names. */
  ghost predicate FreeRows(names: set<string>, rows: seq<Row>) {
    && (forall i, j :: 0 <= i < j < |rows| ==> rows[i].0 != rows[j].0)
    && (forall i :: 0 <= i < |rows| ==> rows[i].0 != "" && rows[i].0 !in names)
  }

  lemma FreeFirst(names: set<string>, rows: seq<Row>)
    requires rows != [] && FreeRows(names, rows)
    ensures rows[0].0 != "" && rows[0].0 !in names && FreeRows(names + {rows[0].0}, rows[1..])
  {
    assert forall i :: 0 <= i < |rows[1..]| ==> rows[1..][i] == rows[i + 1];
  }

  lemma FreeMore(names: set<string>, rows: seq<Row>)
    requires rows != [] && rows[0].0 != "" && rows[0].0 !in names && FreeRows(names + {rows[0].0}, rows[1..])
    ensures FreeRows(names, rows)
  {
    forall i | 0 < i < |rows| ensures rows[i] == rows[1..][i - 1] {
    }
  }

  /** The insert assertions hold exactly for rows with distinct, non-empty, unused names. */
  lemma {:induction false} InsertableIff(names: set<string>, rows: seq<Row>)
    ensures Insertable(names, rows) <==> FreeRows(names, rows)
    decreases |rows|
  {
    hide FreeRows;
    if rows == [] {
      assert FreeRows(names, []) by { NoRowsFree(names); }
    } else {
      InsertableIff(names + {rows[0].0}, rows[1..]);
      if Insertable(names, rows) {
        FreeMore(names, rows);
      }
      if FreeRows(names, rows) {
        FreeFirst(names, rows);
      }
    }
  }

  /** On the document, for every delimiter: the insert assertions hold if and only if the joined paths
      of the scalar leaves are non-empty and differ from each other. */
  lemma InsertableLeaves(members: seq<Member>, delimiter: string)
    ensures var leaves := Leaves(members);
      Insertable({}, Flatten(members, "", delimiter)) <==>
        && (forall i :: 0 <= i < |leaves| ==> Join(leaves[i].0, delimiter) != "")
        && (forall i, j :: 0 <= i < j < |leaves| ==> Join(leaves[i].0, delimiter) != Join(leaves[j].0, delimiter))
  {
    hide Leaves, Flatten, Insertable, Join;
    FlattenIsLeaves(members, "", delimiter);
    var leaves, rows := Leaves(members), Flatten(members, "", delimiter);
    assert forall i :: 0 <= i < |leaves| ==> rows[i].0 == Join(leaves[i].0, delimiter);
    InsertableIff({}, rows);
  }

  lemma NoRowsFree(names: set<string>)
    ensures FreeRows(names, [])
  {
  }

  /** For a clean document the flattened names are distinct, so that no insert assertion fails. */
  lemma NoAssertionFails(members: seq<Member>, d: char)
    requires Clean(members, d)
    ensures Insertable({}, Flatten(members, "", [d]))
  {
    hide Clean, Leaves, Flatten, Insertable, Join;
    LeavesAreClean(members, d);
    LeavesAreDistinct(members, d);
    var leaves := Leaves(members);
    forall i | 0 <= i < |leaves| ensures Join(leaves[i].0, [d]) != "" {
      assert leaves[i] in leaves && leaves[i].0[0] in leaves[i].0;
      JoinStarts(leaves[i].0, d);
    }
    forall i, j | 0 <= i < j < |leaves| ensures Join(leaves[i].0, [d]) != Join(leaves[j].0, [d]) {
      assert leaves[i] in leaves && leaves[j] in leaves;
      if Join(leaves[i].0, [d]) == Join(leaves[j].0, [d]) {
        JoinInjective(leaves[i].0, leaves[j].0, d);
      }
    }
    InsertableLeaves(members, [d]);
  }

  /** Looking up a joined path among the variables finds exactly the scalar at that path. */
  lemma VariableIff(members: seq<Member>, d: char, path: Path, x: string)
    requires Clean(members, d) && CleanPath(path, d)
    ensures (Join(path, [d]), x) in Flatten(members, "", [d])
      <==> Lookup(members, path).Some? && Emitted(Lookup(members, path).value) == Some(x)
  {
    hide Clean, CleanPath, Leaves, Flatten, Join, Lookup, Emitted;
    FlattenIsLeaves(members, "", [d]);
    LeavesAreClean(members, d);
    LeafIff(members, d, path, x);
    var leaves, rows := Leaves(members), Flatten(members, "", [d]);
    assert forall i :: 0 <= i < |rows| ==> rows[i] == ("" + Join(leaves[i].0, [d]), leaves[i].1);
    assert forall i :: 0 <= i < |rows| ==> "" + Join(leaves[i].0, [d]) == Join(leaves[i].0, [d]);
    if (path, x) in leaves {
      var i :| 0 <= i < |leaves| && leaves[i] == (path, x);
      assert rows[i] == (Join(path, [d]), x);
    }
    if (Join(path, [d]), x) in rows {
      var i :| 0 <= i < |rows| && rows[i] == (Join(path, [d]), x);
      assert leaves[i] in leaves;
      JoinInjective(leaves[i].0, path, d);
      assert leaves[i] == (path, x);
    }
  }

  /** With a delimiter inside a key, two leaves can get one name: {"a:b":true,"a":{"b":true}}
      trips the insert assertion. */
  lemma DelimiterInKeyClashes()
    ensures var doc := [Member("a:b", Bool(true)), Member("a", Object([Member("b", Bool(true))]))];
      !Insertable({}, Flatten(doc, "", ":"))
  {
    var inner := [Member("b", Bool(true))];
    var doc := [Member("a:b", Bool(true)), Member("a", Object(inner))];
    assert inner[1..] == [] && doc[1..] == [doc[1]] && doc[1..][1..] == [];
    assert "" + "a" + ":" == "a:" && "a:" + "b" == "a:b" && "" + "a:b" == "a:b";
    assert Flatten(inner, "a:", ":") == [("a:b", "true")];
    assert Flatten(doc[1..], "", ":") == [("a:b", "true")];
    var rows := Flatten(doc, "", ":");
    assert FlattenOne(doc[0], "", ":") == [("a:b", "true")];
    assert rows == [("a:b", "true")] + Flatten(doc[1..], "", ":");
    InsertableIff({}, rows);
    assert rows[0].0 == rows[1].0;
  }
}
