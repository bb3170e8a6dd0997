/**
 From a parsed JSON document to a table of variables (src/vmod_cfg_file.c): nested objects are
 walked, scalars become variables named by their path, each inserted into a red-black tree.
*/
module JsonFlatten {
  import opened RbShape
  import opened RbTree
  import opened JsonText
  import opened JsonSpec
  import opened JsonParser
  import opened VariablesDump

  /** printf("%.3f"), ties away from zero. */
  function Fixed3(n: real): string {
    var m := ((if n < 0.0 then -n else n) * 1000.0 + 0.5).Floor;
    (if n < 0.0 then "-" else "") + Dec(m / 1000) + "."
    + [Digit(m / 100 % 10), Digit(m / 10 % 10), Digit(m % 10)]
  }

  /** The value file_parse_json_emit gives a scalar; nothing for null, arrays and objects. */
  function Emitted(v: Value): Option<string> {
    match v
    case Bool(b) => Some(if b then "true" else "false")
    case Number(n) => Some(if n.Floor as real == n then Dec(ValueInt(n)) else Fixed3(n))
    case String(s) => Some(s)
    case _ => None
  }

  /** The variables the walk inserts, in its order. */
  function Flatten(members: seq<Member>, prefix: string, delimiter: string): seq<Row>
    decreases members, 0
  {
    if members == [] then []
    else FlattenOne(members[0], prefix, delimiter) + Flatten(members[1..], prefix, delimiter)
  }

  function FlattenOne(m: Member, prefix: string, delimiter: string): seq<Row>
    decreases m, 1
  {
    if m.value.Object? then Flatten(m.value.members, prefix + m.key + delimiter, delimiter)
    else if Emitted(m.value).Some? then [(prefix + m.key, Emitted(m.value).value)]
    else []
  }

  // ---------------------------------------------------------------- the walk

  ghost function Entries(h: Head): set<Row>
    reads h`nodes, h.nodes`value
  {
    set x | x in h.nodes :: (x.key, x.value)
  }

  ghost function Names(h: Head): set<string>
    reads h`nodes
  {
    set x | x in h.nodes :: x.key
  }

  /** Inserting the rows one by one trips no assertion: no name is empty or already there. */
  ghost predicate Insertable(names: set<string>, rows: seq<Row>)
    decreases |rows|
  {
    rows == [] || (rows[0].0 != "" && rows[0].0 !in names && Insertable(names + {rows[0].0}, rows[1..]))
  }

  ghost function RowSet(rows: seq<Row>): set<Row> {
    set r | r in rows
  }

  ghost function RowNames(rows: seq<Row>): set<string> {
    set r | r in rows :: r.0
  }

  /** Inserts one variable; `ok` is false where an assertion of the program would fail. */
  method InsertVariable(h: Head, name: string, value: string) returns (ok: bool)
    requires h.Valid()
    modifies h, h.nodes`left, h.nodes`right, h.nodes`parent, h.nodes`red
    ensures h.Valid() && fresh(h.nodes - old(h.nodes)) && h.nodes >= old(h.nodes)
    ensures ok <==> name != "" && name !in old(Names(h))
    ensures ok ==> Entries(h) == old(Entries(h)) + {(name, value)} && Names(h) == old(Names(h)) + {name}
  {
    hide Head.Valid;
    if name == "" {
      return false;
    }
    var variable := new Node(name, value);
    var dup; ghost var at;
    dup, at := h.Insert(variable);
    ok := dup == null;
    if ok {
      assert forall x <- h.nodes :: x == variable || x in old(h.nodes);
    } else {
      assert dup.key in old(Names(h));
    }
  }

  lemma {:induction false} InsertableSplit(names: set<string>, a: seq<Row>, b: seq<Row>)
    ensures Insertable(names, a + b) <==> Insertable(names, a) && Insertable(names + RowNames(a), b)
    decreases |a|
  {
    if a == [] {
      assert a + b == b && names + RowNames(a) == names;
    } else {
      assert (a + b)[0] == a[0] && (a + b)[1..] == a[1..] + b;
      InsertableSplit(names + {a[0].0}, a[1..], b);
      assert a == [a[0]] + a[1..];
      assert names + RowNames(a) == names + {a[0].0} + RowNames(a[1..]);
    }
  }

  lemma RowSets(a: seq<Row>, b: seq<Row>)
    ensures RowSet(a + b) == RowSet(a) + RowSet(b) && RowNames(a + b) == RowNames(a) + RowNames(b)
    ensures RowSet([]) == {} && RowNames([]) == {}
  {
    assert forall r :: r in a + b <==> r in a || r in b;
  }

  lemma OneRow(names: set<string>, row: Row)
    ensures Insertable(names, [row]) <==> row.0 != "" && row.0 !in names
    ensures RowSet([row]) == {row} && RowNames([row]) == {row.0}
  {
  }

  lemma {:induction false} FlattenNext(members: seq<Member>, i: nat, prefix: string, delimiter: string)
    requires i < |members|
    ensures Flatten(members[..i + 1], prefix, delimiter)
      == Flatten(members[..i], prefix, delimiter) + FlattenOne(members[i], prefix, delimiter)
    decreases i
  {
    hide FlattenOne;
    if i == 0 {
      assert members[..1] == [members[0]] && members[..1][1..] == [];
    } else {
      FlattenNext(members[1..], i - 1, prefix, delimiter);
      assert members[1..][..i - 1] == members[..i][1..] && members[1..][..i] == members[..i + 1][1..];
    }
  }

  /** file_parse_json_walk. */
  method Walk(h: Head, members: seq<Member>, prefix: string, delimiter: string) returns (ok: bool)
    requires h.Valid()
    modifies h, h.nodes`left, h.nodes`right, h.nodes`parent, h.nodes`red
    ensures h.Valid() && fresh(h.nodes - old(h.nodes)) && h.nodes >= old(h.nodes)
    ensures ok <==> Insertable(old(Names(h)), Flatten(members, prefix, delimiter))
    ensures ok ==> Entries(h) == old(Entries(h)) + RowSet(Flatten(members, prefix, delimiter))
    ensures ok ==> Names(h) == old(Names(h)) + RowNames(Flatten(members, prefix, delimiter))
    decreases members, 0
  {
    hide Flatten, FlattenOne, Insertable, RowSet, RowNames, Entries, Names, Head.Valid;
    ghost var done: seq<Row> := [];
    RowSets([], []);
    NothingFlat(old(Names(h)), prefix, delimiter);
    assert members[..0] == [];
    for i := 0 to |members|
      invariant h.Valid() && fresh(h.nodes - old(h.nodes)) && h.nodes >= old(h.nodes)
      invariant done == Flatten(members[..i], prefix, delimiter) && Insertable(old(Names(h)), done)
      invariant Entries(h) == old(Entries(h)) + RowSet(done)
      invariant Names(h) == old(Names(h)) + RowNames(done)
    {
      ghost var one := FlattenOne(members[i], prefix, delimiter);
      WalkStep(old(Names(h)), members, i, prefix, delimiter, done);
      ok := WalkOne(h, members[i], prefix, delimiter);
      if !ok {
        return;
      }
      done := done + one;
    }
    assert members[..|members|] == members;
    ok := true;
  }

  lemma WalkStep(names: set<string>, members: seq<Member>, i: nat, prefix: string, delimiter: string, done: seq<Row>)
    requires i < |members| && done == Flatten(members[..i], prefix, delimiter) && Insertable(names, done)
    ensures var one := FlattenOne(members[i], prefix, delimiter);
      && Flatten(members[..i + 1], prefix, delimiter) == done + one
      && (Insertable(names + RowNames(done), one) <==> Insertable(names, done + one))
      && (Insertable(names, Flatten(members, prefix, delimiter)) ==> Insertable(names, done + one))
      && RowSet(done + one) == RowSet(done) + RowSet(one) && RowNames(done + one) == RowNames(done) + RowNames(one)
  {
    hide Flatten, FlattenOne, Insertable, RowSet, RowNames;
    var one, rest := FlattenOne(members[i], prefix, delimiter), Flatten(members[i + 1..], prefix, delimiter);
    FlattenNext(members, i, prefix, delimiter);
    FlattenSplit(members, i + 1, prefix, delimiter);
    InsertableSplit(names, done, one);
    InsertableSplit(names, done + one, rest);
    RowSets(done, one);
  }

  /** One turn of the loop: down into an object, or file_parse_json_emit. */
  method WalkOne(h: Head, m: Member, prefix: string, delimiter: string) returns (ok: bool)
    requires h.Valid()
    modifies h, h.nodes`left, h.nodes`right, h.nodes`parent, h.nodes`red
    ensures h.Valid() && fresh(h.nodes - old(h.nodes)) && h.nodes >= old(h.nodes)
    ensures ok <==> Insertable(old(Names(h)), FlattenOne(m, prefix, delimiter))
    ensures ok ==> Entries(h) == old(Entries(h)) + RowSet(FlattenOne(m, prefix, delimiter))
    ensures ok ==> Names(h) == old(Names(h)) + RowNames(FlattenOne(m, prefix, delimiter))
    decreases m, 1
  {
    hide Flatten, Insertable, RowSet, RowNames, Emitted;
    RowSets([], []);
    NothingFlat(old(Names(h)), prefix, delimiter);
    match m.value {
      case Object(members) =>
        ok := Walk(h, members, prefix + m.key + delimiter, delimiter);
      case _ =>
        match Emitted(m.value) {
          case Some(value) =>
            OneRow(old(Names(h)), (prefix + m.key, value));
            ok := InsertVariable(h, prefix + m.key, value);
          case None =>
            ok := true;
        }
    }
  }

  lemma NothingFlat(names: set<string>, prefix: string, delimiter: string)
    ensures Flatten([], prefix, delimiter) == [] && Insertable(names, [])
  {
  }

  lemma {:induction false} FlattenSplit(members: seq<Member>, i: nat, prefix: string, delimiter: string)
    requires i <= |members|
    ensures Flatten(members, prefix, delimiter)
      == Flatten(members[..i], prefix, delimiter) + Flatten(members[i..], prefix, delimiter)
    decreases i
  {
    hide FlattenOne;
    if i == 0 {
      assert members[..0] == [] && members[0..] == members;
    } else {
      assert members[1..][..i - 1] == members[..i][1..] && members[1..][i - 1..] == members[i..];
      FlattenSplit(members[1..], i - 1, prefix, delimiter);
    }
  }

  datatype Outcome = Loaded(table: Head) | Rejected | Aborted

  /** file_parse_json: a table for a JSON object, nothing for other texts; `Aborted` where an
      assertion of the program would fail. */
  method LoadJson(contents: string, delimiter: string) returns (outcome: Outcome)
    ensures match Parse(contents)
      case Some(Object(members)) =>
        var rows := Flatten(members, "", delimiter);
        if Insertable({}, rows)
        then outcome.Loaded? && outcome.table.Valid() && fresh(outcome.table) && Entries(outcome.table) == RowSet(rows)
        else outcome.Aborted?
      case _ => outcome.Rejected?
  {
    hide Parse, Flatten, Insertable;
    var root := ParseText(contents);
    match root {
      case Some(Object(members)) =>
        var h := new Head();
        assert Names(h) == {} && Entries(h) == {};
        var ok := Walk(h, members, "", delimiter);
        outcome := if ok then Loaded(h) else Aborted;
      case _ => outcome := Rejected;
    }
  }
}
