/**
 Dumping a table of variables and loading the dump again: src/variables.c writes the text that
 src/vmod_cfg_file.c parses and walks.
*/
module DumpLoad {
  import opened CString
  import opened RbShape
  import opened RbTree
  import opened JsonSpec
  import opened VariablesDump
  import opened JsonFlatten
  import opened JsonPaths

  /** The rows with each byte of names and values put into UTF-8. */
  function Widened(rows: seq<Row>): (r: seq<Row>)
    requires ByteRows(rows)
    ensures |r| == |rows|
    ensures forall i :: 0 <= i < |r| ==> r[i] == (Latin1(rows[i].0), Latin1(rows[i].1))
  {
    seq(|rows|, i requires 0 <= i < |rows| => (Latin1(rows[i].0), Latin1(rows[i].1)))
  }

  predicate SevenBitRows(rows: seq<Row>) {
    forall r <- rows :: (forall c <- r.0 :: c as int < 128) && (forall c <- r.1 :: c as int < 128)
  }

  lemma SevenBitStays(rows: seq<Row>)
    requires ByteRows(rows) && SevenBitRows(rows)
    ensures Widened(rows) == rows
  {
    hide Latin1, IsBytes;
    forall i | 0 <= i < |rows| ensures Widened(rows)[i] == rows[i] {
      var r := rows[i];
      assert r in rows;
      assert forall k :: 0 <= k < |r.0| ==> r.0[k] in r.0;
      assert forall k :: 0 <= k < |r.1| ==> r.1[k] in r.1;
      SevenBit(rows[i].0);
      SevenBit(rows[i].1);
    }
  }

  /** No two byte strings have one UTF-8 form. */
  lemma {:induction false} Latin1Injective(a: string, b: string)
    requires IsBytes(a) && IsBytes(b) && Latin1(a) == Latin1(b)
    ensures a == b
    decreases |a|
  {
    if a != [] && b != [] {
      var x, y := Utf8(a[0] as int), Utf8(b[0] as int);
      assert Latin1(a)[0] == x[0] && Latin1(b)[0] == y[0];
      if |x| == 2 && |y| == 2 {
        assert Latin1(a)[1] == x[1] && Latin1(b)[1] == y[1];
      }
      SameUnit(a[0] as int, b[0] as int);
      assert Latin1(a[1..]) == Latin1(a)[|x|..] && Latin1(b[1..]) == Latin1(b)[|x|..];
      Latin1Injective(a[1..], b[1..]);
      assert a == [a[0]] + a[1..] && b == [b[0]] + b[1..];
    }
  }

  lemma SameUnit(m: nat, n: nat)
    requires m < 256 && n < 256 && Utf8(m)[0] == Utf8(n)[0]
    requires |Utf8(m)| == 2 && |Utf8(n)| == 2 ==> Utf8(m)[1] == Utf8(n)[1]
    ensures m == n
  {
  }

  /** Walking the members of a dump inserts its rows, whatever the delimiter. */
  lemma {:induction false} FlattenMembers(rows: seq<Row>, delimiter: string)
    requires ByteRows(rows)
    ensures Flatten(Members(rows), "", delimiter) == Widened(rows)
    decreases |rows|
  {
    hide Latin1, IsBytes;
    if rows != [] {
      FlattenMembers(rows[1..], delimiter);
      var m := Members(rows)[0];
      assert "" + m.key == m.key && Members(rows)[1..] == Members(rows[1..]);
      assert Widened(rows) == [Widened(rows)[0]] + Widened(rows[1..]);
    }
  }

  predicate DistinctNames(rows: seq<Row>) {
    forall i, j :: 0 <= i < j < |rows| ==> rows[i].0 != rows[j].0
  }

  predicate NamedRows(rows: seq<Row>) {
    forall r <- rows :: r.0 != ""
  }

  lemma WidenedInsertable(rows: seq<Row>)
    requires ByteRows(rows) && DistinctNames(rows)
    ensures Insertable({}, Widened(rows)) <==> NamedRows(rows)
  {
    hide IsBytes, Latin1, Insertable;
    var w := Widened(rows);
    InsertableIff({}, w);
    forall i, j | 0 <= i < j < |w| ensures w[i].0 != w[j].0 {
      if w[i].0 == w[j].0 { Latin1Injective(rows[i].0, rows[j].0); }
    }
    forall i | 0 <= i < |rows| ensures w[i].0 == "" <==> rows[i].0 == "" {
      Latin1Clean(rows[i].0);
      if rows[i].0 == "" { EmptyStays(); }
    }
    if !NamedRows(rows) {
      var i :| 0 <= i < |rows| && rows[i].0 == "";
      assert w[i] in w;
    }
  }

  lemma EmptyStays()
    ensures Latin1([]) == []
  {
  }

  // ---------------------------------------------------------------- rows of a table

  lemma {:induction false} MatchingIs(rows: seq<Row>, prefix: string)
    ensures forall r :: r in Matching(rows, prefix) <==> r in rows && prefix <= r.0
    ensures DistinctNames(rows) ==> DistinctNames(Matching(rows, prefix))
    decreases |rows|
  {
    if rows != [] {
      var front, last := rows[..|rows| - 1], rows[|rows| - 1];
      MatchingIs(front, prefix);
      assert rows == front + [last];
      if DistinctNames(rows) {
        forall r <- front ensures r.0 != last.0 {
          var i :| 0 <= i < |front| && front[i] == r;
          assert rows[i].0 != rows[|front|].0;
        }
      }
    }
  }

  lemma TableRows(h: Head)
    requires h.Valid()
    ensures DistinctNames(RowsOf(h.Seq())) && RowSet(RowsOf(h.Seq())) == Entries(h)
  {
    h.OneKeyEach();
    hide Head.Valid;
    SeqHoldsNodes(h);
    var s, rows := h.Seq(), RowsOf(h.Seq());
    forall r | r in rows ensures r in Entries(h) {
      var i :| 0 <= i < |rows| && rows[i] == r;
      assert s[i] in s;
    }
    forall x | x in h.nodes ensures (x.key, x.value) in rows {
      var i :| 0 <= i < |s| && s[i] == x;
      assert rows[i] == (x.key, x.value);
    }
  }

  lemma SeqHoldsNodes(h: Head)
    requires h.Valid()
    ensures forall x :: x in h.Seq() <==> x in h.nodes
    ensures forall i, j :: 0 <= i < j < |h.Seq()| ==> h.Seq()[i].key != h.Seq()[j].key
  {
    InOrderNodes(h.tree);
    forall i, j | 0 <= i < j < |h.Seq()| ensures h.Seq()[i].key != h.Seq()[j].key {
      StrcmpZero(h.Seq()[i].key, h.Seq()[j].key);
    }
  }

  /** A dump loads as the dumped rows in UTF-8, unless one of them has an empty name. */
  method DumpAndLoad(h: Head, prefix: string, delimiter: string) returns (outcome: Outcome)
    requires h.Valid() && ByteRows(RowsOf(h.Seq()))
    ensures ByteRows(Matching(RowsOf(h.Seq()), prefix))
    ensures var rows := Matching(RowsOf(h.Seq()), prefix);
      if NamedRows(rows)
      then outcome.Loaded? && outcome.table.Valid() && Entries(outcome.table) == RowSet(Widened(rows))
      else outcome.Aborted?
    ensures NamedRows(Matching(RowsOf(h.Seq()), prefix)) && SevenBitRows(RowsOf(h.Seq()))
      ==> Entries(outcome.table) == set r | r in Entries(h) && prefix <= r.0
  {
    hide Head.Valid, DumpText, Matching, Flatten, Members, Parse, Insertable, Widened, IsBytes, Latin1, RowSet, Entries, SevenBitRows, NamedRows, ByteRows, DistinctNames;
    TableRows(h);
    ghost var all := RowsOf(h.Seq());
    ghost var rows := Matching(all, prefix);
    MatchingIs(all, prefix);
    MatchingBytes(all, prefix);
    DumpReadBack(rows);
    FlattenMembers(rows, delimiter);
    WidenedInsertable(rows);
    if SevenBitRows(all) {
      SevenBitEntries(all, prefix);
    }
    var text := DumpVariables(h, prefix);
    outcome := LoadJson(text, delimiter);
  }

  lemma MatchingBytes(rows: seq<Row>, prefix: string)
    requires ByteRows(rows)
    ensures ByteRows(Matching(rows, prefix))
  {
    hide IsBytes, Matching;
    MatchingIs(rows, prefix);
    ByteRowsIs(rows);
    ByteRowsIs(Matching(rows, prefix));
  }

  lemma SevenBitEntries(rows: seq<Row>, prefix: string)
    requires ByteRows(rows) && ByteRows(Matching(rows, prefix)) && SevenBitRows(rows)
    ensures RowSet(Widened(Matching(rows, prefix))) == set r | r in RowSet(rows) && prefix <= r.0
  {
    hide IsBytes, Matching, ByteRows, Widened;
    MatchingIs(rows, prefix);
    SevenBitStays(Matching(rows, prefix));
  }

  lemma ByteRowsIs(rows: seq<Row>)
    ensures ByteRows(rows) <==> forall r <- rows :: IsBytes(r.0) && IsBytes(r.1)
  {
    hide IsBytes;
    if ByteRows(rows) {
      forall r <- rows ensures IsBytes(r.0) && IsBytes(r.1) {
        var i :| 0 <= i < |rows| && rows[i] == r;
      }
    }
  }
}
