/**
 Tables of variables (src/variables.c): dumping a table as JSON, and what parsing the dump gives.
*/
module VariablesDump {
  import opened CString
  import opened RbShape
  import opened RbTree
  import opened RbIterate
  import opened JsonText
  import opened JsonSpec
  import opened JsonRoundTrip

  type Row = (string, string)

  /** Names and values of a sequence of nodes. */
  ghost function RowsOf(s: seq<Node>): (r: seq<Row>)
    reads (set x | x in s)`value
    ensures |r| == |s| && forall i :: 0 <= i < |s| ==> r[i] == (s[i].key, s[i].value)
  {
    if s == [] then [] else RowsOf(s[..|s| - 1]) + [(s[|s| - 1].key, s[|s| - 1].value)]
  }

  /** The rows whose name starts with `prefix`, in the same order. */
  function Matching(rows: seq<Row>, prefix: string): seq<Row> {
    if rows == [] then []
    else
      var last := rows[|rows| - 1];
      Matching(rows[..|rows| - 1], prefix) + (if prefix <= last.0 then [last] else [])
  }

  /** A row is there if and only if it was and its name starts with the prefix. */
  lemma {:induction false} MatchingIs(rows: seq<Row>, prefix: string, row: Row)
    ensures row in Matching(rows, prefix)
      <==> row in rows && |row.0| >= |prefix| && forall i :: 0 <= i < |prefix| ==> row.0[i] == prefix[i]
    decreases |rows|
  {
    if rows != [] {
      MatchingIs(rows[..|rows| - 1], prefix, row);
      assert rows == rows[..|rows| - 1] + [rows[|rows| - 1]];
      PrefixIs(prefix, row.0);
    }
  }

  lemma PrefixIs(p: string, s: string)
    ensures p <= s <==> |s| >= |p| && forall i :: 0 <= i < |p| ==> s[i] == p[i]
  {
  }

  predicate Ascending(rows: seq<Row>) {
    forall i, j :: 0 <= i < j < |rows| ==> Less(rows[i].0, rows[j].0)
  }

  lemma AscendsMore(rows: seq<Row>, row: Row)
    requires Ascending(rows) && forall i :: 0 <= i < |rows| ==> Less(rows[i].0, row.0)
    ensures Ascending(rows + [row])
  {
    hide Less;
  }

  /** Rows in ascending order of their names stay so. */
  lemma {:induction false} MatchingAscends(rows: seq<Row>, prefix: string)
    requires Ascending(rows)
    ensures Ascending(Matching(rows, prefix))
    decreases |rows|
  {
    hide Less;
    if rows != [] {
      var init, last := rows[..|rows| - 1], rows[|rows| - 1];
      assert forall i :: 0 <= i < |init| ==> init[i] == rows[i];
      MatchingAscends(init, prefix);
      var z := Matching(init, prefix);
      forall i | 0 <= i < |z|
        ensures Less(z[i].0, last.0)
      {
        MatchingIs(init, prefix, z[i]);
        assert z[i] in z;
        var k :| 0 <= k < |init| && init[k] == z[i];
        assert rows[k] == z[i];
      }
      AscendsMore(z, last);
      assert z + [] == z;
    }
  }

  // ---------------------------------------------------------------- the text of a dump

  predicate IsBytes(s: string) {
    forall i :: 0 <= i < |s| ==> s[i] != NUL && s[i] as int < 256
  }

  /** DUMP_STRING for one byte. */
  function DumpChar(c: char): string {
    if 31 < c as int < 127 && c != '\"' && c != '\\' then [c]
    else if ShortEscape(c) != NUL then ['\\', ShortEscape(c)]
    else ['\\', 'u', '0', '0', HexDigit(c as int / 16 % 16), HexDigit(c as int % 16)]
  }

  function DumpAll(s: string): string {
    if s == [] then [] else DumpChar(s[0]) + DumpAll(s[1..])
  }

  function DumpString(s: string): string {
    "\"" + DumpAll(s) + "\""
  }

  function DumpRow(row: Row): string {
    DumpString(row.0) + ":" + DumpString(row.1)
  }

  function DumpRows(rows: seq<Row>): string {
    if rows == [] then ""
    else DumpRow(rows[0]) + (if |rows| == 1 then "" else "," + DumpRows(rows[1..]))
  }

  function DumpText(rows: seq<Row>): string {
    "{" + (DumpRows(rows) + "}")
  }

  lemma {:induction false} DumpAllNext(s: string, i: nat)
    requires i < |s|
    ensures DumpAll(s[..i + 1]) == DumpAll(s[..i]) + DumpChar(s[i])
    decreases |s|
  {
    if i == 0 {
      assert s[..1] == [s[0]] && s[..1][1..] == [];
    } else {
      DumpAllNext(s[1..], i - 1);
      assert s[1..][..i - 1] == s[..i][1..] && s[1..][..i] == s[..i + 1][1..];
    }
  }

  lemma {:induction false} DumpRowsNext(rows: seq<Row>, row: Row)
    ensures DumpRows(rows + [row]) == DumpRows(rows) + (if rows == [] then "" else ",") + DumpRow(row)
    decreases |rows|
  {
    hide DumpRow;
    if rows == [] {
      assert rows + [row] == [row];
    } else {
      assert (rows + [row])[1..] == rows[1..] + [row];
      DumpRowsNext(rows[1..], row);
    }
  }

  // ---------------------------------------------------------------- dump_variables

  /** DUMP_STRING: one byte after the other. */
  method PutString(text: string, s: string) returns (result: string)
    ensures result == text + DumpString(s)
  {
    hide DumpAll;
    result := text + "\"";
    assert DumpAll(s[..0]) == "" by { NothingDumped(); }
    for i := 0 to |s|
      invariant result == text + "\"" + DumpAll(s[..i])
    {
      DumpAllNext(s, i);
      if 31 < s[i] as int < 127 && s[i] != '\"' && s[i] != '\\' {
        result := result + [s[i]];
      } else {
        result := result + ['\\'];
        if ShortEscape(s[i]) != NUL {
          result := result + [ShortEscape(s[i])];
        } else {
          result := result + ['u', '0', '0', HexDigit(s[i] as int / 16 % 16), HexDigit(s[i] as int % 16)];
        }
      }
    }
    assert s[..|s|] == s;
    result := result + "\"";
  }

  lemma NothingDumped()
    ensures DumpAll([]) == ""
  {
  }

  /** A row, with a comma in front unless it is the first one. */
  method PutRow(text: string, name: string, value: string, first: bool) returns (result: string)
    ensures result == text + (if first then "" else ",") + DumpRow((name, value))
  {
    hide DumpString;
    result := text;
    if !first {
      result := result + ",";
    }
    result := PutString(result, name);
    result := result + ":";
    result := PutString(result, value);
  }

  lemma MatchingNext(rows: seq<Row>, k: nat, prefix: string)
    requires k < |rows|
    ensures Matching(rows[..k + 1], prefix) == Matching(rows[..k], prefix) + (if prefix <= rows[k].0 then [rows[k]] else [])
  {
    assert rows[..k + 1][..k] == rows[..k];
  }

  /** The object with the rows under `prefix`, in the order of VRBT_FOREACH. */
  method DumpVariables(h: Head, prefix: string) returns (result: string)
    requires h.Valid()
    ensures result == DumpText(Matching(RowsOf(h.Seq()), prefix))
  {
    hide DumpRows, DumpRow, Matching, Head.Valid;
    ghost var rows, k, done := RowsOf(h.Seq()), 0, [];
    NoRows(prefix);
    assert rows[..0] == [];
    result := "{";
    var i := 0;
    var x := MinMax(h, -1);
    while x != null
      invariant k <= |rows| && x == At(h.Seq(), k)
      invariant done == Matching(rows[..k], prefix) && i == |done|
      invariant result == "{" + DumpRows(done)
      decreases |rows| - k
    {
      MatchingNext(rows, k, prefix);
      if prefix <= x.key {
        DumpRowsNext(done, rows[k]);
        assert "{" + (DumpRows(done) + (if done == [] then "" else ",") + DumpRow(rows[k]))
          == "{" + DumpRows(done) + (if done == [] then "" else ",") + DumpRow(rows[k]);
        result := PutRow(result, x.key, x.value, i == 0);
        i := i + 1;
        done := done + [rows[k]];
      }
      x := Next(h, x, k);
      k := k + 1;
    }
    assert rows[..k] == rows;
    assert "{" + (DumpRows(done) + "}") == "{" + DumpRows(done) + "}";
    result := result + "}";
  }

  lemma NoRows(prefix: string)
    ensures DumpRows([]) == "" && Matching([], prefix) == []
  {
  }

  // ---------------------------------------------------------------- reading a dump back

  /** The bytes of `s`, each taken for a code point and put into UTF-8. */
  function Latin1(s: string): string
    requires IsBytes(s)
  {
    if s == [] then [] else Utf8(s[0] as int) + Latin1(s[1..])
  }

  lemma {:induction false} SevenBit(s: string)
    requires IsBytes(s) && forall i :: 0 <= i < |s| ==> s[i] as int < 128
    ensures Latin1(s) == s
    decreases |s|
  {
    if s != [] {
      SevenBit(s[1..]);
      assert s == [s[0]] + s[1..];
    }
  }

  lemma {:induction false} Latin1Clean(s: string)
    requires IsBytes(s)
    ensures IsCString(Latin1(s)) && |Latin1(s)| >= |s|
    decreases |s|
  {
    if s != [] {
      Latin1Clean(s[1..]);
    }
  }

  /** One dumped byte: the first pass steps over it, the second gives its UTF-8 form. */
  lemma DumpStep(t: string, p: nat, c: char, end: nat)
    requires c != NUL && c as int < 256 && Starts(t, p, DumpChar(c)) && p + |DumpChar(c)| <= end < |t|
    ensures ScanEnd(t, p) == ScanEnd(t, p + |DumpChar(c)|)
    ensures Unescape(t, p, end) == Prepend(Utf8(c as int), Unescape(t, p + |DumpChar(c)|, end))
  {
    var e := DumpChar(c);
    StartsAt(t, p, e, 0);
    if |e| > 1 { StartsAt(t, p, e, 1); }
    if |e| == 6 {
      StartsAt(t, p, e, 2);
      StartsAt(t, p, e, 3);
      StartsAt(t, p, e, 4);
      StartsAt(t, p, e, 5);
      HexEscape(t, p, c, end);
    }
  }

  lemma HexEscape(t: string, p: nat, c: char, end: nat)
    requires c as int < 256 && p + 6 <= end < |t|
    requires t[p] == '\\' && t[p + 1] == 'u' && t[p + 2] == '0' && t[p + 3] == '0'
    requires t[p + 4] == HexDigit(c as int / 16 % 16) && t[p + 5] == HexDigit(c as int % 16)
    ensures ScanEnd(t, p) == ScanEnd(t, p + 6)
    ensures Utf16(t, p, end) == Some(Unit(c as int, 6))
  {
    HexRoundTrip(c as int / 16 % 16);
    HexRoundTrip(c as int % 16);
    assert ScanEnd(t, p) == ScanEnd(t, p + 2) == ScanEnd(t, p + 3) == ScanEnd(t, p + 4);
    assert ScanEnd(t, p + 4) == ScanEnd(t, p + 5) == ScanEnd(t, p + 6);
  }

  lemma {:induction false} DumpAllReadBack(t: string, p: nat, s: string)
    requires IsBytes(s) && Starts(t, p, DumpAll(s)) && CharAt(t, p + |DumpAll(s)|, '\"')
    ensures ScanEnd(t, p) == Some(p + |DumpAll(s)|)
    ensures Unescape(t, p, p + |DumpAll(s)|) == Some(Latin1(s))
    decreases |s|
  {
    hide DumpChar, Utf8, Starts;
    if s != [] {
      var e := DumpChar(s[0]);
      StartsSplit(t, p, e, DumpAll(s[1..]));
      DumpAllReadBack(t, p + |e|, s[1..]);
      DumpStep(t, p, s[0], p + |DumpAll(s)|);
    }
  }

  lemma StringReadBack(t: string, off: nat, s: string)
    requires IsBytes(s) && Starts(t, off, DumpString(s))
    ensures ParseString(t, off) == Some((Latin1(s), off + |DumpString(s)|))
  {
    hide DumpAll, Latin1;
    StartsSplit(t, off, "\"" + DumpAll(s), "\"");
    StartsSplit(t, off, "\"", DumpAll(s));
    StartsAt(t, off, "\"", 0);
    StartsAt(t, off + 1 + |DumpAll(s)|, "\"", 0);
    DumpAllReadBack(t, off + 1, s);
    Latin1Clean(s);
    CStrOfCString(Latin1(s));
  }

  predicate ByteRows(rows: seq<Row>) {
    forall i :: 0 <= i < |rows| ==> IsBytes(rows[i].0) && IsBytes(rows[i].1)
  }

  /** The members a dump stands for. */
  function Members(rows: seq<Row>): seq<Member>
    requires ByteRows(rows)
  {
    if rows == [] then []
    else [Member(Latin1(rows[0].0), String(Latin1(rows[0].1)))] + Members(rows[1..])
  }

  lemma RowReadBack(t: string, off: nat, row: Row, depth: nat)
    requires IsBytes(row.0) && IsBytes(row.1) && depth <= NESTING_LIMIT && off < |t|
    requires Starts(t, off + 1, DumpRow(row))
    ensures ParseMember(t, off, depth)
      == Some((Member(Latin1(row.0), String(Latin1(row.1))), off + 1 + |DumpRow(row)|))
    ensures t[off + 1] == '\"'
  {
    hide ParseMember, ParseValue, ParseString, DumpAll, Latin1;
    var n, v := DumpString(row.0), DumpString(row.1);
    StartsSplit(t, off + 1, n + ":", v);
    StartsSplit(t, off + 1, n, ":");
    StartsAt(t, off + 1, n, 0);
    StartsAt(t, off + 1 + |n|, ":", 0);
    StartsAt(t, off + 2 + |n|, v, 0);
    SkipNothing(t, off + 1);
    SkipNothing(t, off + 2 + |n|);
    StringReadBack(t, off + 1, row.0);
    StringReadBack(t, off + 2 + |n|, row.1);
    StringValue(t, off + 2 + |n|, depth);
    MemberFrom(t, off, depth, off + 1, Latin1(row.0), off + 1 + |n|, off + 2 + |n|, String(Latin1(row.1)), off + 1 + |DumpRow(row)|);
  }

  lemma StringValue(t: string, off: nat, depth: nat)
    requires depth <= NESTING_LIMIT && CharAt(t, off, '\"') && ParseString(t, off).Some?
    ensures ParseValue(t, off, depth) == Some((String(ParseString(t, off).value.0), ParseString(t, off).value.1))
  {
    hide ParseString, ParseArray, ParseObject, ParseNumber;
    if Starts(t, off, "null") { StartsAt(t, off, "null", 0); }
    if Starts(t, off, "true") { StartsAt(t, off, "true", 0); }
    if Starts(t, off, "false") { StartsAt(t, off, "false", 0); }
  }

  lemma {:induction false} RowsReadBack(t: string, off: nat, rows: seq<Row>, depth: nat)
    requires ByteRows(rows) && rows != [] && depth <= NESTING_LIMIT && off < |t|
    requires Starts(t, off + 1, DumpRows(rows)) && CharAt(t, off + 1 + |DumpRows(rows)|, '}')
    ensures ParseMembers(t, off, depth) == Some((Members(rows), off + 1 + |DumpRows(rows)|))
    decreases |rows|
  {
    hide ParseMember, ParseMembers, DumpRow, Latin1, Skip;
    var x, rest := DumpRow(rows[0]), DumpRows(rows[1..]);
    var m := Member(Latin1(rows[0].0), String(Latin1(rows[0].1)));
    var o := off + 1 + |x|;
    if |rows| == 1 {
      assert rows[1..] == [];
      NoMembersHere();
      assert [m] + [] == [m];
      RowReadBack(t, off, rows[0], depth);
      SkipNothing(t, o);
      LastMember(t, off, depth, m, o, o);
    } else {
      StartsSplit(t, off + 1, x, "," + rest);
      StartsSplit(t, o, ",", rest);
      StartsAt(t, o, ",", 0);
      RowReadBack(t, off, rows[0], depth);
      RowsReadBack(t, o, rows[1..], depth);
      MoreMembers(t, off, depth, m, o, Members(rows[1..]), o + 1 + |rest|);
    }
  }

  lemma ObjectReadBack(t: string, rows: seq<Row>)
    requires ByteRows(rows) && Starts(t, 0, "{" + (DumpRows(rows) + "}")) && CharAt(t, 0, '{')
    ensures ParseObject(t, 0, 0) == Some((Object(Members(rows)), 2 + |DumpRows(rows)|))
  {
    hide DumpRows, Members, ParseMembers, ParseObject, ByteRows, Skip;
    StartsSplit(t, 0, "{", DumpRows(rows) + "}");
    StartsSplit(t, 1, DumpRows(rows), "}");
    StartsAt(t, 1 + |DumpRows(rows)|, "}", 0);
    if rows == [] {
      NoRows("");
      NoMembersHere();
      SkipNothing(t, 1);
      ObjectEmpty(t, 0, 0);
    } else {
      RowsReadBack(t, 0, rows, 1);
      RowsFirst(t, 1, rows);
      SkipNothing(t, 1);
      ObjectFrom(t, 0, 0, Members(rows), 1 + |DumpRows(rows)|);
    }
  }

  /** Parsing a dump gives one string member for each row, in order. */
  lemma DumpReadBack(rows: seq<Row>)
    requires ByteRows(rows)
    ensures Parse(DumpText(rows)) == Some(Object(Members(rows)))
  {
    hide DumpRows, Members, ParseObject, ParseValue, ByteRows;
    var t := DumpText(rows) + [NUL];
    assert t[0] == '{';
    assert Starts(t, 0, DumpText(rows));
    SkipNothing(t, 0);
    ObjectReadBack(t, rows);
    ObjectValue(t, 0, 0);
  }

  lemma ObjectValue(t: string, off: nat, depth: nat)
    requires depth <= NESTING_LIMIT && CharAt(t, off, '{')
    ensures ParseValue(t, off, depth) == ParseObject(t, off, depth)
  {
    hide ParseString, ParseArray, ParseObject, ParseNumber;
  }

  lemma NoMembersHere()
    ensures Members([]) == []
  {
  }

  lemma RowsFirst(t: string, off: nat, rows: seq<Row>)
    requires rows != [] && Starts(t, off, DumpRows(rows))
    ensures CharAt(t, off, '\"')
  {
    hide DumpAll;
    assert DumpRow(rows[0])[0] == '\"';
    assert DumpRows(rows)[0] == '\"';
    StartsAt(t, off, DumpRows(rows), 0);
  }
}
