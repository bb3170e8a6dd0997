/**
 What the printer of src/cJSON.c writes, byte for byte: words, numbers and escapes by tables of their
 own, and both layouts of arrays and objects.
*/
module JsonLayout {
  import opened JsonText
  import opened JsonSpec
  import opened JsonUnicode
  import opened JsonLexemes
  import opened JsonValues
  import opened VariablesDump
  import opened JsonDepth

  /** Words, integers without needless digits, and quotes around strings. */
  lemma ScalarText(depth: nat, format: bool)
    ensures Text(Null, depth, format) == "null"
    ensures Text(Bool(true), depth, format) == "true" && Text(Bool(false), depth, format) == "false"
    ensures forall n: int :: INT_MIN <= n <= INT_MAX ==> Text(Number(n as real), depth, format) == NumberText(WholeNumber(n))
    ensures forall s: string :: IsCString(s) ==> Text(String(s), depth, format) == "\"" + EscapedAll(s) + "\""
  {
    forall n: int | INT_MIN <= n <= INT_MAX
      ensures Text(Number(n as real), depth, format) == NumberText(WholeNumber(n))
    {
      WholeWritten(n);
      FloorOf(n);
    }
  }

  /** The escape of one byte: by letter where there is one (a slash needs none), otherwise the code of a
      control byte, with lower-case digits. */
  lemma EscapedIs(c: char)
    ensures c as int < 32 || c == '\"' || c == '\\' ==>
      Escaped(c) == if exists k :: 0 <= k < 8 && c as int == MEANT[k] then
                      var k :| 0 <= k < 8 && c as int == MEANT[k]; ['\\', LETTERS[k]]
                    else ['\\', 'u', '0', '0', LOWER[c as int / 16], LOWER[c as int % 16]]
    ensures c as int >= 32 && c != '\"' && c != '\\' ==> Escaped(c) == [c]
  {
    if c as int < 32 {
      HexDigitIs(c as int / 16);
      HexDigitIs(c as int % 16);
    }
    forall k | 0 <= k < 8 && c as int == MEANT[k] && k != 2
      ensures ShortEscape(c) == LETTERS[k]
    {
    }
    MeantAll(c);
  }

  lemma MeantAll(c: char)
    ensures c as int in {34, 92, 8, 12, 10, 13, 9} <==> ShortEscape(c) != NUL
    ensures (exists k :: 0 <= k < 8 && c as int == MEANT[k]) <==> c as int in {34, 92, 47, 8, 12, 10, 13, 9}
  {
    assert MEANT[0] == 34 && MEANT[1] == 92 && MEANT[2] == 47 && MEANT[3] == 8;
    assert MEANT[4] == 12 && MEANT[5] == 10 && MEANT[6] == 13 && MEANT[7] == 9;
  }

  lemma HexDigitIs(n: nat)
    requires n < 16
    ensures HexDigit(n) == LOWER[n]
  {
    assert LOWER[n] as int == if n < 10 then n + 48 else n + 87;
  }

  /** The same for a dump, which also writes the codes of bytes beyond the printable ones. */
  lemma DumpCharIs(c: char)
    requires c as int < 256
    ensures 32 <= c as int < 127 || c as int in {8, 9, 10, 12, 13} ==> DumpChar(c) == Escaped(c)
    ensures c as int >= 127 || (c as int < 32 && c as int !in {8, 9, 10, 12, 13}) ==>
      DumpChar(c) == ['\\', 'u', '0', '0', LOWER[c as int / 16], LOWER[c as int % 16]]
  {
    HexDigitIs(c as int / 16);
    HexDigitIs(c as int % 16);
    assert c as int / 16 % 16 == c as int / 16;
    MeantAll(c);
  }

  // ---------------------------------------------------------------- layouts

  function Chain(parts: seq<string>, between: string): string {
    if parts == [] then "" else if |parts| == 1 then parts[0] else parts[0] + between + Chain(parts[1..], between)
  }

  function ItemTexts(items: seq<Value>, depth: nat, format: bool): (r: seq<string>)
    requires PlainItems(items)
    ensures |r| == |items|
  {
    if items == [] then [] else [Text(items[0], depth, format)] + ItemTexts(items[1..], depth, format)
  }

  function MemberTexts(members: seq<Member>, lead: string, colon: string, depth: nat, format: bool): (r: seq<string>)
    requires PlainMembers(members)
    ensures |r| == |members|
  {
    if members == [] then []
    else [lead + "\"" + EscapedAll(members[0].key) + "\"" + colon + Text(members[0].value, depth, format)]
         + MemberTexts(members[1..], lead, colon, depth, format)
  }

  lemma {:induction false} ItemsChained(items: seq<Value>, depth: nat, format: bool)
    requires PlainItems(items)
    ensures ItemsText(items, depth, format) == Chain(ItemTexts(items, depth, format), if format then ", " else ",")
    decreases |items|
  {
    hide Text, Plain;
    if |items| > 1 {
      var sep := if format then ", " else ",";
      ItemsChained(items[1..], depth, format);
      assert ItemTexts(items, depth, format)[1..] == ItemTexts(items[1..], depth, format);
      Assoc(Text(items[0], depth, format), sep, ItemsText(items[1..], depth, format));
    } else if |items| == 1 {
      assert items[1..] == [];
      assert Text(items[0], depth, format) + "" == Text(items[0], depth, format);
    }
  }

  lemma Assoc(a: string, b: string, c: string)
    ensures a + (b + c) == a + b + c
  {
  }

  /** An array: a comma between the elements, and a space behind it in the formatted layout. */
  lemma ArrayText(items: seq<Value>, depth: nat, format: bool)
    requires PlainItems(items)
    ensures Text(Array(items), depth, format)
      == "[" + Chain(ItemTexts(items, depth + 1, format), if format then ", " else ",") + "]"
  {
    hide ItemsText, ItemTexts, PlainItems;
    ItemsChained(items, depth + 1, format);
  }

  lemma {:induction false} MembersChained(members: seq<Member>, depth: nat, format: bool)
    requires PlainMembers(members)
    ensures var lead, nl := if format then Tabs(depth) else "", if format then "\n" else "";
      var parts := MemberTexts(members, lead, if format then ":\t" else ":", depth, format);
      MembersText(members, depth, format) == if members == [] then "" else Chain(parts, "," + nl) + nl
    decreases |members|
  {
    hide Text, Plain, Tabs, EscapedAll;
    var lead, nl := if format then Tabs(depth) else "", if format then "\n" else "";
    var colon := if format then ":\t" else ":";
    if members != [] {
      var m := members[0];
      var one := lead + "\"" + EscapedAll(m.key) + "\"" + colon + Text(m.value, depth, format);
      Quotes(lead, EscapedAll(m.key), colon, Text(m.value, depth, format));
      assert MemberText(m, depth, format) == one;
      MembersChained(members[1..], depth, format);
      assert MemberTexts(members, lead, colon, depth, format)[1..] == MemberTexts(members[1..], lead, colon, depth, format);
      if |members| == 1 {
        assert members[1..] == [];
        assert one + "" + nl + "" == one + nl;
      } else {
        var rest := Chain(MemberTexts(members[1..], lead, colon, depth, format), "," + nl);
        Chained(one, nl, rest);
      }
    }
  }

  lemma Quotes(lead: string, key: string, colon: string, x: string)
    ensures lead + ("\"" + key + "\"") + colon + x == lead + "\"" + key + "\"" + colon + x
  {
  }

  lemma Chained(one: string, nl: string, rest: string)
    ensures one + "," + nl + (rest + nl) == one + ("," + nl) + rest + nl
  {
  }

  /** An object: on one line without blanks, or each member on a line of its own, behind as many tabs as
      it is deep, with a tab behind the colon. */
  lemma ObjectText(members: seq<Member>, depth: nat, format: bool)
    requires PlainMembers(members)
    ensures !format ==>
      Text(Object(members), depth, false) == "{" + Chain(MemberTexts(members, "", ":", depth + 1, false), ",") + "}"
    ensures format ==>
      Text(Object(members), depth, true)
        == "{\n" + (if members == [] then ""
                    else Chain(MemberTexts(members, Tabs(depth + 1), ":\t", depth + 1, true), ",\n") + "\n")
           + Tabs(depth) + "}"
  {
    if format { ObjectLines(members, depth); } else { ObjectLine(members, depth); }
  }

  lemma ObjectLines(members: seq<Member>, depth: nat)
    requires PlainMembers(members)
    ensures Text(Object(members), depth, true)
      == "{\n" + (if members == [] then ""
                  else Chain(MemberTexts(members, Tabs(depth + 1), ":\t", depth + 1, true), ",\n") + "\n")
         + Tabs(depth) + "}"
  {
    hide MembersText, MemberTexts, PlainMembers, Tabs, Chain;
    MembersChained(members, depth + 1, true);
    assert "," + "\n" == ",\n";
    var body := MembersText(members, depth + 1, true);
    assert "{" + ("\n" + body + (Tabs(depth) + "}")) == "{\n" + body + Tabs(depth) + "}";
  }

  lemma ObjectLine(members: seq<Member>, depth: nat)
    requires PlainMembers(members)
    ensures Text(Object(members), depth, false) == "{" + Chain(MemberTexts(members, "", ":", depth + 1, false), ",") + "}"
  {
    hide MembersText, MemberTexts, PlainMembers, Tabs, Chain;
    MembersChained(members, depth + 1, false);
    assert "," + "" == ",";
    var body, c := MembersText(members, depth + 1, false), Chain(MemberTexts(members, "", ":", depth + 1, false), ",");
    assert "{" + ("" + body + ("" + "}")) == "{" + body + "}" && c + "" == c;
    NothingChained();
    NoTexts(depth + 1);
  }

  lemma NothingChained()
    ensures Chain([], ",") == ""
  {
  }

  lemma NoTexts(depth: nat)
    ensures MemberTexts([], "", ":", depth, false) == []
  {
  }

  lemma TabsAre(n: nat)
    ensures |Tabs(n)| == n && forall i :: 0 <= i < n ==> Tabs(n)[i] as int == 9
  {
  }

  // ---------------------------------------------------------------- the nesting limit

  /** Arrays in arrays. */
  function Nest(n: nat): Value {
    if n == 0 then Null else Array([Nest(n - 1)])
  }

  function Brackets(n: nat): string {
    if n == 0 then "null" else "[" + Brackets(n - 1) + "]"
  }

  lemma {:induction false} NestText(n: nat, depth: nat)
    ensures Plain(Nest(n)) && Depth(Nest(n)) == n && Text(Nest(n), depth, false) == Brackets(n)
    decreases n
  {
    if n > 0 {
      NestText(n - 1, depth + 1);
      var items := [Nest(n - 1)];
      assert items[1..] == [];
      assert ItemsText(items, depth + 1, false) == Text(Nest(n - 1), depth + 1, false) + "";
    }
  }

  /** A thousand brackets are read, one more is not. */
  lemma BracketLimit(n: nat)
    ensures Parse(Brackets(n)) == if n <= 1000 then Some(Nest(n)) else None
  {
    hide Parse, Text;
    NestText(n, 0);
    RoundTripIff(Nest(n), false);
  }
}
