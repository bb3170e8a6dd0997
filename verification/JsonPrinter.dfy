/**
 The printer of src/cJSON.c as it runs: text goes into a buffer that grows by `ensure`, some of
 it counted in the offset at once, some only when `update_offset` looks for the end. Every
 method is proved to write the text JsonText gives, followed by a NUL, inside the buffer.
*/
module JsonPrinter {
  import opened JsonText
  import opened JsonSpec
  import opened JsonParser
  import opened JsonRoundTrip
  import opened JsonDepth
  import opened ChildList
  import opened Duplicate
  import opened JsonItems

  // ---------------------------------------------------------------- no NUL in printed text

  lemma EscapedClean(c: char)
    requires c != NUL
    ensures IsCString(Escaped(c)) && |Escaped(c)| <= 6
  {
  }

  lemma {:induction false} EscapedAllClean(s: string)
    requires IsCString(s)
    ensures IsCString(EscapedAll(s))
  {
    if s != [] {
      EscapedClean(s[0]);
      EscapedAllClean(s[1..]);
    }
  }

  lemma CleanConcat(a: string, b: string)
    requires IsCString(a) && IsCString(b)
    ensures IsCString(a + b)
  {
  }

  lemma {:induction false} EscapedAllSplit(a: string, b: string)
    ensures EscapedAll(a + b) == EscapedAll(a) + EscapedAll(b)
    decreases |a|
  {
    if a == [] {
      assert a + b == b;
    } else {
      assert (a + b)[1..] == a[1..] + b;
      EscapedAllSplit(a[1..], b);
    }
  }

  lemma {:induction false} DecClean(n: int)
    ensures IsCString(Dec(n))
  {
  }

  lemma {:induction false} TextClean(v: Value, depth: nat, format: bool)
    requires Plain(v)
    ensures IsCString(Text(v, depth, format))
    decreases v, 0
  {
    hide Quoted, EscapedAll, Dec, IsCString;
    match v
    case Null => WordsClean();
    case Bool(b) => WordsClean();
    case Number(n) => DecClean(n.Floor);
    case String(s) => QuotedClean(s);
    case Array(items) => ItemsClean(items, depth + 1, format); BracketClean("[", ItemsText(items, depth + 1, format), "]");
    case Object(members) =>
      MembersClean(members, depth + 1, format);
      IndentClean(depth, format);
      CleanConcat(NewLine(format), MembersText(members, depth + 1, format));
      BracketClean("", Indent(depth, format), "}");
      assert "" + Indent(depth, format) == Indent(depth, format);
      CleanConcat(NewLine(format) + MembersText(members, depth + 1, format), Indent(depth, format) + "}");
      WordsClean();
      CleanConcat("{", NewLine(format) + MembersText(members, depth + 1, format) + (Indent(depth, format) + "}"));
  }

  lemma WordsClean()
    ensures IsCString("null") && IsCString("true") && IsCString("false") && IsCString("{")
  {
  }

  lemma BracketClean(a: string, b: string, c: string)
    requires IsCString(b) && |a| <= 1 && |c| <= 1 && (a != "" ==> a[0] != NUL) && (c != "" ==> c[0] != NUL)
    ensures IsCString(a + b + c)
  {
  }

  lemma QuotedClean(s: string)
    requires IsCString(s)
    ensures IsCString(Quoted(s))
  {
    EscapedAllClean(s);
    BracketClean("\"", EscapedAll(s), "\"");
  }

  lemma IndentClean(depth: nat, format: bool)
    ensures IsCString(Indent(depth, format)) && IsCString(NewLine(format)) && IsCString(Colon(format))
  {
  }

  lemma {:induction false} ItemsClean(items: seq<Value>, depth: nat, format: bool)
    requires PlainItems(items)
    ensures IsCString(ItemsText(items, depth, format))
    decreases items
  {
    if items != [] {
      TextClean(items[0], depth, format);
      if |items| > 1 { ItemsClean(items[1..], depth, format); }
    }
  }

  lemma {:induction false} MembersClean(members: seq<Member>, depth: nat, format: bool)
    requires PlainMembers(members)
    ensures IsCString(MembersText(members, depth, format))
    decreases members
  {
    hide Quoted, Text;
    if members != [] {
      var m := members[0];
      TextClean(m.value, depth, format);
      QuotedClean(m.key);
      IndentClean(depth, format);
      assert IsCString(MemberText(m, depth, format));
      MembersClean(members[1..], depth, format);
    }
  }

  /** Escaping one byte after the other. */
  lemma EscapedNext(s: string, i: nat)
    requires i < |s|
    ensures EscapedAll(s[..i + 1]) == EscapedAll(s[..i]) + Escaped(s[i])
    ensures |EscapedAll(s[..i + 1])| <= |EscapedAll(s)|
  {
    assert s[..i + 1] == s[..i] + [s[i]];
    EscapedAllSplit(s[..i], [s[i]]);
    assert EscapedAll([s[i]]) == Escaped(s[i]) + EscapedAll([]);
    assert s == s[..i + 1] + s[i + 1..];
    EscapedAllSplit(s[..i + 1], s[i + 1..]);
  }

  class PrintBuffer {
    var buffer: array<char>
    var offset: nat
    var depth: nat
    const noalloc: bool
    const format: bool

    constructor (size: nat, noalloc: bool, format: bool)
      ensures fresh(buffer) && buffer.Length == size && offset == 0 && depth == 0
      ensures this.noalloc == noalloc && this.format == format
    {
      buffer := new char[size](_ => NUL);
      offset, depth := 0, 0;
      this.noalloc, this.format := noalloc, format;
    }

    constructor Over(buffer: array<char>, format: bool)
      ensures this.buffer == buffer && offset == 0 && depth == 0
      ensures noalloc && this.format == format
    {
      this.buffer := buffer;
      offset, depth := 0, 0;
      noalloc, this.format := true, format;
    }

    /** Everything up to the offset is `text`. */
    ghost predicate Counted(text: string)
      reads this, buffer
    {
      offset == |text| && offset <= buffer.Length <= INT_MAX && buffer[..offset] == text
    }

    /** `text` and a NUL are in the buffer; the offset is somewhere inside. */
    ghost predicate Written(text: string)
      reads this, buffer
    {
      offset <= |text| < buffer.Length <= INT_MAX && buffer[..|text|] == text && buffer[|text|] == NUL
    }

    /** The size the buffer can have. */
    ghost function Limit(): nat
      reads this
    {
      if noalloc then buffer.Length else INT_MAX
    }

    /** Room for everything up to `text` and two bytes more can be had. */
    ghost predicate Roomy(text: string)
      reads this, buffer
    {
      offset < buffer.Length && |text| + 2 <= Limit()
    }

    /** ensure: `needed` more bytes behind the offset. */
    method Ensure(needed: nat, ghost text: string) returns (ok: bool)
      requires Counted(text)
      modifies this`buffer
      ensures buffer == old(buffer) || (!noalloc && fresh(buffer))
      ensures Counted(text) && buffer.Length >= old(buffer.Length)
      ensures ok ==> offset + needed < buffer.Length
      ensures ok ==> buffer.Length == var total := needed + offset + 1;
        if total <= old(buffer.Length) then old(buffer.Length) else if total > INT_MAX / 2 then INT_MAX else 2 * total
      ensures offset < old(buffer.Length) && offset + needed + 1 <= old(Limit()) ==> ok
    {
      if buffer.Length > 0 && offset >= buffer.Length {
        return false;
      }
      if needed > INT_MAX {
        return false;
      }
      var total := needed + offset + 1;
      if total <= buffer.Length {
        return true;
      }
      if noalloc {
        return false;
      }
      var newsize;
      if total > INT_MAX / 2 {
        if total <= INT_MAX {
          newsize := INT_MAX;
        } else {
          return false;
        }
      } else {
        newsize := total * 2;
      }
      var bigger := new char[newsize](_ => NUL);
      forall i | 0 <= i < buffer.Length {
        bigger[i] := buffer[i];
      }
      buffer := bigger;
      ok := true;
    }

    /** Writes `s` at `at`, without a NUL. */
    method Put(at: nat, s: string)
      requires at + |s| <= buffer.Length
      modifies buffer
      ensures buffer[..at + |s|] == old(buffer[..at]) + s
    {
      forall i | 0 <= i < |s| {
        buffer[at + i] := s[i];
      }
    }

    /** strcpy: `s` and a NUL behind the offset. */
    method Strcpy(s: string, ghost text: string)
      requires Counted(text) && offset + |s| < buffer.Length
      modifies buffer
      ensures Written(text + s)
    {
      Put(offset, s);
      buffer[offset + |s|] := NUL;
    }

    /** update_offset: from somewhere in `x`, the offset moves to the NUL behind it. */
    method UpdateOffset(ghost text: string, ghost x: string)
      requires Written(text + x) && |text| <= offset && IsCString(x)
      modifies this`offset
      ensures Counted(text + x) && offset < buffer.Length
    {
      ghost var whole := text + x;
      assert forall i | |text| <= i < |whole| :: buffer[i] == buffer[..|whole|][i] == whole[i] == x[i - |text|];
      while buffer[offset] != NUL
        invariant |text| <= offset <= |whole|
        decreases |whole| - offset
      {
        offset := offset + 1;
      }
    }

    // -------------------------------------------------------------- print_string_ptr

    /** The bytes escaping adds. */
    static method CountEscapes(input: string) returns (extra: nat)
      ensures |input| + extra == |EscapedAll(input)|
    {
      extra := 0;
      for i := 0 to |input|
        invariant i + extra == |EscapedAll(input[..i])|
      {
        EscapedNext(input, i);
        if ShortEscape(input[i]) != NUL {
          extra := extra + 1;
        } else if input[i] as int < 32 {
          extra := extra + 5;
        }
      }
      assert input[..|input|] == input;
    }

    /** One byte; sprintf puts a NUL behind the four digits, which the next byte overwrites. */
    method PutEscaped(at: nat, c: char) returns (next: nat)
      requires at + |Escaped(c)| < buffer.Length
      modifies buffer
      ensures next == at + |Escaped(c)| && buffer[..next] == old(buffer[..at]) + Escaped(c)
    {
      if c as int > 31 && c != '\"' && c != '\\' {
        Put(at, [c]);
        next := at + 1;
      } else if ShortEscape(c) != NUL {
        Put(at, ['\\', ShortEscape(c)]);
        next := at + 2;
      } else {
        Put(at, ['\\', 'u', '0', '0', HexDigit(c as int / 16), HexDigit(c as int % 16)]);
        next := at + 6;
        buffer[next] := NUL;
      }
    }

    method PrintString(input: string, ghost text: string) returns (ok: bool)
      requires Counted(text) && IsCString(input)
      modifies this`buffer, buffer
      ensures buffer == old(buffer) || (!noalloc && fresh(buffer))
      ensures ok ==> Written(text + Quoted(input)) && offset == old(offset)
      ensures ok ==> |text + Quoted(input)| + 2 <= buffer.Length
      ensures old(Roomy(text + Quoted(input))) ==> ok
    {
      hide EscapedAll;
      var extra := CountEscapes(input);
      var outputLength := |input| + extra;
      ok := Ensure(outputLength + 3, text);
      if !ok {
        return;
      }
      PutQuoted(input, extra, text);
    }

    method PutQuoted(input: string, extra: nat, ghost text: string)
      requires Counted(text) && |input| + extra == |EscapedAll(input)| && offset + |input| + extra + 3 < buffer.Length
      modifies buffer
      ensures Written(text + Quoted(input))
    {
      hide EscapedAll;
      Put(offset, "\"");
      if extra == 0 {
        NoEscapes(input);
        Put(offset + 1, input);
      } else {
        PutAll(offset + 1, input);
      }
      Put(offset + 1 + |input| + extra, "\"");
      assert buffer[..offset + |input| + extra + 2] == text + "\"" + EscapedAll(input) + "\"";
      assert text + "\"" + EscapedAll(input) + "\"" == text + Quoted(input);
      buffer[offset + |input| + extra + 2] := NUL;
    }

    static lemma EmptyEscapes()
      ensures EscapedAll([]) == ""
    {
    }

    lemma NoEscapes(s: string)
      requires |EscapedAll(s)| == |s|
      ensures EscapedAll(s) == s
    {
      EscapesGrow(s);
    }

    lemma {:induction false} EscapesGrow(s: string)
      ensures |EscapedAll(s)| >= |s| && (|EscapedAll(s)| == |s| ==> EscapedAll(s) == s)
      decreases |s|
    {
      if s != [] { EscapesGrow(s[1..]); }
    }

    method PutAll(at: nat, input: string)
      requires at + |EscapedAll(input)| < buffer.Length
      modifies buffer
      ensures buffer[..at + |EscapedAll(input)|] == old(buffer[..at]) + EscapedAll(input)
    {
      hide EscapedAll, Escaped;
      var pointer := at;
      assert EscapedAll(input[..0]) == "" by { EmptyEscapes(); }
      for i := 0 to |input|
        invariant pointer == at + |EscapedAll(input[..i])| && |EscapedAll(input[..i])| <= |EscapedAll(input)|
        invariant buffer[..pointer] == old(buffer[..at]) + EscapedAll(input[..i])
      {
        EscapedNext(input, i);
        pointer := PutEscaped(pointer, input[i]);
      }
      assert input[..|input|] == input;
    }

    // -------------------------------------------------------------- print_value

    method PrintWord(word: string, ghost text: string) returns (ok: bool)
      requires Counted(text)
      modifies this`buffer, buffer
      ensures buffer == old(buffer) || (!noalloc && fresh(buffer))
      ensures ok ==> Written(text + word) && offset == old(offset)
      ensures ok ==> |text + word| + 2 <= buffer.Length
      ensures old(Roomy(text + word)) ==> ok
    {
      ok := Ensure(|word| + 1, text);
      if ok {
        Strcpy(word, text);
      }
    }

    method PrintNumber(n: int, ghost text: string) returns (ok: bool)
      requires Counted(text) && INT_MIN <= n <= INT_MAX
      modifies this`buffer, this`offset, buffer
      ensures buffer == old(buffer) || (!noalloc && fresh(buffer))
      ensures ok ==> Written(text + Dec(n)) && offset >= old(offset)
      ensures ok ==> |text + Dec(n)| + 2 <= buffer.Length
      ensures old(Roomy(text + Dec(n))) ==> ok
    {
      hide Dec;
      var numberBuffer := Dec(n);
      DecLength(n);
      if |numberBuffer| > 25 {
        return false;
      }
      ok := Ensure(|numberBuffer| + 1, text);
      if !ok {
        return;
      }
      Strcpy(numberBuffer, text);
      offset := offset + |numberBuffer|;
    }

    /** print_value, of an item that says `v`. */
    method PrintValue(item: Item, ghost t: Tree, ghost v: Value, ghost key: Option<string>, ghost own: set<Item>,
                      ghost text: string) returns (ok: bool)
      requires Counted(text) && Plain(v) && Says(item, t, v, key, own)
      modifies this`buffer, this`offset, this`depth, buffer
      ensures buffer == old(buffer) || (!noalloc && fresh(buffer))
      ensures ok ==> Written(text + Text(v, old(depth), format)) && depth == old(depth) && offset >= old(offset)
      ensures ok ==> |text + Text(v, old(depth), format)| + 2 <= buffer.Length
      ensures old(Roomy(text + Text(v, depth, format))) ==> ok
      decreases v, 1
    {
      hide ItemsText, MembersText, Quoted, Dec, Says, SayBelow, ItemRoses, MemberRoses, IsCString;
      SaysFields(item, t, v, key, own);
      if item.load.kind == NULL {
        ok := PrintWord("null", text);
      } else if item.load.kind == FALSE {
        ok := PrintWord("false", text);
      } else if item.load.kind == TRUE {
        ok := PrintWord("true", text);
      } else if item.load.kind == NUMBER {
        ok := PrintNumber(item.load.number.Floor, text);
      } else if item.load.kind == STRING {
        ok := PrintString(item.load.text.value, text);
      } else if item.load.kind == ARRAY {
        ok := PrintArray(item, t.kids, v.items, own, text);
      } else {
        ok := PrintObject(item, t.kids, v.members, own, text);
      }
    }

    /** Bytes that are counted at once; some callers also put a NUL behind them. */
    method PutCounted(s: string, needed: nat, terminate: bool, ghost text: string) returns (ok: bool)
      requires Counted(text) && |s| <= needed && 0 < needed
      modifies this`buffer, this`offset, buffer
      ensures buffer == old(buffer) || (!noalloc && fresh(buffer))
      ensures ok ==> Counted(text + s) && offset < buffer.Length
      ensures old(offset < buffer.Length && offset + needed + 1 <= Limit()) ==> ok
    {
      ok := Ensure(needed, text);
      if ok {
        Put(offset, s);
        if terminate {
          buffer[offset + |s|] := NUL;
        }
        offset := offset + |s|;
      }
    }

    method PrintArray(item: Item, ghost ts: seq<Tree>, ghost items: seq<Value>, ghost own: set<Item>, ghost text: string)
      returns (ok: bool)
      requires Counted(text) && PlainItems(items) && SayBelow(item, ts, ItemRoses(items), own)
      modifies this`buffer, this`offset, this`depth, buffer
      ensures buffer == old(buffer) || (!noalloc && fresh(buffer))
      ensures ok ==> Written(text + ("[" + ItemsText(items, old(depth) + 1, format) + "]"))
      ensures ok ==> depth == old(depth) && offset >= old(offset)
      ensures ok ==> |text + ("[" + ItemsText(items, old(depth) + 1, format) + "]")| + 2 <= buffer.Length
      ensures old(Roomy(text + ("[" + ItemsText(items, depth + 1, format) + "]"))) ==> ok
      decreases items, 1
    {
      hide ItemsText, Text, PlainItems, SayBelow, ItemRoses;
      ok := PutCounted("[", 1, false, text);
      if !ok {
        return;
      }
      depth := depth + 1;
      ok := PrintItems(item, ts, items, own, text + "[");
      if !ok {
        return;
      }
      ghost var body := ItemsText(items, depth, format);
      ok := PrintWord("]", text + "[" + body);
      assert text + "[" + body + "]" == text + ("[" + body + "]");
      depth := depth - 1;
    }

    /** What stands behind an element. */
    function Separator(more: bool): string {
      if !more then "" else if format then ", " else ","
    }

    lemma ItemsNext(items: seq<Value>, i: nat, depth: nat, done: string)
      requires i < |items| && PlainItems(items[i..])
      ensures Plain(items[i]) && PlainItems(items[i + 1..])
      ensures done + ItemsText(items[i..], depth, format)
        == done + Text(items[i], depth, format) + Separator(i + 1 < |items|) + ItemsText(items[i + 1..], depth, format)
    {
      hide Text, Plain;
      assert items[i..][0] == items[i] && items[i..][1..] == items[i + 1..];
      Regroup(done, Text(items[i], depth, format), Separator(i + 1 < |items|), ItemsText(items[i + 1..], depth, format));
    }

    lemma Regroup(a: string, x: string, sep: string, rest: string)
      ensures a + (x + (sep + rest)) == a + x + sep + rest && a + x + "" == a + x
      ensures x + ("" + "") == x
    {
    }

    method PrintSeparator(more: bool, ghost text: string) returns (ok: bool)
      requires Counted(text) && offset < buffer.Length
      modifies this`buffer, this`offset, buffer
      ensures buffer == old(buffer) || (!noalloc && fresh(buffer))
      ensures ok ==> Counted(text + Separator(more)) && offset < buffer.Length
      ensures old(|text + Separator(more)| + 2 <= Limit()) ==> ok
    {
      ok := true;
      if more {
        ok := PutCounted(Separator(true), |Separator(true)| + 1, true, text);
      } else {
        assert text + "" == text;
      }
    }

    /** The loop over the children. */
    method PrintItems(item: Item, ghost ts: seq<Tree>, ghost items: seq<Value>, ghost own: set<Item>, ghost text: string)
      returns (ok: bool)
      requires Counted(text) && PlainItems(items) && offset < buffer.Length && SayBelow(item, ts, ItemRoses(items), own)
      modifies this`buffer, this`offset, this`depth, buffer
      ensures buffer == old(buffer) || (!noalloc && fresh(buffer))
      ensures ok ==> Counted(text + ItemsText(items, old(depth), format)) && offset < buffer.Length
      ensures ok ==> depth == old(depth) && offset >= old(offset)
      ensures old(|text + ItemsText(items, depth, format)| + 3 <= Limit()) ==> ok
      decreases items, 0
    {
      hide Text, ItemsText, PlainItems, IsCString, SayBelow, ItemRoses, Says, Separator;
      ghost var done := text;
      ghost var all := text + ItemsText(items, depth, format);
      ok := true;
      assert items[0..] == items;
      SayFirst(item, ts, ItemRoses(items), own);
      ItemRosesLength(items);
      var current := item.child;
      ghost var i := 0;
      while current != null
        invariant buffer == old(buffer) || (!noalloc && fresh(buffer))
        invariant Counted(done) && |text| <= |done| && offset < buffer.Length && depth == old(depth) && ok
        invariant i <= |items| && current == Get(Roots(ts), i) && SayBelow(item, ts, ItemRoses(items), own)
        invariant PlainItems(items[i..]) && done + ItemsText(items[i..], depth, format) == all
        decreases |items| - i
      {
        ItemsNext(items, i, depth, done);
        ItemRosesAt(items, i);
        SayKid(item, ts, ItemRoses(items), own, i, items[i], None);
        ghost var x := Text(items[i], depth, format);
        TextClean(items[i], depth, format);
        ok := PrintValue(current, ts[i], items[i], None, own, done);
        if !ok {
          return;
        }
        UpdateOffset(done, x);
        done := done + x;
        var more := current.next != null;
        ok := PrintSeparator(more, done);
        if !ok {
          return;
        }
        done := done + Separator(more);
        i := i + 1;
        current := current.next;
      }
      NoItems(depth);
      assert items[|items|..] == [] && done + "" == done;
    }

    lemma NoItems(depth: nat)
      ensures ItemsText([], depth, format) == ""
    {
    }

    method PrintObject(item: Item, ghost ts: seq<Tree>, ghost members: seq<Member>, ghost own: set<Item>, ghost text: string)
      returns (ok: bool)
      requires Counted(text) && PlainMembers(members) && SayBelow(item, ts, MemberRoses(members), own)
      modifies this`buffer, this`offset, this`depth, buffer
      ensures buffer == old(buffer) || (!noalloc && fresh(buffer))
      ensures ok ==> Written(text + ObjectText(members, old(depth)))
      ensures ok ==> depth == old(depth) && offset >= old(offset)
      ensures ok ==> |text + ObjectText(members, old(depth))| + 2 <= buffer.Length
      ensures old(Roomy(text + ObjectText(members, depth))) ==> ok
      decreases members, 2
    {
      hide MembersText, Text, PlainMembers, Indent, SayBelow, MemberRoses;
      ghost var body, close := MembersText(members, depth + 1, format), Indent(depth, format) + "}";
      ghost var open := "{" + NewLine(format);
      assert text + ObjectText(members, depth) == text + open + body + close;
      ok := PutCounted("{" + NewLine(format), if format then 3 else 2, false, text);
      if !ok {
        return;
      }
      depth := depth + 1;
      ok := PrintMembers(item, ts, members, own, text + open);
      if !ok {
        return;
      }
      ok := PrintWord(Indent(depth - 1, format) + "}", text + open + body);
      depth := depth - 1;
    }

    ghost function ObjectText(members: seq<Member>, depth: nat): string
      requires PlainMembers(members)
    {
      "{" + (NewLine(format) + MembersText(members, depth + 1, format) + (Indent(depth, format) + "}"))
    }

    lemma MembersNext(members: seq<Member>, i: nat, depth: nat, done: string)
      requires i < |members| && PlainMembers(members[i..])
      ensures IsCString(members[i].key) && Plain(members[i].value) && PlainMembers(members[i + 1..])
      ensures done + MembersText(members[i..], depth, format)
        == done + MemberText(members[i], depth, format) + ((if i + 1 < |members| then "," else "") + NewLine(format))
           + MembersText(members[i + 1..], depth, format)
    {
      hide Text, MemberText, Plain, IsCString, NewLine;
      assert members[i..][0] == members[i] && members[i..][1..] == members[i + 1..];
      Reline(done, MemberText(members[i], depth, format), if i + 1 < |members| then "," else "", NewLine(format),
        MembersText(members[i + 1..], depth, format));
    }

    lemma Reline(a: string, m: string, sep: string, nl: string, rest: string)
      ensures a + (m + sep + nl + rest) == a + m + (sep + nl) + rest
    {
    }

    lemma NoMembers(depth: nat)
      ensures MembersText([], depth, format) == ""
    {
    }

    /** The loop over the children. */
    method PrintMembers(item: Item, ghost ts: seq<Tree>, ghost members: seq<Member>, ghost own: set<Item>, ghost text: string)
      returns (ok: bool)
      requires Counted(text) && PlainMembers(members) && offset < buffer.Length && depth > 0
      requires SayBelow(item, ts, MemberRoses(members), own)
      modifies this`buffer, this`offset, this`depth, buffer
      ensures buffer == old(buffer) || (!noalloc && fresh(buffer))
      ensures ok ==> Counted(text + MembersText(members, old(depth), format)) && offset < buffer.Length
      ensures ok ==> depth == old(depth) && offset >= old(offset)
      ensures old(|text + MembersText(members, depth, format)| + 3 <= Limit()) ==> ok
      decreases members, 1
    {
      hide Text, MemberText, MembersText, PlainMembers, IsCString, SayBelow, MemberRoses, Says;
      ghost var done := text;
      ghost var all := text + MembersText(members, depth, format);
      ok := true;
      assert members[0..] == members;
      SayFirst(item, ts, MemberRoses(members), own);
      MemberRosesLength(members);
      var current := item.child;
      ghost var i := 0;
      while current != null
        invariant buffer == old(buffer) || (!noalloc && fresh(buffer))
        invariant Counted(done) && |text| <= |done| && offset < buffer.Length && depth == old(depth) && ok
        invariant i <= |members| && current == Get(Roots(ts), i) && SayBelow(item, ts, MemberRoses(members), own)
        invariant PlainMembers(members[i..]) && done + MembersText(members[i..], depth, format) == all
        decreases |members| - i
      {
        MembersNext(members, i, depth, done);
        MemberRosesAt(members, i);
        SayKid(item, ts, MemberRoses(members), own, i, members[i].value, Some(members[i].key));
        ghost var x := MemberText(members[i], depth, format);
        var separator := (if current.next != null then "," else "") + NewLine(format);
        ok := PrintMember(current, ts[i], members[i], own, done);
        if !ok {
          return;
        }
        done := done + x;
        ok := PutCounted(separator, |separator| + 1, true, done);
        if !ok {
          return;
        }
        done := done + separator;
        i := i + 1;
        current := current.next;
      }
      NoMembers(depth);
      assert members[|members|..] == [] && done + "" == done;
    }

    /** A key and a colon. */
    method PrintKey(key: string, ghost text: string) returns (ok: bool)
      requires Counted(text) && IsCString(key) && offset < buffer.Length && depth > 0
      modifies this`buffer, this`offset, buffer
      ensures buffer == old(buffer) || (!noalloc && fresh(buffer))
      ensures ok ==> Counted(text + (Indent(depth, format) + Quoted(key) + Colon(format))) && offset < buffer.Length
      ensures ok ==> offset >= old(offset)
      ensures old(|text + (Indent(depth, format) + Quoted(key) + Colon(format))| + 2 <= Limit()) ==> ok
    {
      hide Quoted, EscapedAll, IsCString;
      ghost var i, q, c := Indent(depth, format), Quoted(key), Colon(format);
      assert text + (i + q + c) == text + i + q + c;
      assert text + "" == text;
      if format {
        ok := PutCounted(Tabs(depth), depth, false, text);
        if !ok {
          return;
        }
      }
      ok := PrintString(key, text + i);
      if !ok {
        return;
      }
      QuotedClean(key);
      UpdateOffset(text + i, q);
      ok := PutCounted(Colon(format), |Colon(format)|, false, text + i + q);
    }

    /** A key, a colon and a value. */
    method PrintMember(item: Item, ghost t: Tree, ghost m: Member, ghost own: set<Item>, ghost text: string) returns (ok: bool)
      requires Counted(text) && IsCString(m.key) && Plain(m.value) && offset < buffer.Length && depth > 0
      requires Says(item, t, m.value, Some(m.key), own)
      modifies this`buffer, this`offset, this`depth, buffer
      ensures buffer == old(buffer) || (!noalloc && fresh(buffer))
      ensures ok ==> Counted(text + MemberText(m, old(depth), format)) && offset < buffer.Length
      ensures ok ==> depth == old(depth) && offset >= old(offset)
      ensures old(|text + MemberText(m, depth, format)| + 2 <= Limit()) ==> ok
      decreases m.value, 2
    {
      hide Text, Quoted, Indent, Colon, IsCString, Says, SayBelow, Inside;
      SaysFields(item, t, m.value, Some(m.key), own);
      ghost var k, x := Indent(depth, format) + Quoted(m.key) + Colon(format), Text(m.value, depth, format);
      assert text + MemberText(m, depth, format) == text + k + x;
      ok := PrintKey(item.load.key.value, text);
      if !ok {
        return;
      }
      ok := PrintValue(item, t, m.value, Some(m.key), own, text + k);
      if !ok {
        return;
      }
      TextClean(m.value, depth, format);
      UpdateOffset(text + k, x);
    }
  }

  /** cJSON_Print and cJSON_PrintUnformatted: a buffer of 256 bytes that grows, then the
      text up to the NUL. */
  method Print(item: Item, ghost t: Tree, ghost v: Value, ghost key: Option<string>, ghost own: set<Item>, format: bool)
    returns (ok: bool, printed: string)
    requires Plain(v) && Says(item, t, v, key, own)
    ensures ok <==> |Text(v, 0, format)| + 2 <= INT_MAX
    ensures ok ==> printed == Text(v, 0, format)
  {
    hide Text, IsCString, Says;
    var p := new PrintBuffer(256, false, format);
    printed := "";
    ghost var x := Text(v, 0, format);
    assert "" + x == x;
    ok := p.PrintValue(item, t, v, key, own, "");
    if ok {
      TextClean(v, 0, format);
      p.UpdateOffset("", x);
      printed := p.buffer[..p.offset];
    }
  }

  /** cJSON_PrintPreallocated: never beyond the caller's buffer, and with two bytes to spare. */
  method PrintPreallocated(item: Item, ghost t: Tree, ghost v: Value, ghost key: Option<string>, ghost own: set<Item>,
                           buffer: array<char>, format: bool) returns (ok: bool)
    requires Plain(v) && Says(item, t, v, key, own) && buffer.Length <= INT_MAX
    modifies buffer
    ensures ok <==> |Text(v, 0, format)| + 2 <= buffer.Length
    ensures ok ==> CStr(buffer[..]) == Text(v, 0, format)
  {
    hide Text, IsCString, Says;
    var p := new PrintBuffer.Over(buffer, format);
    ghost var x := Text(v, 0, format);
    assert "" + x == x;
    ok := p.PrintValue(item, t, v, key, own, "");
    if ok {
      TextClean(v, 0, format);
      CStrStops(x, buffer[..]);
    }
  }

  lemma {:induction false} CStrStops(x: string, b: string)
    requires IsCString(x) && |x| < |b| && b[..|x|] == x && b[|x|] == NUL
    ensures CStr(b) == x
    decreases |x|
  {
    if x != [] {
      assert b[0] == b[..|x|][0] == x[0];
      assert b[1..][..|x| - 1] == x[1..];
      CStrStops(x[1..], b[1..]);
      assert x == [x[0]] + x[1..];
    }
  }

  /** Printing and parsing back, with the code that does it: another tree of items that says the
      same, or a refusal if and only if the tree is nested too deeply. */
  method PrintAndParse(item: Item, ghost t: Tree, ghost v: Value, ghost key: Option<string>, ghost own: set<Item>, format: bool)
    returns (ok: bool, parsed: Item?, ghost u: Option<Tree>, ghost made: set<Item>)
    requires Plain(v) && Says(item, t, v, key, own)
    ensures ok <==> |Text(v, 0, format)| + 2 <= INT_MAX
    ensures fresh(made) && (ok ==> (parsed != null <==> Depth(v) <= NESTING_LIMIT))
    ensures ok && parsed != null ==> StandsFor(parsed, u, v, None, made)
  {
    hide Text, Says, StandsFor;
    var printed, result;
    ok, printed := Print(item, t, v, key, own, format);
    result, parsed, u, made := ParseItem(printed);
    RoundTripIff(v, format);
  }
}
