/**
 The INI pipeline: the line reader of src/vmod_cfg_file.c feeding the parser of src/ini.c, built
 with the flags of src/Makefile.am (continuation lines, a byte order mark, inline comments after
 white space and a semicolon, a stop at the first error).
*/
module Ini {
  import opened CString

  // ---------------------------------------------------------------- lines

  predicate IsNewline(c: char) {
    c == '\n' || c == '\r'
  }

  /** The length of the line at the start of `t`, looking at `room` characters. */
  function LineLen(t: string, room: nat): (n: nat)
    ensures n <= room && n <= |t|
    ensures forall i :: 0 <= i < n ==> !IsNewline(t[i])
    ensures n < room && n < |t| ==> IsNewline(t[n])
    decreases room
  {
    if room == 0 || t == "" || IsNewline(t[0]) then 0 else 1 + LineLen(t[1..], room - 1)
  }

  /** The text behind a line of `n` characters and the character that ended it. */
  function Later(t: string, n: nat): string {
    if n < |t| then t[n + 1..] else ""
  }

  /** file_ini_stream_reader: one line that fits a buffer of `size`, and the text behind it, where a
      newline that repeats the one before is skipped. */
  function ReadLine(t: string, size: nat): (string, string)
    requires size > 0
  {
    var n, rest := LineLen(t, size - 1), Later(t, LineLen(t, size - 1));
    (t[..n], if n < |t| && n < size - 1 && rest != "" && rest[0] == t[n] then rest[1..] else rest)
  }

  /** A line that does not fit is cut to what fits, and the byte behind that is lost. */
  lemma LongLine(t: string, size: nat)
    requires 1 < size <= |t| && forall i :: 0 <= i < size - 1 ==> !IsNewline(t[i])
    ensures ReadLine(t, size) == (t[..size - 1], t[size..])
  {
    assert LineLen(t, size - 1) == size - 1;
  }

  /** The lines the reader gives. */
  function Lines(t: string, size: nat): seq<string>
    requires size > 1
    decreases |t|
  {
    if t == "" then [] else [ReadLine(t, size).0] + Lines(ReadLine(t, size).1, size)
  }

  /** The lines of a text: every carriage return and every line feed ends one. */
  function Split(t: string): seq<string>
    decreases |t|
  {
    if t == "" then [] else [t[..LineLen(t, |t|)]] + Split(Later(t, LineLen(t, |t|)))
  }

  // ---------------------------------------------------------------- what a line means

  /** The section, and the name that a continuation line adds to; none after a section. */
  datatype Place = Place(section: string, prev: string)

  datatype Item = Item(section: string, name: string, value: string)

  datatype Effect = Nothing | Enter(section: string) | Give(item: Item) | Wrong

  const MAX_NAME := 50

  /** ini_strncpy0 into 50 bytes. */
  function Clip(s: string): string {
    if |s| < MAX_NAME then s else s[..MAX_NAME - 1]
  }

  function RTrim(s: string): string {
    s[..TrimEnd(s, 0, |s|)]
  }

  function LTrim(s: string): string {
    s[SkipSpace(s, 0)..]
  }

  predicate HasMark(line: string) {
    |line| >= 3 && line[0] as int == 0xEF && line[1] as int == 0xBB && line[2] as int == 0xBF
  }

  /** ini_find_chars_or_comment: the first of `chars`, or a semicolon behind white space. */
  function Find(s: string, i: nat, chars: string, space: bool): (e: nat)
    requires i <= |s|
    ensures i <= e <= |s|
    decreases |s| - i
  {
    if i == |s| || s[i] in chars || (space && s[i] == ';') then i else Find(s, i + 1, chars, IsSpace(s[i]))
  }

  function Uncomment(s: string): string {
    s[..Find(s, 0, "", false)]
  }

  function ParseLine(line: string, first: bool, at: Place): Effect {
    var body := if first && HasMark(line) then line[3..] else line;
    var s := LTrim(RTrim(body));
    var indented := body != line || (s != "" && SkipSpace(RTrim(body), 0) > 0);
    if s == "" || s[0] == ';' || s[0] == '#' then Nothing
    else if at.prev != "" && indented then Give(Item(at.section, at.prev, RTrim(Uncomment(s))))
    else if s[0] == '[' then ParseSection(s)
    else ParsePair(s, at)
  }

  function ParseSection(s: string): Effect
    requires s != ""
  {
    var e := Find(s[1..], 0, "]", false);
    if e < |s| - 1 && s[1..][e] == ']' then Enter(s[1..][..e]) else Wrong
  }

  function ParsePair(s: string, at: Place): Effect {
    var e := Find(s, 0, "=:", false);
    if e < |s| && s[e] in "=:"
    then Give(Item(at.section, RTrim(s[..e]), RTrim(LTrim(Uncomment(s[e + 1..])))))
    else Wrong
  }

  /** Where the next line is, after one with this effect. */
  function Moved(at: Place, e: Effect): Place {
    match e
    case Enter(section) => Place(Clip(section), "")
    case Give(item) => at.(prev := Clip(item.name))
    case _ => at
  }

  /** A section takes the first 49 bytes of its name and no name to continue; a pair is continued under
      the first 49 bytes of its name; other lines change nothing. */
  lemma MovesOn(at: Place, section: string, item: Item)
    ensures Moved(at, Enter(section)) == Place(if |section| < 50 then section else section[..49], "")
    ensures Moved(at, Give(item)) == Place(at.section, if |item.name| < 50 then item.name else item.name[..49])
    ensures Moved(at, Nothing) == at
  {
  }

  const TOP := Place("", "")

  // ---------------------------------------------------------------- what a text means

  /** How names and values are put together. */
  datatype Glue = Glue(name: string, value: string)

  /** The name of a variable: the section, if there is one, and the name. */
  function FullName(item: Item, glue: Glue): string {
    if item.section == "" then item.name else item.section + glue.name + item.name
  }

  /** A value after one more: the delimiter goes between them unless there is nothing before. */
  function Appended(a: string, b: string, glue: Glue): string {
    if a == "" then b else a + glue.value + b
  }

  type Table = map<string, string>

  function Put(m: Table, name: string, value: string, glue: Glue): Table {
    m[name := if name in m then Appended(m[name], value, glue) else value]
  }

  /** `Aborted` stands for a failed assertion of the program: a variable without a name. */
  datatype Result = Done(m: Table) | Rejected | Aborted

  /** The table that lines make of a table, up to the first line that is wrong. */
  function Process(lines: seq<string>, first: bool, at: Place, m: Table, glue: Glue): Result
    decreases |lines|
  {
    if lines == [] then Done(m)
    else
      var e := ParseLine(lines[0], first, at);
      if e == Wrong then Rejected
      else if e.Give? && FullName(e.item, glue) == "" then Aborted
      else Process(lines[1..], false, Moved(at, e), Given(m, e, glue), glue)
  }

  function Given(m: Table, e: Effect, glue: Glue): Table {
    if e.Give? then Put(m, FullName(e.item, glue), e.item.value, glue) else m
  }

  // ---------------------------------------------------------------- the reader does not matter

  /** Lines that fit the buffer. */
  predicate Fits(lines: seq<string>, size: nat) {
    forall l <- lines :: |l| < size
  }

  lemma BlankDoesNothing(first: bool, at: Place)
    ensures ParseLine("", first, at) == Nothing
  {
  }

  lemma {:induction false} LineLenLarger(t: string, room: nat, more: nat)
    requires room <= more && LineLen(t, more) <= room
    ensures LineLen(t, room) == LineLen(t, more)
    decreases room
  {
    if room > 0 && t != "" && !IsNewline(t[0]) {
      LineLenLarger(t[1..], room - 1, more - 1);
    }
  }

  lemma SplitFirst(t: string)
    requires t != ""
    ensures var n := LineLen(t, |t|);
      Split(t) == [t[..n]] + Split(Later(t, n)) && t[..n] in Split(t) && |t[..n]| == n
  {
  }

  lemma BlankLine(t: string)
    requires t != "" && IsNewline(t[0])
    ensures Split(t) == [""] + Split(t[1..])
  {
    assert LineLen(t, |t|) == 0;
  }

  lemma BlankFirst(lines: seq<string>, at: Place, m: Table, glue: Glue)
    ensures Process([""] + lines, false, at, m, glue) == Process(lines, false, at, m, glue)
  {
    hide ParseLine;
    BlankDoesNothing(false, at);
    assert ([""] + lines)[1..] == lines;
  }

  /** The reader reads the first plain line, if it fits, and may skip a blank one behind it. */
  lemma FirstLine(t: string, size: nat)
    requires t != "" && size > 1 && LineLen(t, |t|) < size
    ensures var n, (line, rest) := LineLen(t, |t|), ReadLine(t, size);
      var plain := Later(t, n);
      && line == t[..n]
      && (rest == plain || (plain != "" && IsNewline(plain[0]) && rest == plain[1..]))
  {
    hide IsNewline;
    if size - 1 <= |t| {
      LineLenLarger(t, size - 1, |t|);
    } else {
      LineLenLarger(t, |t|, size - 1);
    }
  }

  lemma FitsRest(line: string, rest: seq<string>, size: nat)
    requires Fits([line] + rest, size)
    ensures Fits(rest, size)
  {
    assert forall l <- rest :: l in [line] + rest;
  }

  /** Skipping repeated newlines changes nothing: the table is that of the plain lines. */
  lemma {:induction false} ReaderIsSplit(t: string, size: nat, first: bool, at: Place, m: Table, glue: Glue)
    requires size > 1 && Fits(Split(t), size)
    ensures Process(Lines(t, size), first, at, m, glue) == Process(Split(t), first, at, m, glue)
    decreases |t|
  {
    hide ParseLine, FullName, Put, LineLen, Later, ReadLine, Split, Fits;
    if t == "" {
      NoLines(size);
    } else {
      var n := LineLen(t, |t|);
      var plain := Later(t, n);
      SplitFirst(t);
      FitsFirst(Split(t), size);
      FirstLine(t, size);
      FitsRest(t[..n], Split(plain), size);
      LinesFirst(t, size);
      var (line, rest) := ReadLine(t, size);
      var e := ParseLine(line, first, at);
      if rest != plain {
        BlankLine(plain);
        FitsRest("", Split(rest), size);
        BlankFirst(Split(rest), Moved(at, e), Given(m, e, glue), glue);
      }
      ReaderIsSplit(rest, size, false, Moved(at, e), Given(m, e, glue), glue);
      ProcessFirst(line, Lines(rest, size), first, at, m, glue);
      ProcessFirst(line, Split(plain), first, at, m, glue);
    }
  }

  lemma FitsFirst(lines: seq<string>, size: nat)
    requires Fits(lines, size)
    ensures forall l <- lines :: |l| < size
  {
  }

  lemma NoLines(size: nat)
    requires size > 1
    ensures Lines("", size) == [] && Split("") == []
  {
  }

  lemma LinesFirst(t: string, size: nat)
    requires size > 1 && t != ""
    ensures Lines(t, size) == [ReadLine(t, size).0] + Lines(ReadLine(t, size).1, size)
    ensures |ReadLine(t, size).1| < |t|
  {
  }

  lemma ProcessFirst(line: string, rest: seq<string>, first: bool, at: Place, m: Table, glue: Glue)
    ensures var e := ParseLine(line, first, at);
      Process([line] + rest, first, at, m, glue)
        == if e == Wrong then Rejected
           else if e.Give? && FullName(e.item, glue) == "" then Aborted
           else Process(rest, false, Moved(at, e), Given(m, e, glue), glue)
  {
    hide ParseLine, FullName, Put;
    assert ([line] + rest)[1..] == rest;
  }

  // ---------------------------------------------------------------- each name holds its values in order

  /** The items of lines that are all right. */
  function Items(lines: seq<string>, first: bool, at: Place): seq<Item>
    decreases |lines|
  {
    if lines == [] then []
    else
      var e := ParseLine(lines[0], first, at);
      (if e.Give? then [e.item] else []) + Items(lines[1..], false, Moved(at, e))
  }

  /** The values given to a name, in order. */
  function Values(items: seq<Item>, name: string, glue: Glue): seq<string> {
    if items == [] then []
    else (if FullName(items[0], glue) == name then [items[0].value] else []) + Values(items[1..], name, glue)
  }

  function DropBlank(values: seq<string>): seq<string> {
    if values != [] && values[0] == "" then DropBlank(values[1..]) else values
  }

  function Joined(values: seq<string>, glue: Glue): string {
    if values == [] then ""
    else if |values| == 1 then values[0]
    else values[0] + glue.value + Joined(values[1..], glue)
  }

  /** What a name holds after its values, if it held `a` before. */
  function Grown(a: string, values: seq<string>, glue: Glue): string
    decreases |values|
  {
    if values == [] then a else Grown(Appended(a, values[0], glue), values[1..], glue)
  }

  lemma {:induction false} GrownJoins(a: string, values: seq<string>, glue: Glue)
    requires a != ""
    ensures Grown(a, values, glue) == Joined([a] + values, glue)
    decreases |values|
  {
    assert ([a] + values)[1..] == values;
    if values != [] {
      var b := a + glue.value + values[0];
      GrownJoins(b, values[1..], glue);
      assert ([b] + values[1..])[1..] == values[1..];
      if |values| > 1 {
        assert b + glue.value + Joined(values[1..], glue) == a + glue.value + (values[0] + glue.value + Joined(values[1..], glue));
      }
    }
  }

  /** The delimiter goes between all values from the first one on that is not empty. */
  lemma {:induction false} GrownIsJoined(values: seq<string>, glue: Glue)
    ensures Grown("", values, glue) == Joined(DropBlank(values), glue)
    decreases |values|
  {
    if values != [] {
      if values[0] == "" {
        GrownIsJoined(values[1..], glue);
      } else {
        GrownJoins(values[0], values[1..], glue);
        assert [values[0]] + values[1..] == values;
      }
    }
  }

  function Held(m: Table, name: string): string {
    if name in m then m[name] else ""
  }

  /** The table holds exactly the names that were given, each with its values. */
  lemma {:induction false} ProcessHolds(lines: seq<string>, first: bool, at: Place, m: Table, glue: Glue, name: string)
    requires Process(lines, first, at, m, glue).Done?
    ensures var z, vs := Process(lines, first, at, m, glue).m, Values(Items(lines, first, at), name, glue);
      && (name in z <==> name in m || vs != [])
      && Held(z, name) == Grown(Held(m, name), vs, glue)
    decreases |lines|
  {
    hide ParseLine, FullName, Put, Grown, Values;
    NoValues(Held(m, name), name, glue);
    if lines != [] {
      var e := ParseLine(lines[0], first, at);
      ProcessHolds(lines[1..], false, Moved(at, e), Given(m, e, glue), glue, name);
      var rest := Items(lines[1..], false, Moved(at, e));
      if e.Give? {
        GivenHolds(m, e.item, rest, glue, name);
      } else {
        assert [] + rest == rest;
      }
    }
  }

  lemma NoValues(a: string, name: string, glue: Glue)
    ensures Values([], name, glue) == [] && Grown(a, [], glue) == a
  {
  }

  lemma GivenHolds(m: Table, item: Item, rest: seq<Item>, glue: Glue, name: string)
    ensures var n, vs := Put(m, FullName(item, glue), item.value, glue), Values([item] + rest, name, glue);
      && (name in n || Values(rest, name, glue) != [] <==> name in m || vs != [])
      && Grown(Held(n, name), Values(rest, name, glue), glue) == Grown(Held(m, name), vs, glue)
  {
    hide FullName;
    assert ([item] + rest)[1..] == rest;
    var more := Values(rest, name, glue);
    if FullName(item, glue) == name {
      assert ([item.value] + more)[1..] == more;
    } else {
      assert [] + more == more;
    }
  }

  /** After a whole text: the values of a name in order, with the delimiter only once the value is
      not empty any more. */
  lemma TextHolds(t: string, glue: Glue, name: string)
    requires Process(Split(t), true, TOP, map[], glue).Done?
    ensures var z, vs := Process(Split(t), true, TOP, map[], glue).m, Values(Items(Split(t), true, TOP), name, glue);
      && (name in z <==> vs != [])
      && (name in z ==> z[name] == Joined(DropBlank(vs), glue))
  {
    hide Process, Items, Split, Joined, DropBlank, Values;
    ProcessHolds(Split(t), true, TOP, map[], glue, name);
    GrownIsJoined(Values(Items(Split(t), true, TOP), name, glue), glue);
  }
}
