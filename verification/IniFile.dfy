/**
 The loops of the INI pipeline: the reader over its stream, the parser in its line buffer, and the
 handler that fills the table (src/vmod_cfg_file.c, src/ini.c).
*/
module IniFile {
  import opened CBuffer
  import opened CString
  import opened RbShape
  import opened RbTree
  import opened JsonText
  import opened Ini

  const MAX_LINE := 16384

  // ---------------------------------------------------------------- file_ini_stream_reader

  class Stream {
    const text: string
    var ptr: int
    var left: int

    constructor (text: string)
      ensures Valid() && Rest() == text && this.text == text
    {
      this.text, ptr, left := text, 0, |text|;
    }

    ghost predicate Valid()
      reads this
    {
      left <= 0 || (0 <= ptr && ptr + left == |text|)
    }

    ghost function Rest(): string
      requires Valid()
      reads this
    {
      if left <= 0 then "" else text[ptr..]
    }

    /** The loop that looks for the end of the line among `room` characters. */
    method Scan(room: nat) returns (idx: nat, newline: char)
      requires Valid() && left > 0 && NUL !in text
      ensures idx == LineLen(Rest(), room)
      ensures newline == if idx < |Rest()| && idx < room then Rest()[idx] else NUL
    {
      ghost var t := Rest();
      idx, newline := 0, NUL;
      while idx < room
        invariant idx <= room && idx <= left && newline == NUL
        invariant LineLen(t, room) == idx + LineLen(t[idx..], room - idx)
      {
        if idx == left {
          break;
        }
        if text[ptr + idx] == '\n' {
          newline := '\n';
          break;
        } else if text[ptr + idx] == '\r' {
          newline := '\r';
          break;
        }
        assert t[idx..][1..] == t[idx + 1..];
        idx := idx + 1;
      }
    }

    /** Reads a line into the buffer, without what ended it. */
    method Read(str: array<char>) returns (ok: bool, ghost end: nat)
      requires Valid() && str.Length > 1 && NUL !in text
      modifies this`ptr, this`left, str
      ensures Valid() && (ok <==> old(Rest()) != "") && (!ok ==> Rest() == "")
      ensures ok ==> Str(str, 0, end) && (str[..end], Rest()) == ReadLine(old(Rest()), str.Length)
    {
      hide LineLen;
      end := 0;
      if left <= 0 {
        return false, 0;
      }
      ghost var t := Rest();
      var idx, newline := Scan(str.Length - 1);
      Fill(str, idx);
      end := idx;
      Advance(idx, newline);
      ok := true;
    }

    method Fill(str: array<char>, n: nat)
      requires Valid() && 0 < left && n < str.Length && n <= left && NUL !in text
      modifies str
      ensures Str(str, 0, n) && str[..n] == Rest()[..n]
    {
      forall i | 0 <= i < n {
        str[i] := text[ptr + i];
      }
      str[n] := NUL;
      ghost var t := text[ptr..ptr + n];
      assert forall i :: 0 <= i < n ==> t[i] in text;
    }

    method Advance(idx: nat, newline: char)
      requires Valid() && idx <= left && 0 < left && NUL !in text
      modifies this`ptr, this`left
      ensures Valid()
      ensures var rest := Later(old(Rest()), idx);
        Rest() == if newline != NUL && rest != "" && rest[0] == newline then rest[1..] else rest
    {
      ptr := ptr + idx + 1;
      left := left - (idx + 1);
      if newline != NUL && left > 0 && text[ptr] == newline {
        left := left - 1;
        ptr := ptr + 1;
      }
    }
  }

  // ---------------------------------------------------------------- the helpers of the parser

  /** Only `a[lo..hi]` may have changed. */
  twostate predicate Within(a: array<char>, lo: nat, hi: nat)
    reads a
  {
    forall k :: 0 <= k < a.Length && !(lo <= k < hi) ==> a[k] == old(a[k])
  }

  /** strlen */
  method EndOf(a: array<char>, s: nat, ghost e: nat) returns (p: nat)
    requires Str(a, s, e)
    ensures p == e
  {
    p := s;
    while a[p] != NUL
      invariant s <= p <= e
      decreases e - p
    {
      p := p + 1;
    }
  }

  /** Only blanks have been cut off behind `n`. */
  predicate Trims(t: string, n: nat) {
    n <= |t| && RTrim(t) == RTrim(t[..n])
  }

  lemma TrimMore(t: string, n: nat)
    requires Trims(t, n)
    ensures if n > 0 && IsSpace(t[n - 1]) then Trims(t, n - 1) else RTrim(t) == t[..n]
  {
    TrimPrefix(t, n, n);
    if n > 0 {
      TrimPrefix(t, n, n - 1);
      TrimPrefix(t, n - 1, n - 1);
    }
  }

  lemma {:induction false} TrimPrefix(t: string, n: nat, m: nat)
    requires m <= n <= |t|
    ensures TrimEnd(t[..n], 0, m) == TrimEnd(t, 0, m)
    decreases m
  {
    if m > 0 { TrimPrefix(t, n, m - 1); }
  }

  lemma TrimsAll(t: string)
    ensures Trims(t, |t|)
  {
    assert t[..|t|] == t;
  }

  /** ini_rstrip */
  method RStrip(a: array<char>, s: nat, ghost e: nat) returns (ghost f: nat)
    requires Str(a, s, e)
    modifies a
    ensures s <= f <= e && Str(a, s, f) && a[s..f] == RTrim(old(a[s..e])) && Within(a, f, e)
  {
    hide Trims, RTrim, IsSpace;
    ghost var t := a[s..e];
    TrimsAll(t);
    var p := EndOf(a, s, e);
    f := e;
    while p > s
      invariant s <= p <= e && p == f && Str(a, s, f) && Within(a, f, e) && Trims(t, p - s)
    {
      TrimMore(t, p - s);
      p := p - 1;
      assert a[p] == t[p - s];
      if !IsSpace(a[p]) {
        break;
      }
      a[p] := NUL;
      f := p;
    }
    TrimMore(t, f - s);
    forall k | 0 <= k < f - s
      ensures a[s..f][k] == t[..f - s][k]
    {
      assert a[s + k] == old(a[s + k]) == t[k];
    }
  }

  /** ini_find_chars_or_comment */
  method FindChars(a: array<char>, s: nat, ghost e: nat, chars: string) returns (r: nat)
    requires Str(a, s, e)
    ensures s <= r <= e && r == s + Find(a[s..e], 0, chars, false)
  {
    ghost var t := a[s..e];
    var space := false;
    r := s;
    while a[r] != NUL && a[r] !in chars && !(space && a[r] == ';')
      invariant s <= r <= e && Find(t, 0, chars, false) == Find(t, r - s, chars, space)
      decreases e - r
    {
      space := IsSpace(a[r]);
      r := r + 1;
    }
  }

  /** ini_lskip */
  method LSkip(a: array<char>, s: nat, ghost e: nat) returns (r: nat)
    requires Str(a, s, e)
    ensures s <= r <= e && a[r..e] == LTrim(a[s..e]) && r == s + SkipSpace(a[s..e], 0)
  {
    r := SkipBlanks(a, s, s, e);
    ghost var t := a[..];
    assert t[s..e][r - s..] == t[r..e];
  }

  /** Cuts the string at `a[s..e]` off at `r`. */
  method CutAt(a: array<char>, ghost s: nat, r: nat, ghost e: nat)
    requires Str(a, s, e) && s <= r <= e
    modifies a
    ensures Str(a, s, r) && a[s..r] == old(a[s..e])[..r - s] && Within(a, r, e)
  {
    ghost var t := a[s..e];
    if a[r] != NUL {
      a[r] := NUL;
    }
    assert a[s..r] == t[..r - s];
  }

  // ---------------------------------------------------------------- one line of the parser

  method SectionLine(a: array<char>, s: nat, ghost e: nat) returns (r: Effect)
    requires Str(a, s, e) && s < e
    modifies a
    ensures r == ParseSection(old(a[s..e]))
  {
    hide Find;
    ghost var t := a[s..e];
    assert a[s + 1..e] == t[1..];
    var end := FindChars(a, s + 1, e, "]");
    if a[end] == ']' {
      CutAt(a, s + 1, end, e);
      var name := ReadStr(a, s + 1, end);
      r := Enter(name);
    } else {
      r := Wrong;
    }
  }

  method PairLine(a: array<char>, s: nat, ghost e: nat, at: Place) returns (r: Effect)
    requires Str(a, s, e)
    modifies a
    ensures r == ParsePair(old(a[s..e]), at)
  {
    hide Find, TrimEnd, SkipSpace, RTrim, LTrim, Uncomment;
    ghost var t := a[s..e];
    var end := FindChars(a, s, e, "=:");
    if a[end] == '=' || a[end] == ':' {
      assert a[end + 1..e] == t[end - s + 1..] && a[s..end] == t[..end - s];
      var name := NamePart(a, s, end, e);
      var value := ValuePart(a, end + 1, e);
      r := Give(Item(at.section, name, value));
    } else {
      r := Wrong;
    }
  }

  method NamePart(a: array<char>, s: nat, end: nat, ghost e: nat) returns (name: string)
    requires Str(a, s, e) && s <= end < e
    modifies a
    ensures name == RTrim(old(a[s..end])) && Str(a, end + 1, e) && a[end + 1..e] == old(a[end + 1..e])
  {
    hide RTrim;
    a[end] := NUL;
    assert a[s..end] == old(a[s..end]);
    ghost var f := RStrip(a, s, end);
    name := ReadStr(a, s, f);
  }

  method ValuePart(a: array<char>, s: nat, ghost e: nat) returns (value: string)
    requires Str(a, s, e)
    modifies a
    ensures value == RTrim(LTrim(Uncomment(old(a[s..e]))))
  {
    hide RTrim, LTrim, Find;
    var end := FindChars(a, s, e, "");
    CutAt(a, s, end, e);
    var v := LSkip(a, s, end);
    ghost var f := RStrip(a, v, end);
    value := ReadStr(a, v, f);
  }

  method MoreLine(a: array<char>, s: nat, ghost e: nat, at: Place) returns (r: Effect)
    requires Str(a, s, e)
    modifies a
    ensures r == Give(Item(at.section, at.prev, RTrim(Uncomment(old(a[s..e])))))
  {
    hide RTrim, Find;
    var end := FindChars(a, s, e, "");
    CutAt(a, s, end, e);
    ghost var f := RStrip(a, s, end);
    var value := ReadStr(a, s, f);
    r := Give(Item(at.section, at.prev, value));
  }

  /** The body of the loop of ini_parse_stream. */
  method OneLine(a: array<char>, ghost e: nat, first: bool, at: Place) returns (r: Effect)
    requires Str(a, 0, e)
    modifies a
    ensures r == ParseLine(old(a[..e]), first, at)
  {
    hide RTrim, LTrim, Uncomment, ParseSection, ParsePair, SkipSpace;
    ghost var line := a[..e];
    var start := 0;
    if first && a[0] as int == 0xEF && a[1] as int == 0xBB && a[2] as int == 0xBF {
      start := 3;
    }
    ghost var body := line[start..];
    assert a[start..e] == body;
    ghost var f := RStrip(a, start, e);
    start := LSkip(a, start, f);
    if a[start] == NUL || a[start] == ';' || a[start] == '#' {
      r := Nothing;
    } else if at.prev != "" && start > 0 {
      r := MoreLine(a, start, f, at);
    } else if a[start] == '[' {
      r := SectionLine(a, start, f);
    } else {
      r := PairLine(a, start, f, at);
    }
  }

  // ---------------------------------------------------------------- the table

  ghost predicate OneNode(h: Head)
    reads h`nodes
  {
    forall x, y :: x in h.nodes && y in h.nodes && x.key == y.key ==> x == y
  }

  /** A table of variables as a map. */
  ghost function TableOf(h: Head): (m: Table)
    requires OneNode(h)
    reads h`nodes, h.nodes`value
    ensures forall x <- h.nodes :: x.key in m && m[x.key] == x.value
    ensures forall k <- m :: exists x <- h.nodes :: x.key == k
  {
    map x | x in h.nodes :: x.key := x.value
  }

  lemma ValidOneNode(h: Head)
    requires h.Valid()
    ensures OneNode(h)
  {
    h.OneKeyEach();
  }

  /** The value of a variable changes; the tree does not. */
  method SetValue(h: Head, x: Node, value: string)
    requires h.Valid() && OneNode(h) && x in h.nodes
    modifies x`value
    ensures h.Valid() && OneNode(h) && TableOf(h) == old(TableOf(h))[x.key := value]
  {
    hide Head.Valid;
    Store(h, x, value);
  }

  method Store(h: Head, x: Node, value: string)
    requires h.Valid() && x in h.nodes
    modifies x`value
    ensures h.Valid() && x.value == value
  {
    hide RB, Sorted, InOrder, IsRed;
    x.value := value;
    assert h.Snap() == old(h.Snap());
    assert h.Owns(Top, h.tree);
  }

  method AddVariable(h: Head, name: string, value: string)
    requires h.Valid() && OneNode(h) && name !in TableOf(h)
    modifies h, h.nodes`left, h.nodes`right, h.nodes`parent, h.nodes`red
    ensures h.Valid() && OneNode(h) && fresh(h.nodes - old(h.nodes))
    ensures TableOf(h) == old(TableOf(h))[name := value]
  {
    hide Head.Valid;
    assert forall x <- h.nodes :: x.key != name;
    AddNode(h, name, value);
    ValidOneNode(h);
  }

  method AddNode(h: Head, name: string, value: string)
    requires h.Valid() && forall x <- h.nodes :: x.key != name
    modifies h, h.nodes`left, h.nodes`right, h.nodes`parent, h.nodes`red
    ensures h.Valid() && old(h.nodes) <= h.nodes && fresh(h.nodes - old(h.nodes))
    ensures forall x <- h.nodes - old(h.nodes) :: x.key == name && x.value == value
    ensures exists x <- h.nodes - old(h.nodes) :: x.key == name
  {
    hide Head.Valid;
    var variable := new Node(name, value);
    var dup; ghost var at;
    dup, at := h.Insert(variable);
    assert variable in h.nodes - old(h.nodes);
  }

  /** file_parse_ini_handler; `ok` is false where an assertion of the program would fail. */
  method Handle(h: Head, item: Item, glue: Glue) returns (ok: bool)
    requires h.Valid() && OneNode(h)
    modifies h, h.nodes`left, h.nodes`right, h.nodes`parent, h.nodes`red, h.nodes`value
    ensures h.Valid() && OneNode(h) && fresh(h.nodes - old(h.nodes))
    ensures ok <==> FullName(item, glue) != ""
    ensures ok ==> TableOf(h) == Put(old(TableOf(h)), FullName(item, glue), item.value, glue)
  {
    hide Head.Valid;
    var flatten := |item.section| > 0;
    var name := (if flatten then item.section else "") + (if flatten then glue.name else "") + item.name;
    assert name == FullName(item, glue);
    if |name| == 0 {
      return false;
    }
    ok := true;
    var variable := h.Find(name);
    if variable == null {
      AddVariable(h, name, item.value);
    } else {
      Grow(h, variable, item.value, glue);
    }
  }

  method Grow(h: Head, x: Node, more: string, glue: Glue)
    requires h.Valid() && OneNode(h) && x in h.nodes
    modifies x`value
    ensures h.Valid() && OneNode(h)
    ensures TableOf(h) == old(TableOf(h))[x.key := Appended(old(x.value), more, glue)]
  {
    hide Head.Valid;
    var value := x.value;
    if |value| > 0 {
      value := value + glue.value;
    }
    value := value + more;
    assert value == Appended(x.value, more, glue);
    SetValue(h, x, value);
  }

  datatype Loaded = Loaded(h: Head) | Refused | Failed

  /** The lines still to be parsed: the one in the buffer, if any, and those behind it. */
  ghost function Ahead(more: bool, line: string, rest: string): seq<string> {
    if more then [line] + Lines(rest, MAX_LINE) else []
  }

  /** file_parse_ini: the table of a text, as its plain lines make it if they fit the buffer. */
  method LoadIni(text: string, glue: Glue) returns (r: Loaded)
    requires NUL !in text
    ensures match Process(Lines(text, MAX_LINE), true, TOP, map[], glue)
      case Done(m) => r.Loaded? && fresh(r.h) && r.h.Valid() && OneNode(r.h) && TableOf(r.h) == m
      case Rejected => r.Refused?
      case Aborted => r.Failed?
    ensures Fits(Split(text), MAX_LINE)
      ==> Process(Lines(text, MAX_LINE), true, TOP, map[], glue) == Process(Split(text), true, TOP, map[], glue)
  {
    hide Process, Lines, Head.Valid, TableOf, OneNode;
    if Fits(Split(text), MAX_LINE) {
      ReaderIsSplit(text, MAX_LINE, true, TOP, map[], glue);
    }
    var h := new Head();
    var stream := new Stream(text);
    var line := new char[MAX_LINE];
    EmptyTable(h);
    r := ParseStream(h, stream, line, glue);
  }

  /** ini_parse_stream: all lines of the stream go into the table. */
  method ParseStream(h: Head, stream: Stream, line: array<char>, glue: Glue) returns (r: Loaded)
    requires h.Valid() && OneNode(h) && stream.Valid() && NUL !in stream.text && line.Length == MAX_LINE
    modifies line, stream`ptr, stream`left, h, h.nodes`left, h.nodes`right, h.nodes`parent, h.nodes`red, h.nodes`value
    ensures match old(Process(Lines(stream.Rest(), MAX_LINE), true, TOP, TableOf(h), glue))
      case Done(m) => r == Loaded(h) && h.Valid() && OneNode(h) && TableOf(h) == m
      case Rejected => r.Refused?
      case Aborted => r.Failed?
  {
    hide Process, ReadLine, Lines, Head.Valid, TableOf, Moved, OneNode, Stream.Valid, Stream.Rest;
    ghost var goal := Process(Lines(stream.Rest(), MAX_LINE), true, TOP, TableOf(h), glue);
    var at, first := TOP, true;
    NextLines(stream.Rest());
    var more; ghost var end;
    more, end := stream.Read(line);
    while more
      invariant h.Valid() && OneNode(h) && fresh(h.nodes - old(h.nodes)) && stream.Valid() && (more ==> Str(line, 0, end))
      invariant goal == Process(Ahead(more, Held(more, line, end), stream.Rest()), first, at, TableOf(h), glue)
      decreases |stream.Rest()|, more
    {
      var effect, ok;
      effect, ok, more, end := Round(h, stream, line, end, first, at, glue);
      if effect == Wrong {
        return Refused;
      }
      if !ok {
        return Failed;
      }
      at, first := Moved(at, effect), false;
    }
    NoMore(at, first, TableOf(h), glue);
    r := Loaded(h);
  }

  /** The line in the buffer, if there is one. */
  ghost function Held(more: bool, line: array<char>, end: nat): string
    requires more ==> end <= line.Length
    reads line
  {
    if more then line[..end] else ""
  }

  /** The body of that loop, and the next line. */
  method Round(h: Head, stream: Stream, line: array<char>, ghost end: nat, first: bool, at: Place, glue: Glue)
    returns (effect: Effect, ok: bool, more: bool, ghost next: nat)
    requires h.Valid() && OneNode(h) && stream.Valid() && NUL !in stream.text && line.Length == MAX_LINE && Str(line, 0, end)
    modifies line, stream`ptr, stream`left, h, h.nodes`left, h.nodes`right, h.nodes`parent, h.nodes`red, h.nodes`value
    ensures h.Valid() && OneNode(h) && fresh(h.nodes - old(h.nodes)) && stream.Valid() && (more ==> Str(line, 0, next))
    ensures |stream.Rest()| <= old(|stream.Rest()|) && (more ==> |stream.Rest()| < old(|stream.Rest()|))
    ensures next <= line.Length
    ensures old(Process(Ahead(true, Held(true, line, end), stream.Rest()), first, at, TableOf(h), glue))
      == if effect == Wrong then Rejected else if !ok then Aborted
         else Process(Ahead(more, Held(more, line, next), stream.Rest()), false, Moved(at, effect), TableOf(h), glue)
  {
    hide Process, ReadLine, Lines, Head.Valid, TableOf, Moved, OneNode, Stream.Valid, Stream.Rest;
    ghost var rest := stream.Rest();
    effect, ok := Turn(h, line, end, rest, first, at, glue);
    NextLines(rest);
    more, next := stream.Read(line);
    if !more {
      next := 0;
    }
  }

  /** One turn of the loop: a line, and the handler if it gives an item. */
  method Turn(h: Head, line: array<char>, ghost end: nat, ghost rest: string, first: bool, at: Place, glue: Glue)
    returns (effect: Effect, ok: bool)
    requires h.Valid() && OneNode(h) && Str(line, 0, end)
    modifies line, h, h.nodes`left, h.nodes`right, h.nodes`parent, h.nodes`red, h.nodes`value
    ensures h.Valid() && OneNode(h) && fresh(h.nodes - old(h.nodes))
    ensures old(Process(Ahead(true, line[..end], rest), first, at, TableOf(h), glue))
      == if effect == Wrong then Rejected else if !ok then Aborted
         else Process(Lines(rest, MAX_LINE), false, Moved(at, effect), TableOf(h), glue)
  {
    hide ParseLine, Head.Valid, TableOf, FullName, Put, Process, Ahead, Lines;
    LineStep(line[..end], rest, first, at, TableOf(h), glue);
    effect := OneLine(line, end, first, at);
    ok := true;
    if effect.Give? {
      ok := Handle(h, effect.item, glue);
    }
  }

  lemma EmptyTable(h: Head)
    requires h.Valid() && h.nodes == {}
    ensures OneNode(h) && TableOf(h) == map[]
  {
    ValidOneNode(h);
  }

  lemma NextLines(t: string)
    ensures Lines(t, MAX_LINE) == if t == "" then [] else Ahead(true, ReadLine(t, MAX_LINE).0, ReadLine(t, MAX_LINE).1)
    ensures t != "" ==> |ReadLine(t, MAX_LINE).1| < |t|
  {
    if t != "" {
      LinesFirst(t, MAX_LINE);
    }
  }

  lemma NoMore(at: Place, first: bool, m: Table, glue: Glue)
    ensures Process([], first, at, m, glue) == Done(m)
  {
  }

  lemma LineStep(line: string, rest: string, first: bool, at: Place, m: Table, glue: Glue)
    ensures var e := ParseLine(line, first, at);
      Process(Ahead(true, line, rest), first, at, m, glue)
        == if e == Wrong then Rejected
           else if e.Give? && FullName(e.item, glue) == "" then Aborted
           else Process(Lines(rest, MAX_LINE), false, Moved(at, e), Given(m, e, glue), glue)
  {
    ProcessFirst(line, Lines(rest, MAX_LINE), first, at, m, glue);
  }
}
