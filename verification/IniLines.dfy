/**
 What INI lines mean, on the lines as they are written (src/ini.c, src/vmod_cfg_file.c): pairs with
 blanks and comments, sections, continuations and errors, up to whole documents.
*/
module IniLines {
  import opened CString
  import opened Blanks
  import opened Ini
  import opened IniFile
  import opened RbTree
  import opened JsonText

  // ---------------------------------------------------------------- white space and comments

  /** No semicolon behind white space. */
  predicate NoComment(s: string) {
    forall i :: 0 < i < |s| && s[i] == ';' ==> !White(s[i - 1])
  }

  lemma RTrimIs(core: string, w: string)
    requires IsBlank(w) && (core != "" ==> !White(core[|core| - 1]))
    ensures RTrim(core + w) == core
  {
    var t := core + w;
    assert forall k :: |core| <= k < |t| ==> t[k] == w[k - |core|];
    TrimEndAt(t, 0, |core|, |t|);
  }

  lemma LTrimIs(w: string, core: string)
    requires IsBlank(w) && (core != "" ==> !White(core[0]))
    ensures LTrim(w + core) == core && SkipSpace(w + core, 0) == |w|
  {
    var t := w + core;
    assert forall k :: 0 <= k < |w| ==> t[k] == w[k];
    SkipSpaceAt(t, 0, |w|);
  }

  /** Trailing white space and what it leaves. */
  lemma {:induction false} TrailingBlank(s: string) returns (core: string, w: string)
    ensures s == core + w && IsBlank(w) && (core != "" ==> !White(core[|core| - 1])) && RTrim(s) == core
    decreases |s|
  {
    if s != "" && White(s[|s| - 1]) {
      var c, v := TrailingBlank(s[..|s| - 1]);
      core, w := c, v + [s[|s| - 1]];
      assert s == s[..|s| - 1] + [s[|s| - 1]];
    } else {
      core, w := s, "";
    }
    RTrimIs(core, w);
  }

  /** Behind a byte that is no white space trimming is local. */
  lemma RTrimBehind(a: string, b: string)
    requires a != "" && !White(a[|a| - 1])
    ensures RTrim(a + b) == a + RTrim(b)
  {
    var core, w := TrailingBlank(b);
    assert a + b == (a + core) + w;
    RTrimIs(a + core, w);
  }

  /** A place where the search stops. */
  predicate Stops(s: string, i: nat, chars: string)
    requires i < |s|
  {
    s[i] in chars || (i > 0 && White(s[i - 1]) && s[i] == ';')
  }

  lemma {:induction false} FindIs(s: string, i: nat, chars: string, e: nat)
    requires i <= e <= |s| && (forall k :: i <= k < e ==> !Stops(s, k, chars)) && (e < |s| ==> Stops(s, e, chars))
    ensures Find(s, i, chars, i > 0 && IsSpace(s[i - 1])) == e
    decreases e - i
  {
    if i > 0 { WhiteIsSpace(s[i - 1]); }
    if i < e {
      assert !Stops(s, i, chars);
      FindIs(s, i + 1, chars, e);
    }
  }

  // ---------------------------------------------------------------- parts of lines

  /** Blanks, a value, blanks, and a comment or nothing. */
  predicate ValueParts(v: string, value: string, w: string, note: string) {
    && IsBlank(v) && IsBlank(w) && Trimmed(value) && NoComment(value) && (value != "" && value[0] == ';' ==> v == "")
    && (note == "" || (note[0] == ';' && (w != "" || (value == "" && v != ""))))
  }

  lemma ValueEnds(v: string, value: string, w: string, note: string)
    requires ValueParts(v, value, w, note)
    ensures Uncomment(v + value + w + note) == v + value + w
  {
    var s := v + value + w + note;
    var e := |v + value + w|;
    forall k | 0 <= k < e
      ensures !Stops(s, k, "")
    {
      if k < |v| {
        assert s[k] == v[k];
      } else if k < |v| + |value| {
        assert s[k] == value[k - |v|];
        if k > |v| { assert s[k - 1] == value[k - 1 - |v|]; }
      } else {
        assert s[k] == w[k - |v| - |value|];
      }
    }
    if note != "" {
      assert s[e] == note[0];
      assert s[e - 1] == if w != "" then w[|w| - 1] else v[|v| - 1];
    }
    FindIs(s, 0, "", e);
    assert s[..e] == v + value + w;
  }

  lemma ValueTrims(v: string, value: string, w: string)
    requires IsBlank(v) && IsBlank(w) && Trimmed(value)
    ensures RTrim(LTrim(v + value + w)) == value
  {
    if value == "" {
      assert v + value + w == (v + w) + "";
      LTrimIs(v + w, "");
      RTrimIs("", "");
      assert "" + "" == "";
    } else {
      assert v + value + w == v + (value + w);
      LTrimIs(v, value + w);
      RTrimIs(value, w);
    }
  }

  /** The value is the same once the line has been trimmed. */
  lemma ValueOf(v: string, value: string, w: string, note: string)
    requires ValueParts(v, value, w, note)
    ensures RTrim(LTrim(Uncomment(RTrim(v + value + w + note)))) == value
  {
    hide RTrim, LTrim, Uncomment;
    if note != "" {
      var head := v + value + w + [note[0]];
      assert note == [note[0]] + note[1..];
      assert v + value + w + note == head + note[1..];
      RTrimBehind(head, note[1..]);
      var rest := [note[0]] + RTrim(note[1..]);
      assert head + RTrim(note[1..]) == v + value + w + rest;
      ValueEnds(v, value, w, rest);
      ValueTrims(v, value, w);
    } else if value == "" {
      assert v + value + w + note == "" + (v + w);
      RTrimIs("", v + w);
      ValueEnds("", "", "", "");
      assert "" + "" + "" + "" == "" && "" + "" + "" == "";
      ValueTrims("", "", "");
    } else {
      assert v + value + w + note == (v + value) + w;
      RTrimIs(v + value, w);
      ValueEnds(v, value, "", "");
      assert v + value + "" + "" == v + value && v + value + "" == v + value;
      ValueTrims(v, value, "");
    }
  }

  predicate PlainName(name: string) {
    name != "" && Trimmed(name) && NoComment(name) && '=' !in name && ':' !in name && name[0] !in ";#["
  }

  predicate Delimits(d: char) {
    d == '=' || d == ':'
  }

  lemma NameEnds(name: string, u: string, d: char, rest: string)
    requires PlainName(name) && IsBlank(u) && Delimits(d)
    ensures Find(name + u + [d] + rest, 0, "=:", false) == |name + u|
  {
    var s := name + u + [d] + rest;
    var e := |name + u|;
    forall k | 0 <= k < e
      ensures !Stops(s, k, "=:")
    {
      if k < |name| {
        assert s[k] == name[k] && name[k] in name;
        if k > 0 { assert s[k - 1] == name[k - 1]; }
      } else {
        assert s[k] == u[k - |name|];
      }
    }
    assert s[e] == d;
    FindIs(s, 0, "=:", e);
  }

  // ---------------------------------------------------------------- lines

  /** What stands in front of a line that is no continuation. */
  predicate Leads(lead: string, at: Place) {
    IsBlank(lead) && (lead == "" || at.prev == "")
  }

  /** A line from its first byte on that is no white space. */
  lemma LineStarts(lead: string, c: char, rest: string, at: Place)
    requires Leads(lead, at) && !White(c)
    ensures var s := [c] + RTrim(rest);
      ParseLine(lead + [c] + rest, false, at)
        == if c == ';' || c == '#' then Nothing
           else if c == '[' then ParseSection(s)
           else ParsePair(s, at)
  {
    hide RTrim, LTrim, ParseSection, ParsePair;
    var line := lead + [c] + rest;
    RTrimBehind(lead + [c], rest);
    assert lead + [c] + RTrim(rest) == lead + ([c] + RTrim(rest));
    LTrimIs(lead, [c] + RTrim(rest));
  }

  /** name=value, with either delimiter, blanks anywhere, and a comment behind white space. */
  lemma PairLine(lead: string, name: string, u: string, d: char, v: string, value: string, w: string, note: string, at: Place)
    requires Leads(lead, at) && PlainName(name) && IsBlank(u) && Delimits(d) && ValueParts(v, value, w, note)
    ensures ParseLine(lead + name + u + [d] + (v + value + w + note), false, at) == Give(Item(at.section, name, value))
  {
    hide RTrim, LTrim, Uncomment, ParseLine, Find;
    var x := v + value + w + note;
    var rest := name[1..] + u + [d] + x;
    assert name == [name[0]] + name[1..];
    assert lead + name + u + [d] + x == lead + [name[0]] + rest;
    LineStarts(lead, name[0], rest, at);
    var s := [name[0]] + RTrim(rest);
    RTrimBehind(name[1..] + u + [d], x);
    assert s == name + u + [d] + RTrim(x);
    NameEnds(name, u, d, RTrim(x));
    assert s[..|name + u|] == name + u && s[|name + u| + 1..] == RTrim(x) && s[|name + u|] == d;
    RTrimIs(name, u);
    ValueOf(v, value, w, note);
  }

  /** [section], whatever stands behind it. */
  lemma SectionLine(lead: string, section: string, rest: string, at: Place)
    requires Leads(lead, at) && ']' !in section && NoComment(section)
    ensures ParseLine(lead + "[" + section + "]" + rest, false, at) == Enter(section)
  {
    hide RTrim, ParseLine, Find;
    var tail := section + "]" + rest;
    assert lead + "[" + section + "]" + rest == lead + ['['] + tail;
    LineStarts(lead, '[', tail, at);
    RTrimBehind(section + "]", rest);
    var s := ['['] + RTrim(tail);
    assert s[1..] == section + "]" + RTrim(rest);
    var e := |section|;
    forall k | 0 <= k < e
      ensures !Stops(s[1..], k, "]")
    {
      assert s[1..][k] == section[k] && section[k] in section;
      if k > 0 { assert s[1..][k - 1] == section[k - 1]; }
    }
    assert s[1..][e] == ']';
    FindIs(s[1..], 0, "]", e);
  }

  lemma {:induction false} FindStops(s: string, i: nat, chars: string, space: bool)
    requires i <= |s|
    ensures var e := Find(s, i, chars, space); e < |s| ==> s[e] in chars || s[e] == ';'
    decreases |s| - i
  {
    if i < |s| && !(s[i] in chars || (space && s[i] == ';')) { FindStops(s, i + 1, chars, IsSpace(s[i])); }
  }

  /** A section that is not closed. */
  lemma OpenSection(lead: string, rest: string, at: Place)
    requires Leads(lead, at) && ']' !in rest
    ensures ParseLine(lead + "[" + rest, false, at) == Wrong
  {
    hide ParseLine, Find;
    LineStarts(lead, '[', rest, at);
    var core, w := TrailingBlank(rest);
    var s := ['['] + core;
    assert s[1..] == core;
    forall k | 0 <= k < |core| ensures core[k] != ']' { assert rest[k] == core[k] && rest[k] in rest; }
    FindStops(core, 0, "]", false);
  }

  /** A line without a delimiter, or with none before a comment. */
  lemma NoDelimiter(lead: string, text: string, note: string, at: Place)
    requires Leads(lead, at) && text != "" && !White(text[0]) && text[0] !in ";#[" && '=' !in text && ':' !in text
    requires note == "" || (note[0] == ';' && White(text[|text| - 1]) && NoComment(text))
    ensures ParseLine(lead + text + note, false, at) == Wrong
  {
    hide ParseLine, Find, RTrim;
    assert text == [text[0]] + text[1..];
    assert lead + text + note == lead + [text[0]] + (text[1..] + note);
    LineStarts(lead, text[0], text[1..] + note, at);
    if note == "" {
      assert text[1..] + note == text[1..];
      var core, w := TrailingBlank(text[1..]);
      var s := [text[0]] + core;
      assert s + w == [text[0]] + (core + w) == text;
      forall k | 0 <= k < |s| ensures s[k] != '=' && s[k] != ':' {
        assert s[k] == text[k] && text[k] in text;
      }
      FindStops(s, 0, "=:", false);
    } else {
      var head := text[1..] + [note[0]];
      assert text[1..] + note == head + note[1..];
      RTrimBehind(head, note[1..]);
      var s := [text[0]] + RTrim(text[1..] + note);
      assert s == text + [';'] + RTrim(note[1..]);
      forall k | 0 <= k < |text|
        ensures !Stops(s, k, "=:")
      {
        assert s[k] == text[k] && text[k] in text;
        if k > 0 { assert s[k - 1] == text[k - 1]; }
      }
      assert s[|text|] == ';' && s[|text| - 1] == text[|text| - 1];
      FindIs(s, 0, "=:", |text|);
    }
  }

  /** Comments and blank lines, indented or not, anywhere. */
  lemma CommentLine(lead: string, c: char, rest: string, at: Place)
    requires IsBlank(lead) && (c == ';' || c == '#')
    ensures ParseLine(lead + [c] + rest, false, at) == Nothing
  {
    hide RTrim, LTrim, ParseSection, ParsePair;
    RTrimBehind(lead + [c], rest);
    assert lead + [c] + RTrim(rest) == lead + ([c] + RTrim(rest));
    LTrimIs(lead, [c] + RTrim(rest));
  }

  lemma BlankLine(w: string, at: Place)
    requires IsBlank(w)
    ensures ParseLine(w, false, at) == Nothing
  {
    hide RTrim, LTrim, ParseSection, ParsePair;
    assert w == "" + w;
    RTrimIs("", w);
    assert "" + "" == "";
    LTrimIs("", "");
  }

  /** An indented line behind a name adds its text to that name. */
  lemma ContinuationLine(lead: string, text: string, w: string, note: string, at: Place)
    requires IsBlank(lead) && lead != "" && at.prev != "" && text != "" && text[0] !in ";#" && ValueParts("", text, w, note)
    ensures ParseLine(lead + (text + w + note), false, at) == Give(Item(at.section, at.prev, text))
  {
    hide RTrim, LTrim, Uncomment, ParseSection, ParsePair;
    var x := text + w + note;
    assert x == [text[0]] + x[1..];
    assert lead + x == lead + [text[0]] + x[1..];
    RTrimBehind(lead + [text[0]], x[1..]);
    RTrimBehind([text[0]], x[1..]);
    assert lead + [text[0]] + RTrim(x[1..]) == lead + RTrim(x);
    LTrimIs(lead, RTrim(x));
    assert "" + text + w + note == x;
    ContinuationText(text, w, note);
  }

  lemma ContinuationText(text: string, w: string, note: string)
    requires text != "" && ValueParts("", text, w, note)
    ensures RTrim(Uncomment(RTrim(text + w + note))) == text
  {
    hide RTrim, Uncomment;
    if note != "" {
      var head := text + w + [note[0]];
      assert note == [note[0]] + note[1..];
      assert text + w + note == head + note[1..];
      RTrimBehind(head, note[1..]);
      var rest := [note[0]] + RTrim(note[1..]);
      assert head + RTrim(note[1..]) == "" + text + w + rest;
      ValueEnds("", text, w, rest);
      assert "" + text + w == text + w;
      RTrimIs(text, w);
    } else {
      assert text + w + note == text + w;
      RTrimIs(text, w);
      ValueEnds("", text, "", "");
      assert "" + text + "" + "" == text && "" + text + "" == text && text + "" == text;
      RTrimIs(text, "");
    }
  }

  const MARK := [0xEF as char, 0xBB as char, 0xBF as char]

  /** Only on the first line a byte order mark is skipped. */
  lemma FirstLineMark(rest: string)
    ensures ParseLine(MARK + rest, true, TOP) == ParseLine(rest, false, TOP)
  {
    hide RTrim, LTrim, ParseSection, ParsePair, Uncomment;
    assert (MARK + rest)[3..] == rest && HasMark(MARK + rest);
  }

  lemma FirstLinePlain(line: string, at: Place)
    requires line[..if |line| < 3 then |line| else 3] != MARK
    ensures ParseLine(line, true, at) == ParseLine(line, false, at)
  {
    hide RTrim, LTrim, ParseSection, ParsePair, Uncomment, HasMark;
    Unmarked(line);
  }

  lemma Unmarked(line: string)
    ensures HasMark(line) ==> |line| >= 3 && line[..3] == MARK
  {
  }

  // ---------------------------------------------------------------- documents

  type Pair = (string, string)

  datatype Section = Section(name: string, pairs: seq<Pair>)

  /** Pairs, and then sections with theirs. */
  datatype Document = Document(top: seq<Pair>, sections: seq<Section>)

  predicate OneLine(s: string) {
    '\n' !in s && '\r' !in s
  }

  predicate RightPair(p: Pair) {
    PlainName(p.0) && Trimmed(p.1) && NoComment(p.1) && OneLine(p.0) && OneLine(p.1)
  }

  predicate RightPairs(ps: seq<Pair>) {
    forall i :: 0 <= i < |ps| ==> RightPair(ps[i])
  }

  predicate RightSection(s: Section) {
    0 < |s.name| < MAX_NAME && ']' !in s.name && NoComment(s.name) && OneLine(s.name) && RightPairs(s.pairs)
  }

  predicate RightSections(ss: seq<Section>) {
    forall i :: 0 <= i < |ss| ==> RightSection(ss[i])
  }

  predicate RightDocument(d: Document) {
    && RightPairs(d.top) && RightSections(d.sections)
    && (d.top != [] ==> d.top[0].0[..if |d.top[0].0| < 3 then |d.top[0].0| else 3] != MARK)
  }

  function PairText(p: Pair): string {
    p.0 + "=" + p.1
  }

  function PairTexts(ps: seq<Pair>): seq<string> {
    if ps == [] then [] else [PairText(ps[0])] + PairTexts(ps[1..])
  }

  function SectionTexts(ss: seq<Section>): seq<string> {
    if ss == [] then [] else ["[" + ss[0].name + "]"] + PairTexts(ss[0].pairs) + SectionTexts(ss[1..])
  }

  function DocumentLines(d: Document): seq<string> {
    PairTexts(d.top) + SectionTexts(d.sections)
  }

  /** The lines, each with a line feed. */
  function LinesText(lines: seq<string>): string {
    if lines == [] then "" else lines[0] + "\n" + LinesText(lines[1..])
  }

  /** The variables of a document: the section, the delimiter and the name, or the name alone. */
  function PairRows(section: string, ps: seq<Pair>, glue: Glue): seq<Pair> {
    if ps == [] then []
    else [(if section == "" then ps[0].0 else section + glue.name + ps[0].0, ps[0].1)] + PairRows(section, ps[1..], glue)
  }

  function SectionRows(ss: seq<Section>, glue: Glue): seq<Pair> {
    if ss == [] then [] else PairRows(ss[0].name, ss[0].pairs, glue) + SectionRows(ss[1..], glue)
  }

  function DocumentRows(d: Document, glue: Glue): seq<Pair> {
    PairRows("", d.top, glue) + SectionRows(d.sections, glue)
  }

  /** No name is there already, or comes twice. */
  predicate Fresh(m: Table, rows: seq<Pair>) {
    && (forall i :: 0 <= i < |rows| ==> rows[i].0 !in m)
    && (forall i, j :: 0 <= i < j < |rows| ==> rows[i].0 != rows[j].0)
  }

  function AddRows(m: Table, rows: seq<Pair>): Table
    decreases |rows|
  {
    if rows == [] then m else AddRows(m[rows[0].0 := rows[0].1], rows[1..])
  }

  /** The table has the name with this value. */
  predicate Has(m: Table, name: string, value: string) {
    name in m && m[name] == value
  }

  lemma {:induction false} AddRowsAt(m: Table, rows: seq<Pair>, k: string, v: string)
    requires Fresh(m, rows)
    ensures Has(AddRows(m, rows), k, v) <==> Has(m, k, v) || (k, v) in rows
    decreases |rows|
  {
    if rows != [] {
      FreshRest(m, rows);
      AddRowsAt(m[rows[0].0 := rows[0].1], rows[1..], k, v);
      assert rows == [rows[0]] + rows[1..];
      if (k, v) in rows[1..] {
        var i :| 0 <= i < |rows[1..]| && rows[1..][i] == (k, v);
        assert rows[i + 1] == (k, v);
      }
    }
  }

  lemma AddRowsHolds(m: Table, rows: seq<Pair>)
    requires Fresh(m, rows)
    ensures forall k, v :: Has(AddRows(m, rows), k, v) <==> Has(m, k, v) || (k, v) in rows
  {
    hide Fresh, AddRows, Has;
    forall k, v
      ensures Has(AddRows(m, rows), k, v) <==> Has(m, k, v) || (k, v) in rows
    {
      AddRowsAt(m, rows, k, v);
    }
  }

  lemma FreshRest(m: Table, rows: seq<Pair>)
    requires Fresh(m, rows) && rows != []
    ensures rows[0].0 !in m && Fresh(m[rows[0].0 := rows[0].1], rows[1..])
    ensures AddRows(m, rows) == AddRows(m[rows[0].0 := rows[0].1], rows[1..])
  {
    var rest := rows[1..];
    forall i | 0 <= i < |rest|
      ensures rest[i].0 !in m[rows[0].0 := rows[0].1]
    {
      assert rest[i] == rows[i + 1];
    }
    forall i, j | 0 <= i < j < |rest|
      ensures rest[i].0 != rest[j].0
    {
      assert rest[i] == rows[i + 1] && rest[j] == rows[j + 1];
    }
  }

  lemma {:induction false} AddRowsConcat(m: Table, a: seq<Pair>, b: seq<Pair>)
    requires Fresh(m, a + b)
    ensures AddRows(m, a + b) == AddRows(AddRows(m, a), b) && Fresh(m, a) && Fresh(AddRows(m, a), b)
    decreases |a|
  {
    if a == [] {
      assert a + b == b;
    } else {
      assert (a + b)[0] == a[0] && (a + b)[1..] == a[1..] + b;
      FreshRest(m, a + b);
      AddRowsConcat(m[a[0].0 := a[0].1], a[1..], b);
      assert forall i :: 0 <= i < |a| ==> (a + b)[i] == a[i];
    }
  }

  function AfterPairs(at: Place, ps: seq<Pair>): Place {
    if ps == [] then at else at.(prev := Clip(ps[|ps| - 1].0))
  }

  lemma OnePair(p: Pair, rest: seq<string>, at: Place, m: Table, glue: Glue)
    requires RightPair(p)
    requires (if at.section == "" then p.0 else at.section + glue.name + p.0) !in m
    ensures var name := if at.section == "" then p.0 else at.section + glue.name + p.0;
      Process([PairText(p)] + rest, false, at, m, glue) == Process(rest, false, at.(prev := Clip(p.0)), m[name := p.1], glue)
  {
    hide ParseLine, Process;
    assert "" + p.0 + "" + ['='] + ("" + p.1 + "" + "") == PairText(p);
    PairLine("", p.0, "", '=', "", p.1, "", "", at);
    ProcessFirst(PairText(p), rest, false, at, m, glue);
  }

  lemma NoRows(m: Table)
    ensures AddRows(m, []) == m
  {
  }

  lemma {:induction false} PairsProcess(ps: seq<Pair>, rest: seq<string>, at: Place, m: Table, glue: Glue)
    requires RightPairs(ps) && Fresh(m, PairRows(at.section, ps, glue))
    ensures Process(PairTexts(ps) + rest, false, at, m, glue)
      == Process(rest, false, AfterPairs(at, ps), AddRows(m, PairRows(at.section, ps, glue)), glue)
    decreases |ps|
  {
    hide Process, PairText, Clip, Fresh, AddRows, RightPair;
    if ps == [] {
      assert PairTexts(ps) + rest == rest;
      NoRows(m);
    } else {
      var rows := PairRows(at.section, ps, glue);
      var row := rows[0];
      assert PairTexts(ps) + rest == [PairText(ps[0])] + (PairTexts(ps[1..]) + rest);
      assert rows[1..] == PairRows(at.section, ps[1..], glue);
      FreshRest(m, rows);
      OnePair(ps[0], PairTexts(ps[1..]) + rest, at, m, glue);
      assert forall i :: 0 <= i < |ps[1..]| ==> ps[1..][i] == ps[i + 1];
      PairsProcess(ps[1..], rest, at.(prev := Clip(ps[0].0)), m[row.0 := row.1], glue);
      assert |ps| > 1 ==> ps[1..][|ps| - 2] == ps[|ps| - 1];
    }
  }

  lemma {:induction false} SectionsProcess(ss: seq<Section>, at: Place, m: Table, glue: Glue)
    requires RightSections(ss) && Fresh(m, SectionRows(ss, glue))
    ensures Process(SectionTexts(ss), false, at, m, glue) == Done(AddRows(m, SectionRows(ss, glue)))
    decreases |ss|
  {
    hide ParseLine, PairTexts, PairRows, AfterPairs, RightPairs, Fresh;
    if ss != [] {
      var s := ss[0];
      var head, rest := "[" + s.name + "]", SectionTexts(ss[1..]);
      assert forall i :: 0 <= i < |ss[1..]| ==> ss[1..][i] == ss[i + 1];
      assert SectionTexts(ss) == [head] + (PairTexts(s.pairs) + rest);
      assert "" + "[" + s.name + "]" + "" == head;
      SectionLine("", s.name, "", at);
      ProcessFirst(head, PairTexts(s.pairs) + rest, false, at, m, glue);
      var inside := Place(s.name, "");
      var rows := PairRows(s.name, s.pairs, glue);
      AddRowsConcat(m, rows, SectionRows(ss[1..], glue));
      PairsProcess(s.pairs, rest, inside, m, glue);
      SectionsProcess(ss[1..], AfterPairs(inside, s.pairs), AddRows(m, rows), glue);
    }
  }

  lemma FirstOfDocument(d: Document, glue: Glue)
    requires RightDocument(d)
    ensures Process(DocumentLines(d), true, TOP, map[], glue) == Process(DocumentLines(d), false, TOP, map[], glue)
  {
    hide ParseLine;
    var lines := DocumentLines(d);
    if lines != [] {
      if d.top != [] {
        assert lines[0] == d.top[0].0 + "=" + d.top[0].1;
        NameUnmarked(d.top[0].0, "=" + d.top[0].1);
        assert lines[0] == d.top[0].0 + ("=" + d.top[0].1);
      } else {
        assert lines[0] == "[" + d.sections[0].name + "]";
        assert lines[0][..3][0] == '[';
      }
      FirstLinePlain(lines[0], TOP);
      ProcessFirst(lines[0], lines[1..], true, TOP, map[], glue);
      ProcessFirst(lines[0], lines[1..], false, TOP, map[], glue);
      assert lines == [lines[0]] + lines[1..];
    }
  }

  lemma NameUnmarked(name: string, rest: string)
    requires rest != "" && rest[0] == '=' && name[..if |name| < 3 then |name| else 3] != MARK
    ensures var line := name + rest; line[..if |line| < 3 then |line| else 3] != MARK
  {
    var line := name + rest;
    if |name| >= 3 {
      assert line[..3] == name[..3];
    } else if |line| >= 3 {
      assert line[..3][|name|] == '=';
    }
  }

  lemma {:induction false} LinesSplit(lines: seq<string>)
    requires forall i :: 0 <= i < |lines| ==> OneLine(lines[i])
    ensures Split(LinesText(lines)) == lines
    decreases |lines|
  {
    hide Split, OneLine;
    if lines == [] {
      NoLines(2);
    } else {
      assert forall i :: 0 <= i < |lines[1..]| ==> lines[1..][i] == lines[i + 1];
      LinesSplit(lines[1..]);
      SplitLine(lines[0], LinesText(lines[1..]));
    }
  }

  lemma SplitLine(l: string, rest: string)
    requires OneLine(l)
    ensures Split(l + "\n" + rest) == [l] + Split(rest)
  {
    hide LineLen, Split;
    var t := l + "\n" + rest;
    LineLenOf(l, rest);
    SplitFirst(t);
    assert t[..|l|] == l && t[|l| + 1..] == rest;
  }

  lemma LineLenOf(l: string, rest: string)
    requires OneLine(l)
    ensures var t := l + "\n" + rest; LineLen(t, |t|) == |l|
  {
    hide LineLen;
    var t := l + "\n" + rest;
    var n := LineLen(t, |t|);
    forall i | 0 <= i < |l| ensures !IsNewline(t[i]) {
      assert t[i] == l[i] && l[i] in l;
    }
    assert t[|l|] == '\n';
  }

  lemma {:induction false} PairsOneLine(ps: seq<Pair>)
    requires RightPairs(ps)
    ensures forall i :: 0 <= i < |PairTexts(ps)| ==> OneLine(PairTexts(ps)[i])
    decreases |ps|
  {
    if ps != [] {
      assert forall i :: 0 <= i < |ps[1..]| ==> ps[1..][i] == ps[i + 1];
      PairsOneLine(ps[1..]);
    }
  }

  lemma {:induction false} SectionsOneLine(ss: seq<Section>)
    requires RightSections(ss)
    ensures forall i :: 0 <= i < |SectionTexts(ss)| ==> OneLine(SectionTexts(ss)[i])
    decreases |ss|
  {
    if ss != [] {
      assert forall i :: 0 <= i < |ss[1..]| ==> ss[1..][i] == ss[i + 1];
      PairsOneLine(ss[0].pairs);
      SectionsOneLine(ss[1..]);
    }
  }

  /** A document loads as the map of its variables: each section, delimiter and name to its value. */
  lemma DocumentLoads(d: Document, glue: Glue)
    requires RightDocument(d) && Fresh(map[], DocumentRows(d, glue))
    ensures var r := Process(Split(LinesText(DocumentLines(d))), true, TOP, map[], glue);
      r.Done? && forall k, v :: Has(r.m, k, v) <==> (k, v) in DocumentRows(d, glue)
  {
    hide ParseLine, Process, RightPairs, RightSections, Split, LinesText, PairTexts, SectionTexts, PairRows, SectionRows, Fresh;
    PairsOneLine(d.top);
    SectionsOneLine(d.sections);
    LinesSplit(DocumentLines(d));
    FirstOfDocument(d, glue);
    var rows := PairRows("", d.top, glue);
    AddRowsConcat(map[], rows, SectionRows(d.sections, glue));
    PairsProcess(d.top, SectionTexts(d.sections), TOP, map[], glue);
    SectionsProcess(d.sections, AfterPairs(TOP, d.top), AddRows(map[], rows), glue);
    AddRowsHolds(map[], DocumentRows(d, glue));
  }

  /** The same, with the code that loads it. */
  method LoadDocument(d: Document, glue: Glue) returns (h: Head)
    requires RightDocument(d) && Fresh(map[], DocumentRows(d, glue))
    requires NUL !in LinesText(DocumentLines(d)) && Fits(Split(LinesText(DocumentLines(d))), MAX_LINE)
    ensures h.Valid() && forall k, v :: (exists x <- h.nodes :: x.key == k && x.value == v) <==> (k, v) in DocumentRows(d, glue)
  {
    hide Process, RightDocument, DocumentRows, DocumentLines, Split, LinesText, Fresh, Head.Valid;
    DocumentLoads(d, glue);
    var r := LoadIni(LinesText(DocumentLines(d)), glue);
    h := r.h;
  }
}
