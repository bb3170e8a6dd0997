/**
 The texts the parser of src/cJSON.c accepts, as a grammar: words, numbers and strings as lexemes
 (JsonLexemes writes them), brackets, commas and colons, and blanks between them.
*/
module JsonGrammar {
  import opened JsonText
  import opened JsonSpec
  import opened JsonRoundTrip

  /** A text with its structure. */
  datatype Note =
    | Scalar(text: string, value: Value)
    | List(blank: string, entries: seq<Entry>)
    | Record(blank: string, fields: seq<Field>)

  datatype Entry = Entry(before: string, note: Note, after: string)

  datatype Field = Field(before: string, name: string, key: string, after: string, entry: Entry)

  /** Every byte up to the space is white space. */
  predicate IsBlank(w: string) {
    forall i :: 0 <= i < |w| ==> w[i] as int <= 32
  }

  /** A number: what strtod reads to the end, within the 63 bytes the parser looks at. */
  predicate IsNumeral(text: string, x: real) {
    && 0 < |text| <= 63 && (text[0] == '-' || IsDigit(text[0]))
    && (forall i :: 0 <= i < |text| ==> IsNumberChar(text[i])) && Strtod(text) == (x, |text|)
  }

  /** A string with its quotes. */
  predicate IsQuoted(text: string, s: string) {
    ParseString(text, 0) == Some((s, |text|))
  }

  predicate IsScalar(text: string, v: Value) {
    match v
    case Null => text == "null"
    case Bool(b) => text == if b then "true" else "false"
    case Number(x) => IsNumeral(text, x)
    case String(s) => IsQuoted(text, s)
    case _ => false
  }

  predicate Right(n: Note) {
    match n
    case Scalar(text, value) => IsScalar(text, value)
    case List(blank, entries) => IsBlank(blank) && RightEntries(entries)
    case Record(blank, fields) => IsBlank(blank) && RightFields(fields)
  }

  predicate RightEntry(e: Entry) {
    IsBlank(e.before) && Right(e.note) && IsBlank(e.after)
  }

  predicate RightEntries(es: seq<Entry>) {
    es == [] || (RightEntry(es[0]) && RightEntries(es[1..]))
  }

  predicate RightField(f: Field) {
    IsBlank(f.before) && IsQuoted(f.name, f.key) && IsBlank(f.after) && RightEntry(f.entry)
  }

  predicate RightFields(fs: seq<Field>) {
    fs == [] || (RightField(fs[0]) && RightFields(fs[1..]))
  }

  function Spell(n: Note): string {
    match n
    case Scalar(text, _) => text
    case List(blank, entries) => "[" + (if entries == [] then blank else SpellEntries(entries)) + "]"
    case Record(blank, fields) => "{" + (if fields == [] then blank else SpellFields(fields)) + "}"
  }

  function SpellEntry(e: Entry): string {
    e.before + Spell(e.note) + e.after
  }

  function SpellEntries(es: seq<Entry>): string {
    if es == [] then "" else SpellEntry(es[0]) + (if |es| == 1 then "" else "," + SpellEntries(es[1..]))
  }

  function SpellField(f: Field): string {
    f.before + f.name + f.after + ":" + SpellEntry(f.entry)
  }

  function SpellFields(fs: seq<Field>): string {
    if fs == [] then "" else SpellField(fs[0]) + (if |fs| == 1 then "" else "," + SpellFields(fs[1..]))
  }

  function Meaning(n: Note): Value {
    match n
    case Scalar(_, value) => value
    case List(_, entries) => Array(Meanings(entries))
    case Record(_, fields) => Object(Members(fields))
  }

  function Meanings(es: seq<Entry>): seq<Value> {
    if es == [] then [] else [Meaning(es[0].note)] + Meanings(es[1..])
  }

  function Members(fs: seq<Field>): seq<Member> {
    if fs == [] then [] else [Member(fs[0].key, Meaning(fs[0].entry.note))] + Members(fs[1..])
  }

  // ---------------------------------------------------------------- lexemes inside a text

  /** `text` stands in `t` at `off`. */
  lemma {:induction false} ScanEndInside(t: string, off: nat, text: string, p: nat)
    requires Starts(t, off, text) && ScanEnd(text, p).Some?
    ensures ScanEnd(t, off + p) == Some(off + ScanEnd(text, p).value)
    decreases |text| - p
  {
    assert forall i :: 0 <= i < |text| ==> t[off + i] == text[i];
    if text[p] == '\\' {
      ScanEndInside(t, off, text, p + 2);
    } else if text[p] != '\"' {
      ScanEndInside(t, off, text, p + 1);
    }
  }

  lemma Utf16Inside(t: string, off: nat, text: string, p: nat, end: nat)
    requires Starts(t, off, text) && p <= end < |text|
    ensures Utf16(t, off + p, off + end) == Utf16(text, p, end)
  {
    hide Hex4, Starts;
    if end - p >= 6 {
      Hex4Inside(t, off, text, p + 2);
      if end - p >= 12 {
        Hex4Inside(t, off, text, p + 8);
        StartsAt(t, off, text, p + 6);
        StartsAt(t, off, text, p + 7);
      }
      StartsAt(t, off, text, p);
    }
  }

  lemma Hex4Inside(t: string, off: nat, text: string, p: nat)
    requires Starts(t, off, text) && p + 4 <= |text|
    ensures Hex4(t, off + p) == Hex4(text, p)
  {
    assert forall i :: 0 <= i < |text| ==> t[off + i] == text[i];
  }

  lemma {:induction false} UnescapeInside(t: string, off: nat, text: string, p: nat, end: nat)
    requires Starts(t, off, text) && end < |text|
    ensures Unescape(t, off + p, off + end) == Unescape(text, p, end)
    decreases end - p
  {
    hide Utf16, Utf8;
    assert forall i :: 0 <= i < |text| ==> t[off + i] == text[i];
    if p < end {
      if text[p] != '\\' {
        UnescapeInside(t, off, text, p + 1, end);
      } else if text[p + 1] == 'u' {
        Utf16Inside(t, off, text, p, end);
        match Utf16(text, p, end)
        case None =>
        case Some(u) => UnescapeInside(t, off, text, p + u.len, end);
      } else {
        UnescapeInside(t, off, text, p + 2, end);
      }
    }
  }

  lemma StringInside(t: string, off: nat, text: string, s: string)
    requires IsQuoted(text, s) && Starts(t, off, text)
    ensures ParseString(t, off) == Some((s, off + |text|)) && |text| >= 2 && text[0] == '\"'
  {
    hide ScanEnd, Unescape, CStr;
    assert t[off] == t[off..off + |text|][0];
    ScanEndInside(t, off, text, 1);
    UnescapeInside(t, off, text, 1, ScanEnd(text, 1).value);
  }

  lemma NumberInside(t: string, off: nat, text: string, x: real)
    requires IsNumeral(text, x) && Starts(t, off, text)
    requires off + |text| < |t| ==> !IsNumberChar(t[off + |text|])
    ensures ParseNumber(t, off) == Some((Number(x), off + |text|))
  {
    hide Strtod, IsNumberChar;
    NumberRunAll(t, off, text, 63);
    assert t[off..off + |text|] == text;
  }

  /** A run of up to `room` number characters. */
  lemma {:induction false} NumberRunAll(t: string, p: nat, d: string, room: nat)
    requires Starts(t, p, d) && |d| <= room && forall i :: 0 <= i < |d| ==> IsNumberChar(d[i])
    requires p + |d| < |t| ==> !IsNumberChar(t[p + |d|])
    ensures NumberEnd(t, p, room) == p + |d|
    decreases |d|
  {
    hide IsNumberChar;
    if d != [] {
      StartsAt(t, p, d, 0);
      assert d == [d[0]] + d[1..];
      StartsSplit(t, p, [d[0]], d[1..]);
      NumberRunAll(t, p + 1, d[1..], room - 1);
    }
  }

  // ---------------------------------------------------------------- what is spelled is read

  function Nesting(n: Note): nat {
    Depth(Meaning(n))
  }

  lemma SpellFirst(n: Note)
    requires Right(n)
    ensures |Spell(n)| > 0 && Spell(n)[0] > ' ' && Spell(n)[0] !in "]},"
    ensures n.Scalar? ==> Spell(n)[0] !in "[{"
  {
    hide Strtod, Unescape, CStr, ScanEnd, SpellEntries, SpellFields;
    if n.Scalar? && n.value.String? {
      assert n.text[0] == '\"';
    }
  }

  lemma ScalarReads(t: string, off: nat, text: string, v: Value, depth: nat)
    requires IsScalar(text, v) && Starts(t, off, text) && depth <= NESTING_LIMIT
    requires off + |text| < |t| ==> !IsNumberChar(t[off + |text|])
    ensures ParseValue(t, off, depth) == Some((v, off + |text|))
  {
    hide ParseArray, ParseObject, ParseString, ParseNumber, IsNumeral, IsQuoted;
    match v
    case Null =>
    case Bool(b) => WordClash(t, off, text);
    case Number(x) => NumberInside(t, off, text, x); NumberFirst(t, off, text, x); NoWordAt(t, off);
    case String(s) => StringInside(t, off, text, s); StartsAt(t, off, text, 0); NoWordAt(t, off);
  }

  lemma NumberFirst(t: string, off: nat, text: string, x: real)
    requires IsNumeral(text, x) && Starts(t, off, text)
    ensures off < |t| && (t[off] == '-' || IsDigit(t[off]))
  {
    StartsAt(t, off, text, 0);
  }

  lemma NoWordAt(t: string, off: nat)
    requires off < |t| && t[off] !in "ntf"
    ensures !Starts(t, off, "null") && !Starts(t, off, "true") && !Starts(t, off, "false")
  {
    if Starts(t, off, "null") { StartsAt(t, off, "null", 0); }
    if Starts(t, off, "true") { StartsAt(t, off, "true", 0); }
    if Starts(t, off, "false") { StartsAt(t, off, "false", 0); }
  }

  lemma WordClash(t: string, off: nat, text: string)
    requires (text == "true" || text == "false") && Starts(t, off, text)
    ensures !Starts(t, off, "null") && (text == "true" ==> !Starts(t, off, "false"))
  {
    StartsAt(t, off, text, 0);
    if Starts(t, off, "null") { StartsAt(t, off, "null", 0); }
    if Starts(t, off, "false") { StartsAt(t, off, "false", 0); }
  }

  /** Blanks before something. */
  lemma SkipBlanks(t: string, off: nat, w: string)
    requires IsBlank(w) && Starts(t, off, w) && off + |w| < |t| && t[off + |w|] > ' '
    ensures Skip(t, off) == off + |w|
  {
    SkipBlank(t, off, w);
  }

  /** Something that ends a value: no number character and no blank. */
  predicate Stop(t: string, q: nat) {
    q < |t| && t[q] > ' ' && !IsNumberChar(t[q])
  }

  lemma EntryLayout(t: string, p: nat, e: Entry)
    requires RightEntry(e) && Starts(t, p, SpellEntry(e)) && Stop(t, p + |SpellEntry(e)|)
    ensures var start := p + |e.before|;
      var end := start + |Spell(e.note)|;
      && Skip(t, p) == start && start < |t| && |Spell(e.note)| > 0 && t[start] == Spell(e.note)[0]
      && Starts(t, start, Spell(e.note)) && end < |t| && !IsNumberChar(t[end]) && Skip(t, end) == p + |SpellEntry(e)|
  {
    hide Right, Spell, Skip, Starts;
    var start := p + |e.before|;
    var end := start + |Spell(e.note)|;
    assert SpellEntry(e) == e.before + Spell(e.note) + e.after;
    StartsSplit(t, p, e.before + Spell(e.note), e.after);
    StartsSplit(t, p, e.before, Spell(e.note));
    SpellFirst(e.note);
    StartsAt(t, start, Spell(e.note), 0);
    SkipBlanks(t, p, e.before);
    if e.after != "" { StartsAt(t, end, e.after, 0); }
    SkipBlanks(t, end, e.after);
  }

  lemma {:induction false} NoteReads(t: string, off: nat, n: Note, depth: nat)
    requires Right(n) && depth + Nesting(n) <= NESTING_LIMIT && Starts(t, off, Spell(n))
    requires off + |Spell(n)| < |t| ==> !IsNumberChar(t[off + |Spell(n)|])
    ensures ParseValue(t, off, depth) == Some((Meaning(n), off + |Spell(n)|))
    decreases n, 2
  {
    hide ParseArray, ParseObject, ParseString, ParseNumber, RightEntries, RightFields, SpellEntries, SpellFields, Meanings,
      Members, IsScalar, ItemsDepth, MembersDepth;
    match n
    case Scalar(text, value) =>
      ScalarReads(t, off, text, value, depth);
    case List(blank, entries) =>
      StartsAt(t, off, Spell(n), 0);
      NoWordAt(t, off);
      ListReads(t, off, blank, entries, depth);
    case Record(blank, fields) =>
      StartsAt(t, off, Spell(n), 0);
      NoWordAt(t, off);
      RecordReads(t, off, blank, fields, depth);
  }

  lemma {:induction false} ListReads(t: string, off: nat, blank: string, es: seq<Entry>, depth: nat)
    requires IsBlank(blank) && RightEntries(es) && depth + 1 + ItemsDepth(Meanings(es)) <= NESTING_LIMIT
    requires Starts(t, off, "[" + (if es == [] then blank else SpellEntries(es)) + "]") && CharAt(t, off, '[')
    ensures ParseArray(t, off, depth)
      == Some((Array(Meanings(es)), off + 2 + |if es == [] then blank else SpellEntries(es)|))
    decreases es, 1
  {
    hide ParseValue, ParseArray, ParseItems, Skip, RightEntries, SpellEntries, Meanings, IsBlank;
    var body := if es == [] then blank else SpellEntries(es);
    StartsSplit(t, off, "[" + body, "]");
    StartsSplit(t, off, "[", body);
    StartsAt(t, off + 1 + |body|, "]", 0);
    if es == [] {
      SkipBlanks(t, off + 1, blank);
      assert Meanings(es) == [] by { NoMeanings(); }
      ArrayEmpty(t, off, depth);
    } else {
      EntriesRead(t, off, es, depth + 1);
      ArrayFrom(t, off, depth, Meanings(es), off + 1 + |body|);
    }
  }

  lemma NoMeanings()
    ensures Meanings([]) == [] && Members([]) == []
  {
  }

  lemma EntriesUnfold(es: seq<Entry>)
    requires es != [] && RightEntries(es)
    ensures RightEntry(es[0]) && RightEntries(es[1..]) && Meanings(es) == [Meaning(es[0].note)] + Meanings(es[1..])
    ensures SpellEntries(es) == SpellEntry(es[0]) + (if |es| == 1 then "" else "," + SpellEntries(es[1..]))
    ensures ItemsDepth(Meanings(es)) == Max(Nesting(es[0].note), ItemsDepth(Meanings(es[1..])))
  {
    hide RightEntry, Meaning, SpellEntry;
    assert Meanings(es)[1..] == Meanings(es[1..]);
  }

  /** The entries behind the bracket or comma at `off`. */
  lemma {:induction false} EntriesRead(t: string, off: nat, es: seq<Entry>, depth: nat)
    requires es != [] && RightEntries(es) && depth + ItemsDepth(Meanings(es)) <= NESTING_LIMIT && off < |t|
    requires Starts(t, off + 1, SpellEntries(es)) && CharAt(t, off + 1 + |SpellEntries(es)|, ']')
    ensures ParseItems(t, off, depth) == Some((Meanings(es), off + 1 + |SpellEntries(es)|))
    ensures !CharAt(t, Skip(t, off + 1), ']')
    decreases es, 0
  {
    hide ParseValue, ParseItems, Skip, RightEntries, RightEntry, SpellEntries, SpellEntry, Meanings, Meaning, Starts, Spell,
      ItemsDepth;
    var p, e := off + 1, es[0];
    var q := p + |SpellEntry(e)|;
    EntriesUnfold(es);
    if |es| > 1 {
      StartsSplit(t, p, SpellEntry(e), "," + SpellEntries(es[1..]));
      StartsSplit(t, q, ",", SpellEntries(es[1..]));
      StartsAt(t, q, ",", 0);
    } else {
      assert SpellEntry(e) + "" == SpellEntry(e);
    }
    EntryLayout(t, p, e);
    var start := p + |e.before|;
    EntryRight(e);
    SpellFirst(e.note);
    NoteReads(t, start, e.note, depth);
    var end := start + |Spell(e.note)|;
    if |es| > 1 {
      EntriesRead(t, q, es[1..], depth);
      ItemsMore(t, off, depth, start, Meaning(e.note), end, q, Meanings(es[1..]), q + 1 + |SpellEntries(es[1..])|);
    } else {
      assert Meanings(es[1..]) == [] by { NoMeanings(); }
      assert [Meaning(e.note)] + [] == [Meaning(e.note)];
      ItemsLast(t, off, depth, start, Meaning(e.note), end, q);
    }
  }

  lemma EntryRight(e: Entry)
    requires RightEntry(e)
    ensures Right(e.note)
  {
  }

  lemma ItemsLast(t: string, off: nat, depth: nat, start: nat, v: Value, end: nat, q: nat)
    requires depth <= NESTING_LIMIT && off < |t| && Skip(t, off + 1) == start
    requires ParseValue(t, start, depth) == Some((v, end)) && Skip(t, end) == q && CharAt(t, q, ']')
    ensures ParseItems(t, off, depth) == Some(([v], q))
  {
  }

  lemma ItemsMore(t: string, off: nat, depth: nat, start: nat, v: Value, end: nat, q: nat, items: seq<Value>, o: nat)
    requires depth <= NESTING_LIMIT && off < |t| && Skip(t, off + 1) == start
    requires ParseValue(t, start, depth) == Some((v, end)) && Skip(t, end) == q && CharAt(t, q, ',')
    requires ParseItems(t, q, depth) == Some((items, o))
    ensures ParseItems(t, off, depth) == Some(([v] + items, o))
  {
  }

  lemma {:induction false} RecordReads(t: string, off: nat, blank: string, fs: seq<Field>, depth: nat)
    requires IsBlank(blank) && RightFields(fs) && depth + 1 + MembersDepth(Members(fs)) <= NESTING_LIMIT
    requires Starts(t, off, "{" + (if fs == [] then blank else SpellFields(fs)) + "}") && CharAt(t, off, '{')
    ensures ParseObject(t, off, depth)
      == Some((Object(Members(fs)), off + 2 + |if fs == [] then blank else SpellFields(fs)|))
    decreases fs, 1
  {
    hide ParseValue, ParseObject, ParseMembers, Skip, RightFields, SpellFields, Members, IsBlank;
    var body := if fs == [] then blank else SpellFields(fs);
    StartsSplit(t, off, "{" + body, "}");
    StartsSplit(t, off, "{", body);
    StartsAt(t, off + 1 + |body|, "}", 0);
    if fs == [] {
      SkipBlanks(t, off + 1, blank);
      assert Members(fs) == [] by { NoMeanings(); }
      ObjectEmpty(t, off, depth);
    } else {
      FieldsRead(t, off, fs, depth + 1);
      ObjectFrom(t, off, depth, Members(fs), off + 1 + |body|);
    }
  }

  lemma FieldsUnfold(fs: seq<Field>)
    requires fs != [] && RightFields(fs)
    ensures RightField(fs[0]) && RightFields(fs[1..])
    ensures Members(fs) == [Member(fs[0].key, Meaning(fs[0].entry.note))] + Members(fs[1..])
    ensures SpellFields(fs) == SpellField(fs[0]) + (if |fs| == 1 then "" else "," + SpellFields(fs[1..]))
    ensures MembersDepth(Members(fs)) == Max(Nesting(fs[0].entry.note), MembersDepth(Members(fs[1..])))
  {
    hide RightField, Meaning, SpellField;
    assert Members(fs)[1..] == Members(fs[1..]);
  }

  lemma FieldLayout(t: string, p: nat, f: Field)
    requires RightField(f) && Starts(t, p, SpellField(f))
    ensures var k := p + |f.before|;
      var o := k + |f.name| + |f.after|;
      && Skip(t, p) == k && CharAt(t, k, '\"') && ParseString(t, k) == Some((f.key, k + |f.name|))
      && Skip(t, k + |f.name|) == o && CharAt(t, o, ':') && Starts(t, o + 1, SpellEntry(f.entry))
      && RightEntry(f.entry) && |SpellField(f)| == |f.before| + |f.name| + |f.after| + 1 + |SpellEntry(f.entry)|
  {
    hide Skip, Starts, ParseString, RightEntry, SpellEntry, IsQuoted;
    var k := p + |f.before|;
    var o := k + |f.name| + |f.after|;
    StartsSplit(t, p, f.before + f.name + f.after + ":", SpellEntry(f.entry));
    StartsSplit(t, p, f.before + f.name + f.after, ":");
    StartsSplit(t, p, f.before + f.name, f.after);
    StartsSplit(t, p, f.before, f.name);
    StringInside(t, k, f.name, f.key);
    StartsAt(t, k, f.name, 0);
    StartsAt(t, o, ":", 0);
    SkipBlanks(t, p, f.before);
    SkipBlanks(t, k + |f.name|, f.after);
  }

  /** The fields behind the brace or comma at `off`. */
  lemma {:induction false} FieldsRead(t: string, off: nat, fs: seq<Field>, depth: nat)
    requires fs != [] && RightFields(fs) && depth + MembersDepth(Members(fs)) <= NESTING_LIMIT && off < |t|
    requires Starts(t, off + 1, SpellFields(fs)) && CharAt(t, off + 1 + |SpellFields(fs)|, '}')
    ensures ParseMembers(t, off, depth) == Some((Members(fs), off + 1 + |SpellFields(fs)|))
    ensures !CharAt(t, Skip(t, off + 1), '}')
    decreases fs, 0
  {
    hide ParseValue, ParseMember, ParseMembers, ParseString, Skip, RightFields, RightField, RightEntry, SpellFields, SpellField,
      SpellEntry, Members, Meaning, Starts, Spell, MembersDepth, IsQuoted;
    var p, f := off + 1, fs[0];
    var q := p + |SpellField(f)|;
    FieldsUnfold(fs);
    if |fs| > 1 {
      StartsSplit(t, p, SpellField(f), "," + SpellFields(fs[1..]));
      StartsSplit(t, q, ",", SpellFields(fs[1..]));
      StartsAt(t, q, ",", 0);
    } else {
      assert SpellField(f) + "" == SpellField(f);
    }
    FieldLayout(t, p, f);
    var o := p + |f.before| + |f.name| + |f.after|;
    var e := f.entry;
    EntryLayout(t, o + 1, e);
    var start := o + 1 + |e.before|;
    EntryRight(e);
    NoteReads(t, start, e.note, depth);
    var end := start + |Spell(e.note)|;
    MemberReads(t, off, depth, p + |f.before|, f.key, p + |f.before| + |f.name|, o, start, Meaning(e.note), end);
    if |fs| > 1 {
      FieldsRead(t, q, fs[1..], depth);
      MembersMore(t, off, depth, Member(f.key, Meaning(e.note)), end, q, Members(fs[1..]), q + 1 + |SpellFields(fs[1..])|);
    } else {
      assert Members(fs[1..]) == [] by { NoMeanings(); }
      assert [Member(f.key, Meaning(e.note))] + [] == [Member(f.key, Meaning(e.note))];
      MembersLast(t, off, depth, Member(f.key, Meaning(e.note)), end, q);
    }
  }

  lemma MemberReads(t: string, off: nat, depth: nat, k: nat, key: string, a: nat, o: nat, start: nat, v: Value, end: nat)
    requires depth <= NESTING_LIMIT && off < |t| && Skip(t, off + 1) == k && ParseString(t, k) == Some((key, a))
    requires Skip(t, a) == o && CharAt(t, o, ':') && Skip(t, o + 1) == start && ParseValue(t, start, depth) == Some((v, end))
    ensures ParseMember(t, off, depth) == Some((Member(key, v), end))
  {
  }

  lemma MembersLast(t: string, off: nat, depth: nat, m: Member, end: nat, q: nat)
    requires depth <= NESTING_LIMIT && off < |t| && ParseMember(t, off, depth) == Some((m, end))
    requires Skip(t, end) == q && CharAt(t, q, '}')
    ensures ParseMembers(t, off, depth) == Some(([m], q))
  {
  }

  lemma MembersMore(t: string, off: nat, depth: nat, m: Member, end: nat, q: nat, members: seq<Member>, o: nat)
    requires depth <= NESTING_LIMIT && off < |t| && ParseMember(t, off, depth) == Some((m, end))
    requires Skip(t, end) == q && CharAt(t, q, ',') && ParseMembers(t, q, depth) == Some((members, o))
    ensures ParseMembers(t, off, depth) == Some(([m] + members, o))
  {
  }

  const MARK := [0xEF as char, 0xBB as char, 0xBF as char]

  /** A text is read as its structure says, behind blanks and, if there is one, a byte order mark. What
      follows the value is not looked at. */
  lemma TextReads(mark: bool, lead: string, n: Note, tail: string)
    requires IsBlank(lead) && Right(n) && Nesting(n) <= NESTING_LIMIT && (tail != "" ==> !IsNumberChar(tail[0]))
    ensures Parse((if mark then MARK else "") + lead + Spell(n) + tail) == Some(Meaning(n))
  {
    hide ParseValue, Right, Spell, Meaning, Skip, IsBlank;
    var m, x := if mark then MARK else "", Spell(n);
    var s := m + lead + x + tail + [NUL];
    var start := |m| + |lead|;
    SpellFirst(n);
    NotMark(n);
    assert s == m + lead + x + (tail + [NUL]);
    assert Starts(s, |m|, lead) && Starts(s, start, x) && s[start] == x[0];
    MarkSkipped(mark, lead, n, tail + [NUL]);
    SkipBlanks(s, |m|, lead);
    assert s[start + |x|] == (tail + [NUL])[0];
    NoteReads(s, start, n, 0);
  }

  lemma NotMark(n: Note)
    requires Right(n)
    ensures |Spell(n)| > 0 && Spell(n)[0] as int != 0xEF
  {
    hide Strtod, Unescape, CStr, ScanEnd, SpellEntries, SpellFields;
    if n.Scalar? && n.value.String? {
      assert n.text[0] == '\"';
    }
  }

  lemma MarkSkipped(mark: bool, lead: string, n: Note, rest: string)
    requires IsBlank(lead) && Right(n) && rest != ""
    ensures BomEnd((if mark then MARK else "") + lead + Spell(n) + rest) == if mark then 3 else 0
  {
    hide Right, Spell;
    NotMark(n);
    var s := (if mark then MARK else "") + lead + Spell(n) + rest;
    if mark {
      assert s[0] == MARK[0] && s[1] == MARK[1] && s[2] == MARK[2];
    } else if lead != "" {
      assert s[0] == lead[0];
    } else {
      assert s[0] == Spell(n)[0];
    }
  }

  // ---------------------------------------------------------------- what is read is spelled

  lemma {:induction false} DigitsEndPrefix(t: string, i: nat, k: nat)
    requires i <= k <= |t|
    ensures DigitsEnd(t[..k], i) == if DigitsEnd(t, i) < k then DigitsEnd(t, i) else k
    decreases k - i
  {
    if i < k && IsDigit(t[i]) { DigitsEndPrefix(t, i + 1, k); }
  }

  // The places strtod stops at: behind the sign, the digits, the fraction, the sign of the exponent and
  // the exponent.

  function SignEnd(t: string): (i: nat)
    ensures i <= |t|
  {
    if |t| > 0 && (t[0] == '-' || t[0] == '+') then 1 else 0
  }

  function WholeEnd(t: string): (j: nat)
    ensures SignEnd(t) <= j <= |t|
  {
    DigitsEnd(t, SignEnd(t))
  }

  function FractionEnd(t: string): (k: nat)
    ensures WholeEnd(t) <= k <= |t|
  {
    var j := WholeEnd(t);
    if j < |t| && t[j] == '.' then DigitsEnd(t, j + 1) else j
  }

  function PowerStart(t: string): (y: nat)
    ensures FractionEnd(t) <= y <= |t|
  {
    var k := FractionEnd(t);
    var x := if k < |t| && (t[k] == 'e' || t[k] == 'E') then k + 1 else k;
    if k < x < |t| && (t[x] == '-' || t[x] == '+') then x + 1 else x
  }

  function PowerEnd(t: string): (z: nat)
    ensures FractionEnd(t) <= z <= |t| && (z > PowerStart(t) ==> PowerStart(t) > FractionEnd(t))
  {
    var k := FractionEnd(t);
    if k < |t| && (t[k] == 'e' || t[k] == 'E') then DigitsEnd(t, PowerStart(t)) else k
  }

  /** strtod by these places. */
  lemma StrtodParts(t: string)
    ensures var i, j, k, y, z := SignEnd(t), WholeEnd(t), FractionEnd(t), PowerStart(t), PowerEnd(t);
      var fraction := if k > j then t[j + 1..k] else "";
      if j == i && fraction == "" then Strtod(t) == (0.0, 0)
      else
        var m := DigitsVal(t[i..j]) as real + DigitsVal(fraction) as real / Pow10(|fraction|);
        Strtod(t) == (Scale(if |t| > 0 && t[0] == '-' then -m else m,
                            if z > y then DigitsVal(t[y..z]) * (if t[k + 1] == '-' then -1 else 1) else 0),
                      if z > y then z else k)
  {
    hide DigitsVal, Scale, Pow10, DigitsEnd;
  }

  lemma PrefixEnds(t: string, e: nat)
    requires FractionEnd(t) <= e <= |t| && e > 0
    ensures SignEnd(t[..e]) == SignEnd(t) && WholeEnd(t[..e]) == WholeEnd(t) && FractionEnd(t[..e]) == FractionEnd(t)
  {
    hide DigitsEnd;
    var j := WholeEnd(t);
    DigitsEndPrefix(t, SignEnd(t), e);
    if j < |t| && t[j] == '.' { DigitsEndPrefix(t, j + 1, e); }
  }

  lemma PrefixPower(t: string, e: nat)
    requires FractionEnd(t) <= e <= |t| && e > 0
    ensures e == FractionEnd(t) ==> PowerEnd(t[..e]) == e && PowerStart(t[..e]) == e
    ensures e == PowerEnd(t) > PowerStart(t) ==> PowerEnd(t[..e]) == e && PowerStart(t[..e]) == PowerStart(t)
  {
    hide DigitsEnd, FractionEnd;
    PrefixEnds(t, e);
    if e == PowerEnd(t) > PowerStart(t) { DigitsEndPrefix(t, PowerStart(t), e); }
  }

  lemma PrefixSlice(t: string, e: nat, a: nat, b: nat)
    requires a <= b <= e <= |t|
    ensures t[..e][a..b] == t[a..b]
  {
  }

  /** strtod does not look behind the number. */
  lemma StrtodPrefix(t: string)
    requires Strtod(t).1 > 0
    ensures Strtod(t[..Strtod(t).1]) == Strtod(t)
  {
    hide DigitsVal, Scale, Pow10, Strtod, SignEnd, WholeEnd, FractionEnd, PowerStart, PowerEnd;
    StrtodParts(t);
    var e := Strtod(t).1;
    var p := t[..e];
    StrtodParts(p);
    PrefixEnds(t, e);
    PrefixPower(t, e);
    var i, j, k, y, z := SignEnd(t), WholeEnd(t), FractionEnd(t), PowerStart(t), PowerEnd(t);
    assert k <= e && (z > y ==> z == e);
    PrefixSlice(t, e, i, j);
    if k > j { PrefixSlice(t, e, j + 1, k); }
    if z > y { PrefixSlice(t, e, y, z); }
  }

  lemma NumberUnderstood(t: string, off: nat)
    requires off < |t| && (t[off] == '-' || IsDigit(t[off])) && ParseNumber(t, off).Some?
    ensures var r := ParseNumber(t, off).value;
      r.0.Number? && IsNumeral(t[off..r.1], r.0.n) && Starts(t, off, t[off..r.1])
  {
    hide Strtod, IsNumberChar;
    var end := NumberEnd(t, off, 63);
    var run := t[off..end];
    var k := Strtod(run).1;
    StrtodPrefix(run);
    var text := t[off..off + k];
    assert run[..k] == text;
    RunIsNumber(t, off, 63);
    assert forall i :: 0 <= i < k ==> text[i] == t[off + i];
  }

  lemma {:induction false} RunIsNumber(t: string, p: nat, room: nat)
    requires p <= |t|
    ensures forall i :: p <= i < NumberEnd(t, p, room) ==> IsNumberChar(t[i])
    decreases room
  {
    if room > 0 && p < |t| && IsNumberChar(t[p]) { RunIsNumber(t, p + 1, room - 1); }
  }

  lemma {:induction false} ScanEndCut(t: string, off: nat, e: nat, p: nat)
    requires off + p <= e <= |t| && ScanEnd(t, off + p).Some? && ScanEnd(t, off + p).value < e
    ensures ScanEnd(t[off..e], p) == Some(ScanEnd(t, off + p).value - off)
    decreases |t| - p
  {
    if t[off + p] == '\\' {
      ScanEndCut(t, off, e, p + 2);
    } else if t[off + p] != '\"' {
      ScanEndCut(t, off, e, p + 1);
    }
  }

  lemma StringUnderstood(t: string, off: nat)
    requires ParseString(t, off).Some?
    ensures var r := ParseString(t, off).value;
      off < r.1 <= |t| && IsQuoted(t[off..r.1], r.0) && Starts(t, off, t[off..r.1])
  {
    hide ScanEnd, Unescape, CStr;
    var e := ParseString(t, off).value.1;
    var text := t[off..e];
    ScanEndCut(t, off, e, 1);
    UnescapeInside(t, off, text, 1, e - 1 - off);
  }

  lemma {:induction false} SkipToBlank(t: string, a: nat)
    requires a <= |t|
    ensures forall i :: a <= i < SkipTo(t, a) ==> t[i] <= ' '
    decreases |t| - a
  {
    if a < |t| && t[a] <= ' ' { SkipToBlank(t, a + 1); }
  }

  /** Between two tokens there are blanks only. */
  lemma SkippedBlank(t: string, a: nat)
    requires Skip(t, a) < |t| && t[Skip(t, a)] > ' '
    ensures a <= Skip(t, a) && IsBlank(t[a..Skip(t, a)]) && Starts(t, a, t[a..Skip(t, a)])
  {
    SkipToBlank(t, a);
  }

  lemma {:induction false} ValueUnderstood(t: string, off: nat, depth: nat) returns (n: Note)
    requires depth <= NESTING_LIMIT && ParseValue(t, off, depth).Some?
    ensures Right(n) && depth + Nesting(n) <= NESTING_LIMIT && Starts(t, off, Spell(n))
    ensures ParseValue(t, off, depth) == Some((Meaning(n), off + |Spell(n)|))
    decreases NESTING_LIMIT - depth, |t| - off, 1
  {
    hide ParseArray, ParseObject, ParseString, ParseNumber, IsNumeral, IsQuoted, RightEntries, RightFields, SpellEntries,
      SpellFields, Meanings, Members, ItemsDepth, MembersDepth;
    var (v, e) := ParseValue(t, off, depth).value;
    if Starts(t, off, "null") {
      n := Scalar("null", Null);
    } else if Starts(t, off, "false") {
      n := Scalar("false", Bool(false));
    } else if Starts(t, off, "true") {
      n := Scalar("true", Bool(true));
    } else if CharAt(t, off, '\"') {
      StringUnderstood(t, off);
      n := Scalar(t[off..e], v);
    } else if t[off] == '-' || IsDigit(t[off]) {
      NumberUnderstood(t, off);
      n := Scalar(t[off..e], v);
    } else if CharAt(t, off, '[') {
      n := ListUnderstood(t, off, depth);
    } else {
      n := RecordUnderstood(t, off, depth);
    }
  }

  lemma {:induction false} ListUnderstood(t: string, off: nat, depth: nat) returns (n: Note)
    requires depth <= NESTING_LIMIT && CharAt(t, off, '[') && ParseArray(t, off, depth).Some?
    ensures Right(n) && depth + Nesting(n) <= NESTING_LIMIT && Starts(t, off, Spell(n))
    ensures ParseArray(t, off, depth) == Some((Meaning(n), off + |Spell(n)|))
    decreases NESTING_LIMIT - depth, |t| - off, 0
  {
    hide ParseValue, ParseItems, Skip, Starts, SpellEntries, Meanings, RightEntries, IsBlank, ItemsDepth;
    var q := Skip(t, off + 1);
    if CharAt(t, q, ']') {
      SkippedBlank(t, off + 1);
      n := List(t[off + 1..q], []);
      NoMeanings();
      BracketsStart(t, off, "[", t[off + 1..q], "]");
      NoneRight();
    } else {
      var es := EntriesUnderstood(t, off, depth + 1);
      n := List("", es);
      BracketsStart(t, off, "[", SpellEntries(es), "]");
      NothingBlank();
    }
  }

  lemma NoneRight()
    ensures RightEntries([]) && RightFields([]) && ItemsDepth([]) == 0 && MembersDepth([]) == 0
  {
  }

  lemma NothingBlank()
    ensures IsBlank("")
  {
  }

  lemma BracketsStart(t: string, off: nat, open: string, body: string, close: string)
    requires |open| == |close| == 1 && CharAt(t, off, open[0]) && Starts(t, off + 1, body)
    requires CharAt(t, off + 1 + |body|, close[0])
    ensures Starts(t, off, open + body + close)
  {
    assert Starts(t, off, open) && Starts(t, off + 1 + |body|, close);
    StartsSplit(t, off, open, body);
    StartsSplit(t, off, open + body, close);
  }

  /** A value with the blanks around it. */
  lemma {:induction false} EntryUnderstood(t: string, a: nat, depth: nat) returns (e: Entry)
    requires depth <= NESTING_LIMIT && ParseValue(t, Skip(t, a), depth).Some?
    requires var q := Skip(t, ParseValue(t, Skip(t, a), depth).value.1); q < |t| && t[q] > ' '
    ensures RightEntry(e) && depth + Nesting(e.note) <= NESTING_LIMIT && Starts(t, a, SpellEntry(e))
    ensures ParseValue(t, Skip(t, a), depth).value.0 == Meaning(e.note)
    ensures Skip(t, ParseValue(t, Skip(t, a), depth).value.1) == a + |SpellEntry(e)|
    decreases NESTING_LIMIT - depth, |t| - a, 2
  {
    hide ParseValue, Skip, Starts, Right, Spell, Meaning, IsBlank;
    var start := Skip(t, a);
    var n := ValueUnderstood(t, start, depth);
    var end := start + |Spell(n)|;
    var q := Skip(t, end);
    SpellFirst(n);
    StartsAt(t, start, Spell(n), 0);
    SkippedBlank(t, a);
    SkippedBlank(t, end);
    e := Entry(t[a..start], n, t[end..q]);
    StartsSplit(t, a, e.before, Spell(n));
    StartsSplit(t, a, e.before + Spell(n), e.after);
  }

  lemma {:induction false} EntriesUnderstood(t: string, off: nat, depth: nat) returns (es: seq<Entry>)
    requires depth <= NESTING_LIMIT && off < |t| && ParseItems(t, off, depth).Some?
    requires CharAt(t, ParseItems(t, off, depth).value.1, ']')
    ensures es != [] && RightEntries(es) && depth + ItemsDepth(Meanings(es)) <= NESTING_LIMIT
    ensures Starts(t, off + 1, SpellEntries(es))
    ensures ParseItems(t, off, depth) == Some((Meanings(es), off + 1 + |SpellEntries(es)|))
    decreases NESTING_LIMIT - depth, |t| - off, 0
  {
    hide ParseValue, Skip, Starts, Spell, Meaning, RightEntry, SpellEntry, ItemsDepth, SpellEntries, Meanings, RightEntries;
    var e := EntryUnderstood(t, off + 1, depth);
    var q := off + 1 + |SpellEntry(e)|;
    if CharAt(t, q, ',') {
      var rest := EntriesUnderstood(t, q, depth);
      es := [e] + rest;
      EntriesFolded(e, rest);
      assert Starts(t, q, ",") by { CharStarts(t, q, ","); }
      StartsSplit(t, q, ",", SpellEntries(rest));
      StartsSplit(t, off + 1, SpellEntry(e), "," + SpellEntries(rest));
    } else {
      es := [e];
      EntriesFolded(e, []);
      assert [e] + [] == [e] && SpellEntry(e) + "" == SpellEntry(e);
      assert [Meaning(e.note)] + [] == [Meaning(e.note)];
    }
  }

  lemma CharStarts(t: string, q: nat, c: string)
    requires |c| == 1 && CharAt(t, q, c[0])
    ensures Starts(t, q, c)
  {
  }

  lemma EntriesFolded(e: Entry, rest: seq<Entry>)
    requires RightEntry(e) && RightEntries(rest)
    ensures RightEntries([e] + rest) && Meanings([e] + rest) == [Meaning(e.note)] + Meanings(rest)
    ensures SpellEntries([e] + rest) == SpellEntry(e) + if rest == [] then "" else "," + SpellEntries(rest)
    ensures ItemsDepth(Meanings([e] + rest)) == Max(Nesting(e.note), ItemsDepth(Meanings(rest)))
    ensures Meanings([]) == [] && ItemsDepth([]) == 0
  {
    assert ([e] + rest)[1..] == rest;
    EntriesUnfold([e] + rest);
  }

  lemma {:induction false} RecordUnderstood(t: string, off: nat, depth: nat) returns (n: Note)
    requires depth <= NESTING_LIMIT && CharAt(t, off, '{') && ParseObject(t, off, depth).Some?
    ensures Right(n) && depth + Nesting(n) <= NESTING_LIMIT && Starts(t, off, Spell(n))
    ensures ParseObject(t, off, depth) == Some((Meaning(n), off + |Spell(n)|))
    decreases NESTING_LIMIT - depth, |t| - off, 0
  {
    hide ParseValue, ParseMembers, Skip, Starts, SpellFields, Members, RightFields, IsBlank, MembersDepth;
    var q := Skip(t, off + 1);
    if CharAt(t, q, '}') {
      SkippedBlank(t, off + 1);
      n := Record(t[off + 1..q], []);
      NoMeanings();
      BracketsStart(t, off, "{", t[off + 1..q], "}");
      NoneRight();
    } else {
      var fs := FieldsUnderstood(t, off, depth + 1);
      n := Record("", fs);
      BracketsStart(t, off, "{", SpellFields(fs), "}");
      NothingBlank();
    }
  }

  lemma {:induction false} FieldUnderstood(t: string, off: nat, depth: nat) returns (f: Field)
    requires depth <= NESTING_LIMIT && off < |t| && ParseMember(t, off, depth).Some?
    requires var q := Skip(t, ParseMember(t, off, depth).value.1); q < |t| && t[q] > ' '
    ensures RightField(f) && depth + Nesting(f.entry.note) <= NESTING_LIMIT && Starts(t, off + 1, SpellField(f))
    ensures ParseMember(t, off, depth).value.0 == Member(f.key, Meaning(f.entry.note))
    ensures Skip(t, ParseMember(t, off, depth).value.1) == off + 1 + |SpellField(f)|
    decreases NESTING_LIMIT - depth, |t| - off, 3
  {
    hide ParseValue, ParseString, Skip, Starts, Spell, Meaning, SpellEntry, RightEntry, IsBlank, IsQuoted;
    var k := Skip(t, off + 1);
    var (key, a) := ParseString(t, k).value;
    var o := Skip(t, a);
    var e := EntryUnderstood(t, o + 1, depth);
    StringUnderstood(t, k);
    QuoteAt(t, k);
    SkippedBlank(t, off + 1);
    SkippedBlank(t, a);
    f := Field(t[off + 1..k], t[k..a], key, t[a..o], e);
    CharStarts(t, o, ":");
    StartsSplit(t, off + 1, f.before, f.name);
    StartsSplit(t, off + 1, f.before + f.name, f.after);
    StartsSplit(t, off + 1, f.before + f.name + f.after, ":");
    StartsSplit(t, off + 1, f.before + f.name + f.after + ":", SpellEntry(e));
  }

  lemma QuoteAt(t: string, k: nat)
    requires ParseString(t, k).Some?
    ensures CharAt(t, k, '\"')
  {
  }

  lemma {:induction false} FieldsUnderstood(t: string, off: nat, depth: nat) returns (fs: seq<Field>)
    requires depth <= NESTING_LIMIT && off < |t| && ParseMembers(t, off, depth).Some?
    requires CharAt(t, ParseMembers(t, off, depth).value.1, '}')
    ensures fs != [] && RightFields(fs) && depth + MembersDepth(Members(fs)) <= NESTING_LIMIT
    ensures Starts(t, off + 1, SpellFields(fs))
    ensures ParseMembers(t, off, depth) == Some((Members(fs), off + 1 + |SpellFields(fs)|))
    decreases NESTING_LIMIT - depth, |t| - off, 4
  {
    hide ParseMember, Skip, Starts, Spell, Meaning, RightField, SpellField, MembersDepth, SpellFields, Members, RightFields;
    var f := FieldUnderstood(t, off, depth);
    var q := off + 1 + |SpellField(f)|;
    if CharAt(t, q, ',') {
      var rest := FieldsUnderstood(t, q, depth);
      fs := [f] + rest;
      FieldsFolded(f, rest);
      CharStarts(t, q, ",");
      StartsSplit(t, q, ",", SpellFields(rest));
      StartsSplit(t, off + 1, SpellField(f), "," + SpellFields(rest));
    } else {
      fs := [f];
      FieldsFolded(f, []);
      assert [f] + [] == [f] && SpellField(f) + "" == SpellField(f);
      assert [Member(f.key, Meaning(f.entry.note))] + [] == [Member(f.key, Meaning(f.entry.note))];
    }
  }

  lemma FieldsFolded(f: Field, rest: seq<Field>)
    requires RightField(f) && RightFields(rest)
    ensures RightFields([f] + rest) && Members([f] + rest) == [Member(f.key, Meaning(f.entry.note))] + Members(rest)
    ensures SpellFields([f] + rest) == SpellField(f) + if rest == [] then "" else "," + SpellFields(rest)
    ensures MembersDepth(Members([f] + rest)) == Max(Nesting(f.entry.note), MembersDepth(Members(rest)))
    ensures Members([]) == [] && MembersDepth([]) == 0
  {
    assert ([f] + rest)[1..] == rest;
    FieldsUnfold([f] + rest);
  }

  lemma SpellLast(n: Note)
    requires Right(n)
    ensures |Spell(n)| > 0 && Spell(n)[|Spell(n)| - 1] != NUL
  {
    hide Strtod, Unescape, CStr, ScanEnd, SpellEntries, SpellFields;
    SpellFirst(n);
    if n.Scalar? && n.value.Number? {
      assert IsNumberChar(n.text[|n.text| - 1]);
    } else if n.Scalar? && n.value.String? {
      assert n.text[|n.text| - 1] == '\"';
    }
  }

  /** A text that is accepted has such a structure, is nested at most as deeply as the limit, and stands
      for what is read: nothing else is accepted. */
  lemma TextUnderstood(text: string) returns (mark: bool, lead: string, n: Note, tail: string)
    requires Parse(text).Some?
    ensures IsBlank(lead) && Right(n) && Nesting(n) <= NESTING_LIMIT && Parse(text) == Some(Meaning(n))
    ensures text == (if mark then MARK else "") + lead + Spell(n) + tail
  {
    hide ParseValue, Right, Spell, Meaning, Skip, IsBlank, BomEnd;
    var s := text + [NUL];
    var b := BomEnd(s);
    mark := b == 3;
    var start := Skip(s, b);
    n := ValueUnderstood(s, start, 0);
    SpellFirst(n);
    SpellLast(n);
    var end := start + |Spell(n)|;
    InText(text, start, end);
    SkippedBlank(s, b);
    lead := s[b..start];
    tail := text[end..];
    MarkOf(s);
    Cut(text, b, start, end);
  }

  lemma MarkOf(s: string)
    ensures BomEnd(s) <= |s| && s[..BomEnd(s)] == if BomEnd(s) == 3 then MARK else ""
  {
  }

  lemma Cut(text: string, b: nat, start: nat, end: nat)
    requires b <= start <= end <= |text|
    ensures var s := text + [NUL]; text == s[..b] + s[b..start] + s[start..end] + text[end..]
  {
  }

  lemma InText(text: string, start: nat, end: nat)
    requires start < end <= |text + [NUL]| && (text + [NUL])[end - 1] != NUL
    ensures end <= |text|
  {
  }
}
