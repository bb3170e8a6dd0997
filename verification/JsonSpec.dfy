/**
 What the recursive-descent parser of src/cJSON.c computes, as functions of the text and the
 offset. A parse gives the value and the offset behind it, or None.
*/
module JsonSpec {
  import opened JsonText

  datatype Option<+T> = None | Some(value: T)

  // ---------------------------------------------------------------- hexadecimal and UTF-8

  function HexVal(c: char): Option<nat> {
    if '0' <= c <= '9' then Some(c as int - '0' as int)
    else if 'A' <= c <= 'F' then Some(10 + c as int - 'A' as int)
    else if 'a' <= c <= 'f' then Some(10 + c as int - 'a' as int)
    else None
  }

  /** parse_hex4: zero when a digit is malformed. */
  function Hex4(s: string, p: nat): (h: nat)
    requires p + 4 <= |s|
    ensures h < 0x1_0000
  {
    var a, b, c, d := HexVal(s[p]), HexVal(s[p + 1]), HexVal(s[p + 2]), HexVal(s[p + 3]);
    if a.Some? && b.Some? && c.Some? && d.Some?
    then ((a.value * 16 + b.value) * 16 + c.value) * 16 + d.value
    else 0
  }

  function Byte(n: nat): char
    requires n < 256
  {
    n as char
  }

  /** The UTF-8 form of a code point (section 3 of RFC 3629). */
  function Utf8(cp: nat): (b: string)
    requires cp < 0x11_0000
    ensures 1 <= |b| <= 4
  {
    if cp < 0x80 then [Byte(cp)]
    else if cp < 0x800 then [Byte(0xC0 + cp / 0x40), Byte(0x80 + cp % 0x40)]
    else if cp < 0x1_0000 then
      [Byte(0xE0 + cp / 0x1000), Byte(0x80 + cp / 0x40 % 0x40), Byte(0x80 + cp % 0x40)]
    else
      [Byte(0xF0 + cp / 0x4_0000), Byte(0x80 + cp / 0x1000 % 0x40), Byte(0x80 + cp / 0x40 % 0x40), Byte(0x80 + cp % 0x40)]
  }

  /** A decoded escape: its code point and its length in the text. */
  datatype Unit = Unit(cp: nat, len: nat)

  /** The code point of the \uXXXX escape, or pair of escapes, at `p` before `end`. */
  function Utf16(s: string, p: nat, end: nat): (r: Option<Unit>)
    requires p <= end <= |s|
    ensures r.Some? ==> r.value.cp < 0x11_0000 && r.value.len in {6, 12} && p + r.value.len <= end
  {
    if end - p < 6 then None
    else
      var first := Hex4(s, p + 2);
      if 0xDC00 <= first <= 0xDFFF then None
      else if 0xD800 <= first <= 0xDBFF then
        if end - (p + 6) < 6 then None
        else if s[p + 6] != '\\' || s[p + 7] != 'u' then None
        else
          var second := Hex4(s, p + 8);
          if second < 0xDC00 || second > 0xDFFF then None
          else Some(Unit(0x1_0000 + first % 0x400 * 0x400 + second % 0x400, 12))
      else Some(Unit(first, 6))
  }

  // ---------------------------------------------------------------- strings

  /** First pass: the closing quote, seen from `p`. */
  function ScanEnd(s: string, p: nat): (r: Option<nat>)
    ensures r.Some? ==> p <= r.value < |s| && s[r.value] == '\"'
    decreases |s| - p
  {
    if p >= |s| then None
    else if s[p] == '\"' then Some(p)
    else if s[p] == '\\' then (if p + 1 >= |s| then None else ScanEnd(s, p + 2))
    else ScanEnd(s, p + 1)
  }

  function Unletter(c: char): Option<char> {
    match c
    case 'b' => Some(BACKSPACE)
    case 'f' => Some(FORMFEED)
    case 'n' => Some('\n')
    case 'r' => Some('\r')
    case 't' => Some('\t')
    case _ => if c == '\"' || c == '\\' || c == '/' then Some(c) else None
  }

  /** Second pass: the bytes of the text from `p` up to `end`. */
  function Unescape(s: string, p: nat, end: nat): Option<string>
    requires end < |s|
    decreases end - p
  {
    if p >= end then Some("")
    else if s[p] != '\\' then Prepend([s[p]], Unescape(s, p + 1, end))
    else if s[p + 1] == 'u' then
      match Utf16(s, p, end)
      case None => None
      case Some(u) => Prepend(Utf8(u.cp), Unescape(s, p + u.len, end))
    else
      match Unletter(s[p + 1])
      case None => None
      case Some(c) => Prepend([c], Unescape(s, p + 2, end))
  }

  function Prepend(a: string, r: Option<string>): Option<string> {
    if r.None? then None else Some(a + r.value)
  }

  /** What C sees of a buffer: the bytes before the first NUL. */
  function CStr(b: string): string {
    if b == [] || b[0] == NUL then [] else [b[0]] + CStr(b[1..])
  }

  /** parse_string at an opening quote. */
  function ParseString(s: string, off: nat): (r: Option<(string, nat)>)
    ensures r.Some? ==> off < r.value.1 <= |s|
  {
    if off >= |s| || s[off] != '\"' then None
    else
      match ScanEnd(s, off + 1)
      case None => None
      case Some(end) =>
        match Unescape(s, off + 1, end)
        case None => None
        case Some(b) => Some((CStr(b), end + 1))
  }

  // ---------------------------------------------------------------- numbers

  predicate IsNumberChar(c: char) {
    IsDigit(c) || c == '+' || c == '-' || c == 'e' || c == 'E' || c == '.'
  }

  /** The end of the run of number characters, at most `room` of them. */
  function NumberEnd(s: string, p: nat, room: nat): (e: nat)
    ensures p <= e <= p + room && (p <= |s| ==> e <= |s|)
    decreases room
  {
    if room > 0 && p < |s| && IsNumberChar(s[p]) then NumberEnd(s, p + 1, room - 1) else p
  }

  function DigitsEnd(t: string, i: nat): (e: nat)
    requires i <= |t|
    ensures i <= e <= |t|
    decreases |t| - i
  {
    if i < |t| && IsDigit(t[i]) then DigitsEnd(t, i + 1) else i
  }

  function DigitsVal(t: string): nat {
    if t == [] then 0
    else DigitsVal(t[..|t| - 1]) * 10 + (if IsDigit(t[|t| - 1]) then t[|t| - 1] as int - '0' as int else 0)
  }

  function Pow10(n: nat): (r: real)
    ensures r >= 1.0
  {
    if n == 0 then 1.0 else 10.0 * Pow10(n - 1)
  }

  function Scale(m: real, e: int): real {
    if e >= 0 then m * Pow10(e) else m / Pow10(-e)
  }

  /** strtod on a run of number characters: the value of the longest number it starts with, and
      that number's length (zero if there is none). The value is exact: no rounding. */
  function Strtod(t: string): (r: (real, nat))
    ensures r.1 <= |t|
  {
    var neg := |t| > 0 && t[0] == '-';
    var i := if |t| > 0 && (t[0] == '-' || t[0] == '+') then 1 else 0;
    var j := DigitsEnd(t, i);
    var k := if j < |t| && t[j] == '.' then DigitsEnd(t, j + 1) else j;
    var fraction := if k > j then t[j + 1..k] else "";
    if j == i && fraction == "" then (0.0, 0)
    else
      var x := if k < |t| && (t[k] == 'e' || t[k] == 'E') then k + 1 else k;
      var y := if k < x < |t| && (t[x] == '-' || t[x] == '+') then x + 1 else x;
      var z := if k < x then DigitsEnd(t, y) else k;
      var exponent := if z > y then DigitsVal(t[y..z]) * (if t[x] == '-' then -1 else 1) else 0;
      var m := DigitsVal(t[i..j]) as real + DigitsVal(fraction) as real / Pow10(|fraction|);
      (Scale(if neg then -m else m, exponent), if z > y then z else k)
  }

  /** parse_number: at most 63 characters are looked at. */
  function ParseNumber(s: string, off: nat): (r: Option<(Value, nat)>)
    requires off <= |s|
    ensures r.Some? ==> off < r.value.1 <= |s|
  {
    var d := Strtod(s[off..NumberEnd(s, off, 63)]);
    if d.1 == 0 then None else Some((Number(d.0), off + d.1))
  }

  /** The valueint field: saturating, otherwise truncated toward zero. */
  function ValueInt(d: real): int {
    if d >= INT_MAX as real then INT_MAX
    else if d <= INT_MIN as real then INT_MIN
    else if d < 0.0 then -((-d).Floor) else d.Floor
  }

  // ---------------------------------------------------------------- values

  /** buffer_skip_whitespace: everything up to the space counts, even NUL, but the offset stays
      inside the text. */
  function SkipTo(s: string, off: nat): (o: nat)
    requires off <= |s|
    ensures off <= o <= |s| && (o < |s| ==> s[o] > ' ')
    decreases |s| - off
  {
    if off < |s| && s[off] <= ' ' then SkipTo(s, off + 1) else off
  }

  function Skip(s: string, off: nat): (o: nat)
    ensures off <= o && (off <= |s| ==> o <= |s|) && (off < |s| ==> o < |s|)
  {
    if off >= |s| then off
    else
      var o := SkipTo(s, off);
      if o == |s| then o - 1 else o
  }

  predicate Starts(s: string, off: nat, word: string) {
    off + |word| <= |s| && s[off..off + |word|] == word
  }

  predicate CharAt(s: string, off: nat, c: char) {
    off < |s| && s[off] == c
  }

  function ParseValue(s: string, off: nat, depth: nat): (r: Option<(Value, nat)>)
    requires depth <= NESTING_LIMIT
    ensures r.Some? ==> off < r.value.1 <= |s|
    decreases NESTING_LIMIT - depth, |s| - off, 1
  {
    if Starts(s, off, "null") then Some((Null, off + 4))
    else if Starts(s, off, "false") then Some((Bool(false), off + 5))
    else if Starts(s, off, "true") then Some((Bool(true), off + 4))
    else if CharAt(s, off, '\"') then
      match ParseString(s, off)
      case None => None
      case Some(r) => Some((String(r.0), r.1))
    else if off < |s| && (s[off] == '-' || IsDigit(s[off])) then ParseNumber(s, off)
    else if CharAt(s, off, '[') then ParseArray(s, off, depth)
    else if CharAt(s, off, '{') then ParseObject(s, off, depth)
    else None
  }

  function ParseArray(s: string, off: nat, depth: nat): (r: Option<(Value, nat)>)
    requires depth <= NESTING_LIMIT && CharAt(s, off, '[')
    ensures r.Some? ==> off < r.value.1 <= |s|
    decreases NESTING_LIMIT - depth, |s| - off, 0
  {
    if depth >= NESTING_LIMIT then None
    else if CharAt(s, Skip(s, off + 1), ']') then Some((Array([]), Skip(s, off + 1) + 1))
    else
      match ParseItems(s, off, depth + 1)
      case None => None
      case Some(r) => if CharAt(s, r.1, ']') then Some((Array(r.0), r.1 + 1)) else None
  }

  /** The elements behind the bracket or comma at `off`; the offset is that of what follows
      the last one. */
  function ParseItems(s: string, off: nat, depth: nat): (r: Option<(seq<Value>, nat)>)
    requires depth <= NESTING_LIMIT && off < |s|
    ensures r.Some? ==> off < r.value.1 && |r.value.0| > 0
    decreases NESTING_LIMIT - depth, |s| - off, 0
  {
    match ParseValue(s, Skip(s, off + 1), depth)
    case None => None
    case Some(v) =>
      var o := Skip(s, v.1);
      if CharAt(s, o, ',') then
        match ParseItems(s, o, depth)
        case None => None
        case Some(r) => Some(([v.0] + r.0, r.1))
      else Some(([v.0], o))
  }

  function ParseObject(s: string, off: nat, depth: nat): (r: Option<(Value, nat)>)
    requires depth <= NESTING_LIMIT && CharAt(s, off, '{')
    ensures r.Some? ==> off < r.value.1 <= |s|
    decreases NESTING_LIMIT - depth, |s| - off, 0
  {
    if depth >= NESTING_LIMIT then None
    else if CharAt(s, Skip(s, off + 1), '}') then Some((Object([]), Skip(s, off + 1) + 1))
    else
      match ParseMembers(s, off, depth + 1)
      case None => None
      case Some(r) => if CharAt(s, r.1, '}') then Some((Object(r.0), r.1 + 1)) else None
  }

  /** The value behind the colon at `o`. */
  function ParseMember(s: string, off: nat, depth: nat): (r: Option<(Member, nat)>)
    requires depth <= NESTING_LIMIT && off < |s|
    ensures r.Some? ==> off < r.value.1 <= |s|
    decreases NESTING_LIMIT - depth, |s| - off, 0
  {
    match ParseString(s, Skip(s, off + 1))
    case None => None
    case Some(k) =>
      var o := Skip(s, k.1);
      if !CharAt(s, o, ':') then None
      else
        match ParseValue(s, Skip(s, o + 1), depth)
        case None => None
        case Some(v) => Some((Member(k.0, v.0), v.1))
  }

  function ParseMembers(s: string, off: nat, depth: nat): (r: Option<(seq<Member>, nat)>)
    requires depth <= NESTING_LIMIT && off < |s|
    ensures r.Some? ==> off < r.value.1 && |r.value.0| > 0
    decreases NESTING_LIMIT - depth, |s| - off, 1
  {
    match ParseMember(s, off, depth)
    case None => None
    case Some(m) =>
      var o := Skip(s, m.1);
      if CharAt(s, o, ',') then
        match ParseMembers(s, o, depth)
        case None => None
        case Some(r) => Some(([m.0] + r.0, r.1))
      else Some(([m.0], o))
  }

  /** skip_utf8_bom. */
  function BomEnd(s: string): nat {
    if |s| > 4 && s[0] == Byte(0xEF) && s[1] == Byte(0xBB) && s[2] == Byte(0xBF) then 3 else 0
  }

  /** cJSON_Parse of a C string: the parser also sees the terminating NUL. Text behind the
      value is not looked at. */
  function Parse(text: string): Option<Value> {
    var s := text + [NUL];
    match ParseValue(s, Skip(s, BomEnd(s)), 0)
    case None => None
    case Some(r) => Some(r.0)
  }
}
