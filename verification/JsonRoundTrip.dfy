/**
 Parsing what the printer prints: the tree comes back, keys and order intact.
*/
module JsonRoundTrip {
  import opened JsonText
  import opened JsonSpec

  lemma StartsSplit(t: string, off: nat, a: string, b: string)
    ensures Starts(t, off, a + b) <==> Starts(t, off, a) && Starts(t, off + |a|, b)
  {
    if Starts(t, off, a + b) {
      assert t[off..off + |a|] == (a + b)[..|a|] == a;
      assert t[off + |a|..off + |a| + |b|] == (a + b)[|a|..] == b;
    }
    if Starts(t, off, a) && Starts(t, off + |a|, b) {
      assert t[off..off + |a| + |b|] == t[off..off + |a|] + t[off + |a|..off + |a| + |b|];
    }
  }

  lemma StartsAt(t: string, off: nat, a: string, i: nat)
    requires Starts(t, off, a) && i < |a|
    ensures off + i < |t| && t[off + i] == a[i]
  {
    assert t[off..off + |a|][i] == t[off + i];
  }

  // ---------------------------------------------------------------- strings

  lemma HexRoundTrip(n: nat)
    requires n < 16
    ensures HexVal(HexDigit(n)) == Some(n)
  {
  }

  /** One escaped byte: the first pass steps over it, the second pass gives it back. */
  lemma EscapeStep(t: string, p: nat, c: char, end: nat)
    requires c != NUL && Starts(t, p, Escaped(c)) && p + |Escaped(c)| <= end < |t|
    ensures ScanEnd(t, p) == ScanEnd(t, p + |Escaped(c)|)
    ensures Unescape(t, p, end) == Prepend([c], Unescape(t, p + |Escaped(c)|, end))
  {
    var e := Escaped(c);
    StartsAt(t, p, e, 0);
    if |e| > 1 { StartsAt(t, p, e, 1); }
    if |e| == 6 {
      StartsAt(t, p, e, 2);
      StartsAt(t, p, e, 3);
      StartsAt(t, p, e, 4);
      StartsAt(t, p, e, 5);
      ControlEscape(t, p, c, end);
    }
  }

  lemma ControlEscape(t: string, p: nat, c: char, end: nat)
    requires c as int < 32 && p + 6 <= end < |t|
    requires t[p] == '\\' && t[p + 1] == 'u' && t[p + 2] == '0' && t[p + 3] == '0'
    requires t[p + 4] == HexDigit(c as int / 16) && t[p + 5] == HexDigit(c as int % 16)
    ensures ScanEnd(t, p) == ScanEnd(t, p + 6)
    ensures Utf16(t, p, end) == Some(Unit(c as int, 6)) && Utf8(c as int) == [c]
  {
    HexRoundTrip(c as int / 16);
    HexRoundTrip(c as int % 16);
    assert ScanEnd(t, p) == ScanEnd(t, p + 2) == ScanEnd(t, p + 3) == ScanEnd(t, p + 4);
    assert ScanEnd(t, p + 4) == ScanEnd(t, p + 5) == ScanEnd(t, p + 6);
  }

  lemma {:induction false} EscapesRoundTrip(t: string, p: nat, s: string)
    requires IsCString(s) && Starts(t, p, EscapedAll(s)) && CharAt(t, p + |EscapedAll(s)|, '\"')
    ensures ScanEnd(t, p) == Some(p + |EscapedAll(s)|)
    ensures Unescape(t, p, p + |EscapedAll(s)|) == Some(s)
    decreases |s|
  {
    hide Escaped, Starts;
    if s != [] {
      var e := Escaped(s[0]);
      StartsSplit(t, p, e, EscapedAll(s[1..]));
      EscapesRoundTrip(t, p + |e|, s[1..]);
      EscapeStep(t, p, s[0], p + |EscapedAll(s)|);
      assert s == [s[0]] + s[1..];
    }
  }

  lemma {:induction false} CStrOfCString(s: string)
    requires IsCString(s)
    ensures CStr(s) == s
  {
    if s != [] {
      CStrOfCString(s[1..]);
      assert s == [s[0]] + s[1..];
    }
  }

  lemma StringRoundTrip(t: string, off: nat, s: string)
    requires IsCString(s) && Starts(t, off, Quoted(s))
    ensures ParseString(t, off) == Some((s, off + |Quoted(s)|))
  {
    hide Starts, EscapedAll, ScanEnd, Unescape, CStr, IsCString;
    StartsSplit(t, off, "\"" + EscapedAll(s), "\"");
    StartsSplit(t, off, "\"", EscapedAll(s));
    StartsAt(t, off, "\"", 0);
    StartsAt(t, off + 1 + |EscapedAll(s)|, "\"", 0);
    EscapesRoundTrip(t, off + 1, s);
    CStrOfCString(s);
  }

  // ---------------------------------------------------------------- numbers

  lemma {:induction false} DecNatVal(n: nat)
    ensures DigitsVal(DecNat(n)) == n
  {
    if n < 10 {
      assert DigitsVal([Digit(n)][..0]) == 0;
    } else {
      DecNatVal(n / 10);
      var s := DecNat(n);
      assert s[..|s| - 1] == DecNat(n / 10);
    }
  }

  lemma {:induction false} DecNatLength(n: nat, k: nat, bound: nat)
    requires n < bound && bound == Tens(k) && k > 0
    ensures |DecNat(n)| <= k
  {
    if n >= 10 {
      DecNatLength(n / 10, k - 1, Tens(k - 1));
    }
  }

  function Tens(k: nat): nat {
    if k == 0 then 1 else 10 * Tens(k - 1)
  }

  lemma {:induction false} AllDigits(t: string, i: nat)
    requires i <= |t| && forall j :: i <= j < |t| ==> IsDigit(t[j])
    ensures DigitsEnd(t, i) == |t|
    decreases |t| - i
  {
    if i < |t| { AllDigits(t, i + 1); }
  }

  lemma StrtodDec(n: int)
    ensures Strtod(Dec(n)) == (n as real, |Dec(n)|)
  {
    hide DecNat;
    var t := Dec(n);
    var i := if n < 0 then 1 else 0;
    AllDigits(t, i);
    assert t[i..|t|] == DecNat(if n < 0 then -n else n);
    DecNatVal(if n < 0 then -n else n);
  }

  lemma {:induction false} NumberRun(t: string, p: nat, d: string, room: nat)
    requires Starts(t, p, d) && |d| < room && (forall i :: 0 <= i < |d| ==> IsNumberChar(d[i]))
    requires p + |d| < |t| ==> !IsNumberChar(t[p + |d|])
    ensures NumberEnd(t, p, room) == p + |d|
    decreases room
  {
    if d != [] {
      StartsAt(t, p, d, 0);
      assert d == [d[0]] + d[1..];
      StartsSplit(t, p, [d[0]], d[1..]);
      NumberRun(t, p + 1, d[1..], room - 1);
    }
  }

  lemma DecLength(n: int)
    requires INT_MIN <= n <= INT_MAX
    ensures |Dec(n)| <= 11
  {
    var m := if n < 0 then -n else n;
    assert Tens(3) == 1000;
    assert Tens(6) == 1000 * Tens(3);
    assert Tens(9) == 1000 * Tens(6);
    DecNatLength(m, 10, Tens(10));
  }

  lemma NumberRoundTrip(t: string, off: nat, n: int)
    requires INT_MIN <= n <= INT_MAX && Starts(t, off, Dec(n))
    requires off + |Dec(n)| < |t| ==> !IsNumberChar(t[off + |Dec(n)|])
    ensures ParseNumber(t, off) == Some((Number(n as real), off + |Dec(n)|))
  {
    hide Strtod, ParseNumber, NumberEnd, Dec;
    var d := Dec(n);
    DecLength(n);
    NumberRun(t, off, d, 63);
    assert t[off..off + |d|] == d;
    StrtodDec(n);
    NumberFrom(t, off, off + |d|, n as real);
  }

  lemma NumberFrom(t: string, off: nat, end: nat, r: real)
    requires off < end <= |t| && NumberEnd(t, off, 63) == end && Strtod(t[off..end]) == (r, end - off)
    ensures ParseNumber(t, off) == Some((Number(r), end))
  {
  }

  // ---------------------------------------------------------------- whitespace

  lemma SkipNothing(t: string, off: nat)
    requires off < |t| && t[off] > ' '
    ensures Skip(t, off) == off
  {
  }

  lemma {:induction false} SkipBlank(t: string, off: nat, w: string)
    requires Starts(t, off, w) && (forall i :: 0 <= i < |w| ==> w[i] <= ' ')
    requires off + |w| < |t| && t[off + |w|] > ' '
    ensures Skip(t, off) == off + |w|
    decreases |w|
  {
    if w != [] {
      StartsAt(t, off, w, 0);
      assert w == [w[0]] + w[1..];
      StartsSplit(t, off, [w[0]], w[1..]);
      SkipBlank(t, off + 1, w[1..]);
    }
  }

  // ---------------------------------------------------------------- values

  /** The text at `off` is followed by something that ends a number. */
  predicate Delimited(t: string, off: nat) {
    off < |t| && !IsNumberChar(t[off])
  }

  lemma FirstChar(v: Value, depth: nat, format: bool)
    requires Plain(v)
    ensures var x := Text(v, depth, format);
      |x| > 0 && x[0] > ' ' && x[0] != ']' && x[0] != '}' && x[0] != Byte(0xEF)
  {
  }

  /** The words and brackets at the start of a value tell its type. */
  lemma WordsDiffer(t: string, off: nat, v: Value, depth: nat, format: bool)
    requires Plain(v) && Starts(t, off, Text(v, depth, format))
    ensures !v.Null? ==> !Starts(t, off, "null")
    ensures v != Bool(false) ==> !Starts(t, off, "false")
    ensures v != Bool(true) ==> !Starts(t, off, "true")
    ensures off < |t| && t[off] == Text(v, depth, format)[0]
  {
    FirstChar(v, depth, format);
    StartsAt(t, off, Text(v, depth, format), 0);
    if Starts(t, off, "null") { StartsAt(t, off, "null", 0); }
    if Starts(t, off, "false") { StartsAt(t, off, "false", 0); }
    if Starts(t, off, "true") { StartsAt(t, off, "true", 0); }
  }

  lemma {:induction false} ValueRoundTrip(t: string, off: nat, v: Value, depth: nat, format: bool)
    requires Plain(v) && depth + Depth(v) <= NESTING_LIMIT
    requires Starts(t, off, Text(v, depth, format)) && Delimited(t, off + |Text(v, depth, format)|)
    ensures ParseValue(t, off, depth) == Some((v, off + |Text(v, depth, format)|))
    decreases v, 0
  {
    hide ParseArray, ParseObject, ParseString, ParseNumber, ItemsText, MembersText;
    WordsDiffer(t, off, v, depth, format);
    match v
    case Null =>
    case Bool(b) =>
    case Number(n) => NumberRoundTrip(t, off, n.Floor);
    case String(s) => StringRoundTrip(t, off, s);
    case Array(items) => ArrayRoundTrip(t, off, items, depth, format);
    case Object(members) => ObjectRoundTrip(t, off, members, depth, format);
  }

  lemma ArrayFrom(t: string, off: nat, depth: nat, items: seq<Value>, o: nat)
    requires depth < NESTING_LIMIT && CharAt(t, off, '[') && !CharAt(t, Skip(t, off + 1), ']')
    requires ParseItems(t, off, depth + 1) == Some((items, o)) && CharAt(t, o, ']')
    ensures ParseArray(t, off, depth) == Some((Array(items), o + 1))
  {
  }

  lemma ArrayEmpty(t: string, off: nat, depth: nat)
    requires depth < NESTING_LIMIT && CharAt(t, off, '[') && CharAt(t, Skip(t, off + 1), ']')
    ensures ParseArray(t, off, depth) == Some((Array([]), Skip(t, off + 1) + 1))
  {
  }

  lemma LastItem(t: string, off: nat, depth: nat, start: nat, v: Value, end: nat)
    requires depth <= NESTING_LIMIT && off < |t| && Skip(t, off + 1) == start
    requires ParseValue(t, start, depth) == Some((v, end)) && CharAt(t, end, ']')
    ensures ParseItems(t, off, depth) == Some(([v], end))
  {
    SkipNothing(t, end);
  }

  lemma MoreItems(t: string, off: nat, depth: nat, start: nat, v: Value, end: nat, items: seq<Value>, o: nat)
    requires depth <= NESTING_LIMIT && off < |t| && Skip(t, off + 1) == start
    requires ParseValue(t, start, depth) == Some((v, end)) && CharAt(t, end, ',')
    requires ParseItems(t, end, depth) == Some((items, o))
    ensures ParseItems(t, off, depth) == Some(([v] + items, o))
  {
    SkipNothing(t, end);
  }

  lemma {:induction false} ArrayRoundTrip(t: string, off: nat, items: seq<Value>, depth: nat, format: bool)
    requires PlainItems(items) && depth + 1 + ItemsDepth(items) <= NESTING_LIMIT
    requires Starts(t, off, "[" + ItemsText(items, depth + 1, format) + "]")
    requires CharAt(t, off, '[')
    ensures ParseArray(t, off, depth) == Some((Array(items), off + |ItemsText(items, depth + 1, format)| + 2))
    decreases items, 2
  {
    hide ParseValue, ParseArray, ParseItems, ParseObject, ParseMember, ParseMembers, ParseString, ParseNumber, Text, Skip;
    var body := ItemsText(items, depth + 1, format);
    StartsSplit(t, off, "[" + body, "]");
    StartsSplit(t, off, "[", body);
    StartsAt(t, off + 1 + |body|, "]", 0);
    if items == [] {
      SkipNothing(t, off + 1);
      ArrayEmpty(t, off, depth);
    } else {
      ItemsFirst(items, depth + 1, format);
      StartsAt(t, off + 1, body, 0);
      SkipNothing(t, off + 1);
      ItemsRoundTrip(t, off, 0, items, depth + 1, format);
      ArrayFrom(t, off, depth, items, off + 1 + |body|);
    }
  }

  lemma ItemsFirst(items: seq<Value>, depth: nat, format: bool)
    requires items != [] && PlainItems(items)
    ensures var x := ItemsText(items, depth, format); |x| > 0 && x[0] > ' ' && x[0] != ']'
  {
    FirstChar(items[0], depth, format);
    assert ItemsText(items, depth, format)[0] == Text(items[0], depth, format)[0];
  }

  lemma ItemsUnfold(items: seq<Value>, depth: nat, format: bool)
    requires items != [] && PlainItems(items)
    ensures var x := Text(items[0], depth, format);
      ItemsText(items, depth, format) ==
        if |items| == 1 then x else x + ((if format then ", " else ",") + ItemsText(items[1..], depth, format))
  {
  }

  /** The layout of a list: the first element, then nothing, or a separator and the rest. */
  lemma ItemsLayout(t: string, start: nat, items: seq<Value>, depth: nat, format: bool)
    requires items != [] && PlainItems(items) && Starts(t, start, ItemsText(items, depth, format))
    ensures var x := Text(items[0], depth, format);
      && Starts(t, start, x)
      && (|items| == 1 ==> ItemsText(items, depth, format) == x)
      && (|items| > 1 ==>
            var rest := ItemsText(items[1..], depth, format);
            var sep: nat := if format then 2 else 1;
            && CharAt(t, start + |x|, ',') && (format ==> CharAt(t, start + |x| + 1, ' '))
            && Starts(t, start + |x| + sep, rest)
            && |ItemsText(items, depth, format)| == |x| + sep + |rest|)
  {
    hide Text, ItemsText, Starts;
    ItemsUnfold(items, depth, format);
    if |items| > 1 {
      var sep := if format then ", " else ",";
      var x, rest := Text(items[0], depth, format), ItemsText(items[1..], depth, format);
      StartsSplit(t, start, x, sep + rest);
      StartsSplit(t, start + |x|, sep, rest);
      StartsAt(t, start + |x|, sep, 0);
      if format { StartsAt(t, start + |x|, sep, 1); }
    }
  }

  lemma SkipOneBlank(t: string, off: nat, blank: nat)
    requires blank <= 1 && (blank == 1 ==> CharAt(t, off, ' '))
    requires off + blank < |t| && t[off + blank] > ' '
    ensures Skip(t, off) == off + blank
  {
    SkipBlank(t, off, t[off..off + blank]);
  }

  /** `blank` is the space a formatted list puts behind its commas. */
  lemma {:induction false} ItemsRoundTrip(t: string, off: nat, blank: nat, items: seq<Value>, depth: nat, format: bool)
    requires items != [] && PlainItems(items) && depth + ItemsDepth(items) <= NESTING_LIMIT
    requires off < |t| && blank <= 1 && (blank == 1 ==> CharAt(t, off + 1, ' '))
    requires Starts(t, off + 1 + blank, ItemsText(items, depth, format))
    requires CharAt(t, off + 1 + blank + |ItemsText(items, depth, format)|, ']')
    ensures ParseItems(t, off, depth) == Some((items, off + 1 + blank + |ItemsText(items, depth, format)|))
    decreases items, 1
  {
    hide ParseValue, ParseArray, ParseItems, ParseObject, ParseMember, ParseMembers, ParseString, ParseNumber, Text, Skip, ItemsText;
    var start := off + 1 + blank;
    var end := start + |Text(items[0], depth, format)|;
    ItemsLayout(t, start, items, depth, format);
    FirstChar(items[0], depth, format);
    StartsAt(t, start, Text(items[0], depth, format), 0);
    SkipOneBlank(t, off + 1, blank);
    ValueRoundTrip(t, start, items[0], depth, format);
    assert items == [items[0]] + items[1..];
    if |items| == 1 {
      assert items == [items[0]];
      LastItem(t, off, depth, start, items[0], end);
    } else {
      ItemsRoundTrip(t, end, if format then 1 else 0, items[1..], depth, format);
      MoreItems(t, off, depth, start, items[0], end, items[1..], start + |ItemsText(items, depth, format)|);
    }
  }

  lemma ObjectFrom(t: string, off: nat, depth: nat, members: seq<Member>, o: nat)
    requires depth < NESTING_LIMIT && CharAt(t, off, '{') && !CharAt(t, Skip(t, off + 1), '}')
    requires ParseMembers(t, off, depth + 1) == Some((members, o)) && CharAt(t, o, '}')
    ensures ParseObject(t, off, depth) == Some((Object(members), o + 1))
  {
  }

  lemma ObjectEmpty(t: string, off: nat, depth: nat)
    requires depth < NESTING_LIMIT && CharAt(t, off, '{') && CharAt(t, Skip(t, off + 1), '}')
    ensures ParseObject(t, off, depth) == Some((Object([]), Skip(t, off + 1) + 1))
  {
  }

  lemma NoMembers(depth: nat, format: bool)
    ensures MembersText([], depth, format) == ""
  {
  }

  lemma MemberFrom(t: string, off: nat, depth: nat, k: nat, key: string, o: nat, start: nat, v: Value, end: nat)
    requires depth <= NESTING_LIMIT && off < |t| && Skip(t, off + 1) == k
    requires ParseString(t, k) == Some((key, o)) && CharAt(t, o, ':') && Skip(t, o + 1) == start
    requires ParseValue(t, start, depth) == Some((v, end))
    ensures ParseMember(t, off, depth) == Some((Member(key, v), end))
  {
    SkipNothing(t, o);
  }

  lemma LastMember(t: string, off: nat, depth: nat, m: Member, end: nat, o: nat)
    requires depth <= NESTING_LIMIT && off < |t| && ParseMember(t, off, depth) == Some((m, end))
    requires Skip(t, end) == o && CharAt(t, o, '}')
    ensures ParseMembers(t, off, depth) == Some(([m], o))
  {
  }

  lemma MoreMembers(t: string, off: nat, depth: nat, m: Member, end: nat, members: seq<Member>, o: nat)
    requires depth <= NESTING_LIMIT && off < |t| && ParseMember(t, off, depth) == Some((m, end))
    requires CharAt(t, end, ',') && ParseMembers(t, end, depth) == Some((members, o))
    ensures ParseMembers(t, off, depth) == Some(([m] + members, o))
  {
    SkipNothing(t, end);
  }

  lemma {:induction false} ObjectRoundTrip(t: string, off: nat, members: seq<Member>, depth: nat, format: bool)
    requires PlainMembers(members) && depth + 1 + MembersDepth(members) <= NESTING_LIMIT
    requires Starts(t, off, "{" + (NewLine(format) + MembersText(members, depth + 1, format) + (Indent(depth, format) + "}")))
    requires CharAt(t, off, '{')
    ensures ParseObject(t, off, depth)
      == Some((Object(members),
               off + 2 + |NewLine(format)| + |MembersText(members, depth + 1, format)| + |Indent(depth, format)|))
    decreases members, 2
  {
    hide ParseValue, ParseArray, ParseItems, ParseObject, ParseMember, ParseMembers, ParseString, ParseNumber, Text, Skip, MembersText, Starts, NewLine, Indent;
    if members == [] {
      EmptyObjectRoundTrip(t, off, depth, format);
    } else {
      var body, close := NewLine(format) + MembersText(members, depth + 1, format), Indent(depth, format) + "}";
      StartsSplit(t, off, "{", body + close);
      MembersFirst(members, depth + 1, format);
      BlankRun(depth + 1, format);
      LeadingBlank(t, off + 1, NewLine(format) + Indent(depth + 1, format), body + close);
      MembersRoundTrip(t, off, members, depth + 1, format);
      ObjectFrom(t, off, depth, members, off + 1 + |body| + |Indent(depth, format)|);
    }
  }

  lemma EmptyObjectRoundTrip(t: string, off: nat, depth: nat, format: bool)
    requires depth + 1 <= NESTING_LIMIT && CharAt(t, off, '{')
    requires Starts(t, off, "{" + (NewLine(format) + MembersText([], depth + 1, format) + (Indent(depth, format) + "}")))
    ensures MembersText([], depth + 1, format) == ""
    ensures ParseObject(t, off, depth) == Some((Object([]), off + 2 + |NewLine(format)| + |Indent(depth, format)|))
  {
    hide ParseValue, ParseObject, Text, Skip, MembersText, Starts, NewLine, Indent;
    var nl, i := NewLine(format), Indent(depth, format);
    NoMembers(depth + 1, format);
    BlankRun(depth, format);
    StartsSplit(t, off, "{", nl + "" + (i + "}"));
    var x := (nl + i) + "}";
    assert nl + "" + (i + "}") == x && x[..|nl + i|] == nl + i;
    StartsAt(t, off + 1, x, |nl + i|);
    LeadingBlank(t, off + 1, nl + i, x);
    ObjectEmpty(t, off, depth);
  }

  lemma MembersFirst(members: seq<Member>, depth: nat, format: bool)
    requires members != [] && PlainMembers(members)
    ensures var w, x := NewLine(format) + Indent(depth, format), NewLine(format) + MembersText(members, depth, format);
      |w| < |x| && x[..|w|] == w && x[|w|] == '\"'
  {
    hide Text;
    var sep := if |members| == 1 then "" else ",";
    Regroup(NewLine(format), Indent(depth, format), Quoted(members[0].key), Colon(format),
            Text(members[0].value, depth, format), sep, MembersText(members[1..], depth, format));
  }

  lemma Regroup(nl: string, i: string, q: string, c: string, x: string, sep: string, rest: string)
    requires |q| > 0
    ensures var w, y := nl + i, nl + (i + q + c + x + sep + nl + rest);
            |w| < |y| && y[..|w|] == w && y[|w|] == q[0]
  {
    var z := c + x + sep + nl + rest;
    assert i + q + c + x + sep + nl + rest == i + (q + z);
  }

  lemma BlankRun(depth: nat, format: bool)
    ensures var w := NewLine(format) + Indent(depth, format); forall i :: 0 <= i < |w| ==> w[i] <= ' '
  {
  }

  lemma LeadingBlank(t: string, off: nat, w: string, x: string)
    requires Starts(t, off, x) && |w| < |x| && x[..|w|] == w && x[|w|] > ' '
    requires forall i :: 0 <= i < |w| ==> w[i] <= ' '
    ensures Skip(t, off) == off + |w| && t[off + |w|] == x[|w|]
  {
    assert x == w + x[|w|..];
    StartsSplit(t, off, w, x[|w|..]);
    StartsAt(t, off, x, |w|);
    SkipBlank(t, off, w);
  }

  /** A member up to its value. */
  lemma MemberStarts(t: string, off: nat, m: Member, depth: nat, format: bool)
    requires IsCString(m.key) && Plain(m.value) && off < |t|
    requires Starts(t, off + 1, NewLine(format) + MemberText(m, depth, format))
    ensures var k := off + 1 + |NewLine(format)| + |Indent(depth, format)|;
      var o := k + |Quoted(m.key)|;
      var start := o + |Colon(format)|;
      && Skip(t, off + 1) == k && ParseString(t, k) == Some((m.key, o)) && CharAt(t, o, ':') && Skip(t, o + 1) == start
      && Starts(t, start, Text(m.value, depth, format))
      && start + |Text(m.value, depth, format)| == off + 1 + |NewLine(format)| + |MemberText(m, depth, format)|
  {
    hide ParseString, Text, Skip, MemberText, Starts, Quoted, Indent, NewLine, Colon, Plain, IsCString;
    var w, q, c, x := NewLine(format) + Indent(depth, format), Quoted(m.key), Colon(format), Text(m.value, depth, format);
    var k := off + 1 + |w|;
    FirstChar(m.value, depth, format);
    MemberLayout(t, off + 1, m, depth, format);
    QuoteFirst(m.key);
    QuoteBlank(t, off + 1, depth, format, q);
    StringRoundTrip(t, k, m.key);
    ColonBlank(t, k + |q|, format, x);
  }

  lemma {:induction false} MemberRoundTrip(t: string, off: nat, m: Member, depth: nat, format: bool)
    requires IsCString(m.key) && Plain(m.value) && depth + Depth(m.value) <= NESTING_LIMIT && off < |t|
    requires Starts(t, off + 1, NewLine(format) + MemberText(m, depth, format))
    requires Delimited(t, off + 1 + |NewLine(format)| + |MemberText(m, depth, format)|)
    ensures ParseMember(t, off, depth) == Some((m, off + 1 + |NewLine(format)| + |MemberText(m, depth, format)|))
    decreases m.value, 1
  {
    hide ParseValue, ParseArray, ParseItems, ParseObject, ParseMember, ParseMembers, ParseString, ParseNumber, Text, Skip, MemberText,
      Starts, Quoted, Indent, NewLine, Colon, Plain, IsCString, Delimited;
    var k := off + 1 + |NewLine(format)| + |Indent(depth, format)|;
    var o := k + |Quoted(m.key)|;
    var start := o + |Colon(format)|;
    MemberStarts(t, off, m, depth, format);
    ValueRoundTrip(t, start, m.value, depth, format);
    MemberFrom(t, off, depth, k, m.key, o, start, m.value, start + |Text(m.value, depth, format)|);
  }

  lemma QuoteFirst(s: string)
    ensures |Quoted(s)| > 0 && Quoted(s)[0] == '\"'
  {
  }

  lemma QuoteBlank(t: string, off: nat, depth: nat, format: bool, q: string)
    requires Starts(t, off, NewLine(format) + Indent(depth, format) + q) && |q| > 0 && q[0] == '\"'
    ensures Skip(t, off) == off + |NewLine(format)| + |Indent(depth, format)|
  {
    LeadingBlank(t, off, NewLine(format) + Indent(depth, format), NewLine(format) + Indent(depth, format) + q);
  }

  lemma MemberLayout(t: string, start: nat, m: Member, depth: nat, format: bool)
    requires Plain(m.value) && Starts(t, start, NewLine(format) + MemberText(m, depth, format))
    ensures var w, q, c, x := NewLine(format) + Indent(depth, format), Quoted(m.key), Colon(format), Text(m.value, depth, format);
      && Starts(t, start, w + q) && Starts(t, start + |w|, q) && Starts(t, start + |w| + |q|, c + x)
      && Starts(t, start + |w| + |q| + |c|, x)
      && |NewLine(format) + MemberText(m, depth, format)| == |w| + |q| + |c| + |x|
  {
    hide Text, Quoted, Starts;
    var w, q, c, x := NewLine(format) + Indent(depth, format), Quoted(m.key), Colon(format), Text(m.value, depth, format);
    assert NewLine(format) + MemberText(m, depth, format) == (w + q) + (c + x);
    StartsSplit(t, start, w + q, c + x);
    StartsSplit(t, start, w, q);
    StartsSplit(t, start + |w| + |q|, c, x);
  }

  lemma ColonBlank(t: string, o: nat, format: bool, x: string)
    requires Starts(t, o, Colon(format) + x) && |x| > 0 && x[0] > ' '
    ensures CharAt(t, o, ':') && Skip(t, o + 1) == o + |Colon(format)|
  {
    var y := Colon(format) + x;
    StartsAt(t, o, y, 0);
    assert y == ":" + y[1..];
    StartsSplit(t, o, ":", y[1..]);
    LeadingBlank(t, o + 1, Colon(format)[1..], y[1..]);
  }

  /** The layout of an object: the first member, then the closing part or a comma and the rest. */
  lemma MembersLayout(t: string, off: nat, members: seq<Member>, depth: nat, format: bool, close: string)
    requires members != [] && PlainMembers(members)
    requires Starts(t, off, NewLine(format) + MembersText(members, depth, format) + close)
    ensures var nl, m, rest := NewLine(format), MemberText(members[0], depth, format), MembersText(members[1..], depth, format);
      && Starts(t, off, nl + m)
      && (|members| == 1 ==>
            Starts(t, off + |nl| + |m|, nl + close) && |MembersText(members, depth, format)| == |m| + |nl|)
      && (|members| > 1 ==>
            CharAt(t, off + |nl| + |m|, ',') && Starts(t, off + |nl| + |m| + 1, nl + rest + close)
            && |MembersText(members, depth, format)| == |m| + 1 + |nl| + |rest|)
  {
    hide Text, MemberText, Starts, NewLine, MembersText;
    var nl, m, rest := NewLine(format), MemberText(members[0], depth, format), MembersText(members[1..], depth, format);
    MembersUnfold(members, depth, format);
    if |members| == 1 {
      Bracketed(nl, m, "", "", close);
      StartsSplit(t, off, nl + m, nl + close);
    } else {
      Bracketed(nl, m, ",", rest, close);
      StartsSplit(t, off, nl + m, "," + (nl + rest + close));
      StartsSplit(t, off + |nl| + |m|, ",", nl + rest + close);
      StartsAt(t, off + |nl| + |m|, ",", 0);
    }
  }

  lemma MembersUnfold(members: seq<Member>, depth: nat, format: bool)
    requires members != [] && PlainMembers(members)
    ensures PlainMembers(members[1..]) && IsCString(members[0].key) && Plain(members[0].value)
    ensures MembersText(members, depth, format)
      == MemberText(members[0], depth, format) + (if |members| == 1 then "" else ",") + NewLine(format)
         + (if |members| == 1 then "" else MembersText(members[1..], depth, format))
  {
    hide MemberText, Text;
    NoMembers(depth, format);
  }

  lemma Bracketed(nl: string, m: string, sep: string, rest: string, close: string)
    ensures nl + (m + sep + nl + rest) + close == (nl + m) + (sep + (nl + rest + close))
    ensures nl + (m + "" + nl + "") + close == (nl + m) + (nl + close)
  {
  }

  lemma CloseDelimits(t: string, o: nat, depth: nat, format: bool)
    requires Starts(t, o, NewLine(format) + (Indent(depth, format) + "}"))
    ensures Delimited(t, o)
  {
    StartsAt(t, o, NewLine(format) + (Indent(depth, format) + "}"), 0);
  }

  /** The members behind the brace or comma at `off`, up to the closing brace. */
  lemma {:induction false} MembersRoundTrip(t: string, off: nat, members: seq<Member>, depth: nat, format: bool)
    requires members != [] && PlainMembers(members) && 0 < depth && depth + MembersDepth(members) <= NESTING_LIMIT && off < |t|
    requires Starts(t, off + 1, NewLine(format) + MembersText(members, depth, format) + (Indent(depth - 1, format) + "}"))
    ensures var o := off + 1 + |NewLine(format)| + |MembersText(members, depth, format)| + |Indent(depth - 1, format)|;
            ParseMembers(t, off, depth) == Some((members, o)) && CharAt(t, o, '}')
    decreases members, 1
  {
    hide ParseValue, ParseArray, ParseItems, ParseObject, ParseMember, ParseMembers, ParseString, ParseNumber, Text, Skip, MemberText, MembersText, Starts, NewLine, Indent;
    var nl, m, close := NewLine(format), MemberText(members[0], depth, format), Indent(depth - 1, format) + "}";
    var o := off + 1 + |nl| + |m|;
    assert members == [members[0]] + members[1..];
    MembersLayout(t, off + 1, members, depth, format, close);
    if |members| == 1 {
      assert members == [members[0]];
      CloseDelimits(t, o, depth - 1, format);
      MemberRoundTrip(t, off, members[0], depth, format);
      BlankRun(depth - 1, format);
      assert nl + close == (nl + Indent(depth - 1, format)) + "}";
      LeadingBlank(t, o, nl + Indent(depth - 1, format), nl + close);
      LastMember(t, off, depth, members[0], o, o + |nl| + |Indent(depth - 1, format)|);
    } else {
      MemberRoundTrip(t, off, members[0], depth, format);
      MembersRoundTrip(t, o, members[1..], depth, format);
      MoreMembers(t, off, depth, members[0], o, members[1..], off + |nl| + |MembersText(members, depth, format)| + |close|);
    }
  }

  /** The whole-tree round trip: printing, formatted or not, and parsing gives the same tree. */
  lemma RoundTrip(v: Value, format: bool)
    requires Plain(v) && Depth(v) <= NESTING_LIMIT
    ensures Parse(Text(v, 0, format)) == Some(v)
  {
    var x := Text(v, 0, format);
    var t := x + [NUL];
    FirstChar(v, 0, format);
    assert Starts(t, 0, x);
    ValueRoundTrip(t, 0, v, 0, format);
  }
}
