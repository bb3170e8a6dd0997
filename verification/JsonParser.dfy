/**
 The parser of src/cJSON.c as it runs: an offset and a depth that move over the text, a
 two-pass string reader that fills a buffer of precomputed size, and nested loops for arrays
 and objects. Every method is proved equal to its function in JsonSpec.
*/
module JsonParser {
  import opened JsonText
  import opened JsonSpec
  import opened ChildList
  import opened Duplicate
  import opened JsonItems

  // ---------------------------------------------------------------- budget of parse_string

  /** How many bytes the first pass allows for, from `p` to the closing quote. */
  function Budget(s: string, p: nat): nat
    decreases |s| - p
  {
    if p >= |s| || s[p] == '\"' then 0
    else 1 + Budget(s, p + (if s[p] == '\\' then 2 else 1))
  }

  /** Where the second pass can be: on a character the first pass stopped at, on the second
      character of what the first pass took for an escape, or just behind the quote. */
  predicate Phase(s: string, p: nat, end: nat) {
    OnStop(s, p, end) || Between(s, p, end) || p == end + 1
  }

  function Min(a: nat, b: nat): nat {
    if a < b then a else b
  }

  predicate OnStop(s: string, p: nat, end: nat) {
    ScanEnd(s, p) == Some(end)
  }

  predicate Between(s: string, p: nat, end: nat) {
    p < end && ScanEnd(s, p + 1) == Some(end)
  }

  /** How many bytes are still allowed for. */
  function Need(s: string, p: nat, end: nat): nat {
    if OnStop(s, p, end) && Between(s, p, end) then Min(Budget(s, p), 1 + Budget(s, p + 1))
    else if OnStop(s, p, end) then Budget(s, p)
    else if Between(s, p, end) then 1 + Budget(s, p + 1)
    else 0
  }

  /** Twice the bytes allowed for, less one between the two characters of an escape. */
  function Halves(s: string, p: nat, end: nat): nat {
    if OnStop(s, p, end) && Between(s, p, end) then Min(2 * Budget(s, p), 1 + 2 * Budget(s, p + 1))
    else if OnStop(s, p, end) then 2 * Budget(s, p)
    else if Between(s, p, end) then 1 + 2 * Budget(s, p + 1)
    else 0
  }

  lemma HalvesStep(s: string, p: nat, end: nat)
    requires Phase(s, p, end) && p < end < |s|
    ensures Phase(s, p + 1, end) && Halves(s, p, end) >= 1 + Halves(s, p + 1, end)
  {
  }

  lemma {:induction false} HalvesAdvance(s: string, p: nat, end: nat, k: nat)
    requires Phase(s, p, end) && p + k <= end < |s|
    ensures Phase(s, p + k, end) && Halves(s, p, end) >= k + Halves(s, p + k, end)
  {
    if k > 0 {
      HalvesAdvance(s, p, end, k - 1);
      HalvesStep(s, p + k - 1, end);
    }
  }

  /** An ordinary character takes one byte. */
  lemma PlainFits(s: string, p: nat, end: nat)
    requires Phase(s, p, end) && p < end < |s| && s[p] != '\\'
    ensures Phase(s, p + 1, end) && Need(s, p, end) >= 1 + Need(s, p + 1, end)
  {
  }

  /** So does a two-character escape, also where the first pass saw the backslash as the
      second half of another escape. */
  lemma EscapeFits(s: string, p: nat, end: nat)
    requires Phase(s, p, end) && p < end < |s| && s[p] == '\\'
    ensures Phase(s, p + 2, end) && Need(s, p, end) >= 1 + Need(s, p + 2, end)
  {
  }

  /** A \u escape, whatever its digits, leaves room for the UTF-8 form of what it stands for. */
  lemma UnicodeFits(s: string, p: nat, end: nat)
    requires Phase(s, p, end) && p < end < |s| && Utf16(s, p, end).Some?
    ensures var u := Utf16(s, p, end).value;
      Phase(s, p + u.len, end) && Need(s, p, end) >= |Utf8(u.cp)| + Need(s, p + u.len, end)
  {
    HalvesAdvance(s, p, end, Utf16(s, p, end).value.len);
  }

  // ---------------------------------------------------------------- UTF-8, byte by byte

  /** The last `n` continuation bytes, and what is left of the code point. */
  function Continuation(cp: nat, n: nat): string {
    if n == 0 then "" else Continuation(cp / 0x40, n - 1) + [Byte(0x80 + cp % 0x40)]
  }

  function Lead(cp: nat, n: nat): nat {
    if n == 0 then cp else Lead(cp / 0x40, n - 1)
  }

  function Utf8Length(cp: nat): nat {
    if cp < 0x80 then 1 else if cp < 0x800 then 2 else if cp < 0x1_0000 then 3 else 4
  }

  function FirstByteMark(cp: nat): nat {
    if cp < 0x80 then 0 else if cp < 0x800 then 0xC0 else if cp < 0x1_0000 then 0xE0 else 0xF0
  }

  lemma SixBits(cp: nat, a: nat, b: nat, c: nat)
    requires a == cp / 0x40 && b == cp / 0x1000 && c == cp / 0x4_0000
    ensures b == a / 0x40 && c == b / 0x40
  {
  }

  lemma Utf8Parts(cp: nat)
    requires cp < 0x11_0000
    ensures var n := Utf8Length(cp);
      |Utf8(cp)| == n && FirstByteMark(cp) + Lead(cp, n - 1) < 256
      && Utf8(cp) == [Byte(FirstByteMark(cp) + Lead(cp, n - 1))] + Continuation(cp, n - 1)
  {
    SixBits(cp, cp / 0x40, cp / 0x1000, cp / 0x4_0000);
    assert Continuation(cp, 1) == [Byte(0x80 + cp % 0x40)];
    assert Continuation(cp / 0x40, 1) == [Byte(0x80 + cp / 0x40 % 0x40)];
    assert Continuation(cp, 2) == Continuation(cp / 0x40, 1) + [Byte(0x80 + cp % 0x40)];
    assert Continuation(cp / 0x40, 2) == Continuation(cp / 0x1000, 1) + [Byte(0x80 + cp / 0x40 % 0x40)];
    assert Continuation(cp / 0x1000, 1) == [Byte(0x80 + cp / 0x1000 % 0x40)];
    assert Lead(cp, 1) == Lead(cp / 0x40, 0) && Lead(cp / 0x40, 1) == Lead(cp / 0x1000, 0);
    assert Lead(cp / 0x1000, 1) == Lead(cp / 0x4_0000, 0);
    assert Lead(cp, 2) == Lead(cp / 0x40, 1) && Lead(cp / 0x40, 2) == Lead(cp / 0x1000, 1);
    assert Lead(cp, 3) == Lead(cp / 0x40, 2);
  }

  lemma PrependTwice(a: string, b: string, r: Option<string>)
    ensures Prepend(a, Prepend(b, r)) == Prepend(a + b, r)
  {
    if r.Some? { assert a + (b + r.value) == (a + b) + r.value; }
  }

  lemma PrependNothing(r: Option<string>)
    ensures Prepend("", r) == r
  {
    if r.Some? { assert "" + r.value == r.value; }
  }

  /** One step of the second pass, as a function of what the text holds at `p`. */
  lemma UnescapeStep(s: string, p: nat, end: nat, done: string)
    requires end < |s|
    ensures p >= end ==> Prepend(done, Unescape(s, p, end)) == Some(done)
    ensures p < end && s[p] != '\\' ==>
      Prepend(done, Unescape(s, p, end)) == Prepend(done + [s[p]], Unescape(s, p + 1, end))
    ensures p < end && s[p] == '\\' && s[p + 1] == 'u' ==>
      match Utf16(s, p, end)
      case None => Unescape(s, p, end) == None
      case Some(u) => Prepend(done, Unescape(s, p, end)) == Prepend(done + Utf8(u.cp), Unescape(s, p + u.len, end))
    ensures p < end && s[p] == '\\' && s[p + 1] != 'u' ==>
      match Unletter(s[p + 1])
      case None => Unescape(s, p, end) == None
      case Some(c) => Prepend(done, Unescape(s, p, end)) == Prepend(done + [c], Unescape(s, p + 2, end))
  {
    if p >= end {
      assert done + "" == done;
    } else if s[p] != '\\' {
      PrependTwice(done, [s[p]], Unescape(s, p + 1, end));
    } else if s[p + 1] == 'u' {
      if Utf16(s, p, end).Some? {
        var u := Utf16(s, p, end).value;
        PrependTwice(done, Utf8(u.cp), Unescape(s, p + u.len, end));
      }
    } else if Unletter(s[p + 1]).Some? {
      PrependTwice(done, [Unletter(s[p + 1]).value], Unescape(s, p + 2, end));
    }
  }

  lemma SkipTwice(s: string, off: nat)
    ensures Skip(s, Skip(s, off)) == Skip(s, off)
  {
  }

  // ---------------------------------------------------------------- loops over elements

  function PutFirst<T>(a: seq<T>, r: Option<(seq<T>, nat)>): Option<(seq<T>, nat)> {
    if r.None? then None else Some((a + r.value.0, r.value.1))
  }

  lemma PutNothingFirst<T>(r: Option<(seq<T>, nat)>)
    ensures PutFirst([], r) == r
  {
    if r.Some? { assert [] + r.value.0 == r.value.0; }
  }

  /** The list behind `off` depends on what follows `off` alone. */
  lemma SameItems(s: string, off: nat, off': nat, depth: nat)
    requires depth <= NESTING_LIMIT && off < |s| && off' < |s| && Skip(s, off + 1) == Skip(s, off' + 1)
    ensures ParseItems(s, off, depth) == ParseItems(s, off', depth)
  {
    hide ParseValue, Skip;
  }

  lemma SameMembers(s: string, off: nat, off': nat, depth: nat)
    requires depth <= NESTING_LIMIT && off < |s| && off' < |s| && Skip(s, off + 1) == Skip(s, off' + 1)
    ensures ParseMembers(s, off, depth) == ParseMembers(s, off', depth)
  {
    hide ParseValue, ParseString, Skip;
  }

  /** Nothing behind the bracket or brace. */
  lemma NothingBehind(s: string, off: nat, depth: nat)
    requires depth <= NESTING_LIMIT && off < |s| && off + 1 >= |s|
    ensures ParseItems(s, off, depth) == None && ParseMembers(s, off, depth) == None
    ensures ParseMember(s, off, depth) == None
  {
    assert Skip(s, off + 1) == off + 1;
    assert ParseValue(s, off + 1, depth) == None;
    assert ParseString(s, off + 1) == None;
  }

  /** One turn of the loop over array elements. */
  lemma ItemsStep(s: string, off: nat, depth: nat, done: seq<Value>)
    requires depth <= NESTING_LIMIT && off < |s|
    ensures match ParseValue(s, Skip(s, off + 1), depth)
      case None => ParseItems(s, off, depth) == None
      case Some(v) =>
        var o := Skip(s, v.1);
        PutFirst(done, ParseItems(s, off, depth))
          == if CharAt(s, o, ',') then PutFirst(done + [v.0], ParseItems(s, o, depth)) else Some((done + [v.0], o))
  {
    hide ParseValue, Skip;
    var v := ParseValue(s, Skip(s, off + 1), depth);
    if v.Some? && CharAt(s, Skip(s, v.value.1), ',') {
      var r := ParseItems(s, Skip(s, v.value.1), depth);
      if r.Some? { assert done + ([v.value.0] + r.value.0) == (done + [v.value.0]) + r.value.0; }
    }
  }

  lemma MembersStep(s: string, off: nat, depth: nat, done: seq<Member>)
    requires depth <= NESTING_LIMIT && off < |s|
    ensures match ParseMember(s, off, depth)
      case None => ParseMembers(s, off, depth) == None
      case Some(m) =>
        var o := Skip(s, m.1);
        PutFirst(done, ParseMembers(s, off, depth))
          == if CharAt(s, o, ',') then PutFirst(done + [m.0], ParseMembers(s, o, depth)) else Some((done + [m.0], o))
  {
    hide ParseMember, Skip;
    var m := ParseMember(s, off, depth);
    if m.Some? && CharAt(s, Skip(s, m.value.1), ',') {
      var r := ParseMembers(s, Skip(s, m.value.1), depth);
      if r.Some? { assert done + ([m.value.0] + r.value.0) == (done + [m.value.0]) + r.value.0; }
    }
  }

  // ---------------------------------------------------------------- the parser

  class ParseBuffer {
    const content: string
    var offset: nat
    var depth: nat

    constructor (content: string)
      ensures this.content == content && offset == 0 && depth == 0
    {
      this.content := content;
      offset, depth := 0, 0;
    }

    method SkipWhitespace()
      modifies this`offset
      ensures offset == Skip(content, old(offset))
    {
      if offset >= |content| {
        return;
      }
      while offset < |content| && content[offset] <= ' '
        invariant offset <= |content| && SkipTo(content, offset) == SkipTo(content, old(offset))
      {
        offset := offset + 1;
      }
      if offset == |content| {
        offset := offset - 1;
      }
    }

    method SkipUtf8Bom()
      requires offset == 0
      modifies this`offset
      ensures offset == BomEnd(content)
    {
      if |content| > 4 && content[0] == Byte(0xEF) && content[1] == Byte(0xBB) && content[2] == Byte(0xBF) {
        offset := offset + 3;
      }
    }

    // -------------------------------------------------------------- parse_string

    method ParseHex4(input: nat) returns (h: nat)
      requires input + 4 <= |content|
      ensures h == Hex4(content, input)
    {
      h := 0;
      ghost var a, b, c, d := HexVal(content[input]), HexVal(content[input + 1]), HexVal(content[input + 2]), HexVal(content[input + 3]);
      for i := 0 to 4
        invariant i > 0 ==> a.Some?
        invariant i > 1 ==> b.Some?
        invariant i > 2 ==> c.Some?
        invariant i > 3 ==> d.Some?
        invariant i == 0 ==> h == 0
        invariant i == 1 ==> h == a.value * 16
        invariant i == 2 ==> h == (a.value * 16 + b.value) * 16
        invariant i == 3 ==> h == ((a.value * 16 + b.value) * 16 + c.value) * 16
        invariant i == 4 ==> h == ((a.value * 16 + b.value) * 16 + c.value) * 16 + d.value
      {
        match HexVal(content[input + i]) {
          case Some(digit) => h := h + digit;
          case None => return 0;
        }
        if i < 3 {
          h := h * 16;
        }
      }
    }

    /** utf16_literal_to_utf8: writes the UTF-8 form at `at`; length 0 means failure. */
    method Utf16ToUtf8(input: nat, end: nat, output: array<char>, at: nat) returns (length: nat, next: nat)
      requires input <= end <= |content| && at <= output.Length
      requires Utf16(content, input, end).Some? ==> at + |Utf8(Utf16(content, input, end).value.cp)| <= output.Length
      modifies output
      ensures match Utf16(content, input, end)
        case None => length == 0
        case Some(u) => length == u.len && next == at + |Utf8(u.cp)| && output[..next] == old(output[..at]) + Utf8(u.cp)
    {
      hide Utf8, Hex4;
      if end - input < 6 {
        return 0, at;
      }
      var codepoint;
      var first := ParseHex4(input + 2);
      if 0xDC00 <= first <= 0xDFFF {
        return 0, at;
      }
      if 0xD800 <= first <= 0xDBFF {
        if end - (input + 6) < 6 {
          return 0, at;
        }
        if content[input + 6] != '\\' || content[input + 7] != 'u' {
          return 0, at;
        }
        var second := ParseHex4(input + 8);
        if second < 0xDC00 || second > 0xDFFF {
          return 0, at;
        }
        codepoint := 0x1_0000 + first % 0x400 * 0x400 + second % 0x400;
        length := 12;
      } else {
        length := 6;
        codepoint := first;
      }
      next := EncodeUtf8(codepoint, output, at);
    }

    /** The encoding loop: continuation bytes from the last to the first, then the first byte.
        `(c | 0x80) & 0xBF` keeps the low six bits, `c | mark` adds the mark. */
    method EncodeUtf8(cp: nat, output: array<char>, at: nat) returns (next: nat)
      requires cp < 0x11_0000 && at + |Utf8(cp)| <= output.Length
      modifies output
      ensures next == at + |Utf8(cp)| && output[..next] == old(output[..at]) + Utf8(cp)
    {
      hide Utf8;
      Utf8Parts(cp);
      var n := Utf8Length(cp);
      var codepoint := cp;
      var position := n - 1;
      while position > 0
        invariant 0 <= position <= n - 1
        invariant output[..at] == old(output[..at])
        invariant Continuation(cp, n - 1) == Continuation(codepoint, position) + output[at + position + 1..at + n]
        invariant Lead(cp, n - 1) == Lead(codepoint, position)
      {
        output[at + position] := Byte(0x80 + codepoint % 0x40);
        codepoint := codepoint / 0x40;
        position := position - 1;
      }
      output[at] := Byte(FirstByteMark(cp) + codepoint);
      next := at + n;
      assert output[..next] == output[..at] + [output[at]] + output[at + 1..next];
    }

    /** First pass of parse_string: the closing quote, and the bytes to allow for besides it. */
    method Measure() returns (ok: bool, inputEnd: nat, skipped: nat)
      requires CharAt(content, offset, '\"')
      ensures ok <==> ScanEnd(content, offset + 1).Some?
      ensures ok ==> ScanEnd(content, offset + 1) == Some(inputEnd)
      ensures ok ==> inputEnd - offset - skipped == 1 + Budget(content, offset + 1)
    {
      inputEnd, skipped := offset + 1, 0;
      while inputEnd < |content| && content[inputEnd] != '\"'
        invariant ScanEnd(content, offset + 1) == ScanEnd(content, inputEnd)
        invariant skipped + offset + 1 <= inputEnd
        invariant Budget(content, offset + 1) == inputEnd - (offset + 1) - skipped + Budget(content, inputEnd)
        decreases |content| - inputEnd
      {
        if content[inputEnd] == '\\' {
          if inputEnd + 1 >= |content| {
            return false, inputEnd, skipped;
          }
          skipped := skipped + 1;
          inputEnd := inputEnd + 1;
        }
        inputEnd := inputEnd + 1;
      }
      ok := inputEnd < |content|;
    }

    /** Second pass of parse_string, into a buffer of the size the first pass allowed for. All
        writes, the terminating NUL included, stay inside it, for every text. */
    method Fill(start: nat, inputEnd: nat, output: array<char>) returns (ok: bool, length: nat, input: nat)
      requires ScanEnd(content, start) == Some(inputEnd) && Budget(content, start) < output.Length
      modifies output
      ensures ok <==> Unescape(content, start, inputEnd).Some?
      ensures ok ==> length <= Budget(content, start) && Unescape(content, start, inputEnd) == Some(output[..length])
      ensures ok ==> output[length] == NUL
    {
      hide Unescape, Utf16, Utf8, Phase, Need, ScanEnd, Steps;
      input, length := start, 0;
      PrependNothing(Unescape(content, start, inputEnd));
      FillStart(start, inputEnd);
      while input < inputEnd
        invariant Phase(content, input, inputEnd) && length + Need(content, input, inputEnd) <= Budget(content, start)
        invariant Unescape(content, start, inputEnd) == Prepend(output[..length], Unescape(content, input, inputEnd))
        decreases inputEnd - input
      {
        UnescapeStep(content, input, inputEnd, output[..length]);
        if content[input] != '\\' {
          PlainFits(content, input, inputEnd);
          length := Emit(output, length, content[input]);
          input := input + 1;
        } else if content[input + 1] == 'u' {
          if Utf16(content, input, inputEnd).Some? { UnicodeFits(content, input, inputEnd); }
          var sequenceLength;
          sequenceLength, length := Utf16ToUtf8(input, inputEnd, output, length);
          if sequenceLength == 0 {
            return false, length, input;
          }
          input := input + sequenceLength;
        } else {
          EscapeFits(content, input, inputEnd);
          match Unletter(content[input + 1]) {
            case Some(c) => length := Emit(output, length, c);
            case None => return false, length, input;
          }
          input := input + 2;
        }
      }
      UnescapeStep(content, input, inputEnd, output[..length]);
      output[length] := NUL;
      ok := true;
    }

    lemma FillStart(start: nat, end: nat)
      requires ScanEnd(content, start) == Some(end)
      ensures Phase(content, start, end) && Need(content, start, end) <= Budget(content, start)
    {
    }

    method Emit(output: array<char>, at: nat, c: char) returns (next: nat)
      requires at < output.Length
      modifies output
      ensures next == at + 1 && output[..next] == old(output[..at]) + [c]
    {
      output[at] := c;
      next := at + 1;
    }

    method ReadString() returns (ok: bool, text: string)
      requires offset < |content|
      modifies this`offset
      ensures ok <==> ParseString(content, old(offset)).Some?
      ensures ok ==> ParseString(content, old(offset)) == Some((text, offset))
    {
      text := "";
      if content[offset] != '\"' {
        offset := offset + 1;
        return false, text;
      }
      var inputEnd, skipped;
      ok, inputEnd, skipped := Measure();
      if !ok {
        offset := offset + 1;
        return;
      }
      var allocationLength := inputEnd - offset - skipped;
      var output := new char[allocationLength + 1];
      var length, input;
      ok, length, input := Fill(offset + 1, inputEnd, output);
      if !ok {
        offset := input;
        return;
      }
      text := CStr(output[..length]);
      offset := inputEnd + 1;
    }

    // -------------------------------------------------------------- parse_number

    static lemma NumberEndNext(s: string, p: nat, room: nat)
      requires room > 0 && p < |s| && IsNumberChar(s[p])
      ensures NumberEnd(s, p, room) == NumberEnd(s, p + 1, room - 1)
    {
    }

    static lemma NumberEndHere(s: string, p: nat, room: nat)
      requires room == 0 || p >= |s| || !IsNumberChar(s[p])
      ensures NumberEnd(s, p, room) == p
    {
    }

    /** Copies the number characters into a buffer of 64 characters. */
    method CopyNumber() returns (digits: string)
      requires offset <= |content|
      ensures digits == content[offset..NumberEnd(content, offset, 63)]
    {
      hide NumberEnd, IsNumberChar;
      var buffer := new char[64];
      var i := 0;
      while i < 63 && offset + i < |content| && IsNumberChar(content[offset + i])
        invariant i <= 63 && offset + i <= |content| && buffer[..i] == content[offset..offset + i]
        invariant NumberEnd(content, offset, 63) == NumberEnd(content, offset + i, 63 - i)
      {
        NumberEndNext(content, offset + i, 63 - i);
        buffer[i] := content[offset + i];
        i := i + 1;
      }
      NumberEndHere(content, offset + i, 63 - i);
      digits := buffer[..i];
      buffer[i] := NUL;
    }

    method ReadNumber() returns (ok: bool, item: Value)
      requires offset <= |content|
      modifies this`offset
      ensures ok <==> ParseNumber(content, old(offset)).Some?
      ensures ok ==> ParseNumber(content, old(offset)) == Some((item, offset)) && item.Number?
    {
      hide Strtod;
      var digits := CopyNumber();
      var number, consumed := StrtodOf(digits);
      item := Number(number);
      ok := consumed != 0;
      if ok {
        offset := offset + consumed;
      }
    }

    static method StrtodOf(t: string) returns (number: real, consumed: nat)
      ensures (number, consumed) == Strtod(t)
    {
      var r := Strtod(t);
      number, consumed := r.0, r.1;
    }

    // -------------------------------------------------------------- parse_value

    /** strncmp of the text ahead with a word. */
    predicate Sees(word: string)
      reads this`offset
    {
      Starts(content, offset, word)
    }

    static lemma NoWord(s: string, off: nat)
      requires CharAt(s, off, '[') || CharAt(s, off, '{')
      ensures !Starts(s, off, "null") && !Starts(s, off, "false") && !Starts(s, off, "true")
    {
      if off + 4 <= |s| { assert s[off..off + 4][0] == s[off]; }
      if off + 5 <= |s| { assert s[off..off + 5][0] == s[off]; }
    }

    /** parse_value: the value and, for a field with a key if there is one, the new item. */
    method ReadValue(key: Option<string>)
      returns (ok: bool, v: Value, item: Item?, ghost t: Option<Tree>, ghost made: set<Item>)
      requires depth <= NESTING_LIMIT
      modifies this`offset, this`depth
      ensures ok <==> ParseValue(content, old(offset), old(depth)).Some?
      ensures ok ==> ParseValue(content, old(offset), old(depth)) == Some((v, offset)) && depth == old(depth)
      ensures fresh(made) && (ok ==> StandsFor(item, t, v, key, made))
      decreases NESTING_LIMIT - depth, 1
    {
      hide ParseArray, ParseObject, ParseString, ParseNumber, StandsFor;
      v, item, t, made := Null, null, None, {};
      if CharAt(content, offset, '[') {
        NoWord(content, offset);
        ok, v, item, t, made := ReadArray(key);
      } else if CharAt(content, offset, '{') {
        NoWord(content, offset);
        ok, v, item, t, made := ReadObject(key);
      } else {
        ok, v := ReadScalar();
        if ok {
          item, t, made := Leaf(v, key);
        }
      }
    }

    /** A value that is no array and no object. */
    method ReadScalar() returns (ok: bool, v: Value)
      requires depth <= NESTING_LIMIT && !CharAt(content, offset, '[') && !CharAt(content, offset, '{')
      modifies this`offset
      ensures ok <==> ParseValue(content, old(offset), depth).Some?
      ensures ok ==> ParseValue(content, old(offset), depth) == Some((v, offset)) && Inside(v) == []
    {
      hide ParseArray, ParseObject, ParseString, ParseNumber;
      v := Null;
      if Sees("null") {
        offset := offset + 4;
        return true, Null;
      }
      if Sees("false") {
        offset := offset + 5;
        return true, Bool(false);
      }
      if Sees("true") {
        offset := offset + 4;
        return true, Bool(true);
      }
      if CharAt(content, offset, '\"') {
        var text;
        ok, text := ReadString();
        return ok, String(text);
      }
      if offset < |content| && (content[offset] == '-' || IsDigit(content[offset])) {
        ok, v := ReadNumber();
        return;
      }
      ok := false;
    }

    method ReadArray(key: Option<string>)
      returns (ok: bool, v: Value, item: Item?, ghost t: Option<Tree>, ghost made: set<Item>)
      requires depth <= NESTING_LIMIT && CharAt(content, offset, '[')
      modifies this`offset, this`depth
      ensures ok <==> ParseArray(content, old(offset), old(depth)).Some?
      ensures ok ==> ParseArray(content, old(offset), old(depth)) == Some((v, offset)) && depth == old(depth)
      ensures fresh(made) && (ok ==> StandsFor(item, t, v, key, made))
      decreases NESTING_LIMIT - depth, 0
    {
      hide ParseValue, ParseItems, Skip, StandsFor, Begun, Contents, All;
      v, item, t, made := Null, null, None, {};
      if depth >= NESTING_LIMIT {
        return false, v, item, t, made;
      }
      ghost var start := offset;
      depth := depth + 1;
      offset := offset + 1;
      SkipWhitespace();
      if CharAt(content, offset, ']') {
        depth := depth - 1;
        offset := offset + 1;
        v := Array([]);
        item, t, made := Leaf(v, key);
        return true, v, item, t, made;
      }
      if offset >= |content| {
        NothingBehind(content, start, depth);
        offset := offset - 1;
        return false, v, item, t, made;
      }
      offset := offset - 1;
      SkipTwice(content, start + 1);
      SameItems(content, start, offset, depth);
      var whole := Empty(Load(Array([]), key));
      var items, last; ghost var us, more;
      ok, items, last, us, more := ReadItems(whole);
      if !ok || !CharAt(content, offset, ']') {
        return false, v, item, t, made;
      }
      depth := depth - 1;
      offset := offset + 1;
      v := Array(items);
      item, t, made := CloseNew(whole, last, us, more, v, key);
    }

    /** The loop over comma-separated elements; `offset` is on the character before the first. */
    method ReadItems(whole: Item)
      returns (ok: bool, items: seq<Value>, last: Item?, ghost us: seq<Tree>, ghost made: set<Item>)
      requires depth <= NESTING_LIMIT && offset < |content| && Growing(whole, null, [], [], {})
      modifies this`offset, this`depth, whole
      ensures ok <==> ParseItems(content, old(offset), old(depth)).Some?
      ensures ok ==> ParseItems(content, old(offset), old(depth)) == Some((items, offset)) && depth == old(depth)
      ensures fresh(made) && (ok ==> Growing(whole, last, us, ItemRoses(items), made))
      decreases NESTING_LIMIT - depth, 2
    {
      hide ParseValue, ParseItems, Skip, StandsFor, Begun, Contents, All, ItemRoses;
      items, last, us, made := [], null, [], {};
      assert ItemRoses([]) == [] by { NoRoses(); }
      PutNothingFirst(ParseItems(content, offset, depth));
      while true
        invariant offset < |content| && depth == old(depth)
        invariant ParseItems(content, old(offset), depth) == PutFirst(items, ParseItems(content, offset, depth))
        invariant Growing(whole, last, us, ItemRoses(items), made) && fresh(made)
        decreases |content| - offset
      {
        ItemsStep(content, offset, depth, items);
        offset := offset + 1;
        SkipWhitespace();
        var v, item; ghost var t, more;
        ok, v, item, t, more := ReadValue(None);
        if !ok {
          return;
        }
        ItemRosesNext(items, v);
        last, us, made := AddLast(whole, last, item, us, ItemRoses(items), made, t, v, None, more);
        items := items + [v];
        SkipWhitespace();
        if !CharAt(content, offset, ',') {
          return;
        }
      }
    }

    method ReadObject(key: Option<string>)
      returns (ok: bool, v: Value, item: Item?, ghost t: Option<Tree>, ghost made: set<Item>)
      requires depth <= NESTING_LIMIT && CharAt(content, offset, '{')
      modifies this`offset, this`depth
      ensures ok <==> ParseObject(content, old(offset), old(depth)).Some?
      ensures ok ==> ParseObject(content, old(offset), old(depth)) == Some((v, offset)) && depth == old(depth)
      ensures fresh(made) && (ok ==> StandsFor(item, t, v, key, made))
      decreases NESTING_LIMIT - depth, 0
    {
      hide ParseValue, ParseMembers, Skip, StandsFor, Begun, Contents, All;
      v, item, t, made := Null, null, None, {};
      if depth >= NESTING_LIMIT {
        return false, v, item, t, made;
      }
      ghost var start := offset;
      depth := depth + 1;
      offset := offset + 1;
      SkipWhitespace();
      if CharAt(content, offset, '}') {
        depth := depth - 1;
        offset := offset + 1;
        v := Object([]);
        item, t, made := Leaf(v, key);
        return true, v, item, t, made;
      }
      if offset >= |content| {
        NothingBehind(content, start, depth);
        offset := offset - 1;
        return false, v, item, t, made;
      }
      offset := offset - 1;
      SkipTwice(content, start + 1);
      SameMembers(content, start, offset, depth);
      var whole := Empty(Load(Object([]), key));
      var members, last; ghost var us, more;
      ok, members, last, us, more := ReadMembers(whole);
      if !ok || !CharAt(content, offset, '}') {
        return false, v, item, t, made;
      }
      depth := depth - 1;
      offset := offset + 1;
      v := Object(members);
      item, t, made := CloseNew(whole, last, us, more, v, key);
    }

    method ReadMembers(whole: Item)
      returns (ok: bool, members: seq<Member>, last: Item?, ghost us: seq<Tree>, ghost made: set<Item>)
      requires depth <= NESTING_LIMIT && offset < |content| && Growing(whole, null, [], [], {})
      modifies this`offset, this`depth, whole
      ensures ok <==> ParseMembers(content, old(offset), old(depth)).Some?
      ensures ok ==> ParseMembers(content, old(offset), old(depth)) == Some((members, offset)) && depth == old(depth)
      ensures fresh(made) && (ok ==> Growing(whole, last, us, MemberRoses(members), made))
      decreases NESTING_LIMIT - depth, 3
    {
      hide ParseMember, ParseMembers, Skip, StandsFor, Begun, Contents, All, MemberRoses;
      members, last, us, made := [], null, [], {};
      assert MemberRoses([]) == [] by { NoRoses(); }
      PutNothingFirst(ParseMembers(content, offset, depth));
      while true
        invariant offset < |content| && depth == old(depth)
        invariant ParseMembers(content, old(offset), depth) == PutFirst(members, ParseMembers(content, offset, depth))
        invariant Growing(whole, last, us, MemberRoses(members), made) && fresh(made)
        decreases |content| - offset
      {
        MembersStep(content, offset, depth, members);
        var m, item; ghost var t, more;
        ok, m, item, t, more := ReadMember();
        if !ok {
          return;
        }
        MemberRosesNext(members, m);
        last, us, made := AddLast(whole, last, item, us, MemberRoses(members), made, t, m.value, Some(m.key), more);
        members := members + [m];
        SkipWhitespace();
        if !CharAt(content, offset, ',') {
          return;
        }
      }
    }

    /** One name, its colon and its value; `offset` is on the character before the name. */
    method ReadMember() returns (ok: bool, m: Member, item: Item?, ghost t: Option<Tree>, ghost made: set<Item>)
      requires depth <= NESTING_LIMIT && offset < |content|
      modifies this`offset, this`depth
      ensures ok <==> ParseMember(content, old(offset), old(depth)).Some?
      ensures ok ==> ParseMember(content, old(offset), old(depth)) == Some((m, offset)) && depth == old(depth)
      ensures fresh(made) && (ok ==> StandsFor(item, t, m.value, Some(m.key), made))
      decreases NESTING_LIMIT - depth, 2
    {
      hide ParseValue, ParseString, Skip, StandsFor;
      m, item, t, made := Member("", Null), null, None, {};
      if offset + 1 >= |content| {
        NothingBehind(content, offset, depth);
        return false, m, item, t, made;
      }
      offset := offset + 1;
      SkipWhitespace();
      var key;
      ok, key := ReadString();
      if !ok {
        return;
      }
      SkipWhitespace();
      if !CharAt(content, offset, ':') {
        return false, m, item, t, made;
      }
      offset := offset + 1;
      SkipWhitespace();
      var v;
      ok, v, item, t, made := ReadValue(Some(key));
      m := Member(key, v);
    }
  }

  /** cJSON_Parse, as the parser runs it on a C string: the value, and a tree of linked items that
      stands for it. */
  method ParseItem(text: string)
    returns (result: Option<Value>, item: Item?, ghost t: Option<Tree>, ghost made: set<Item>)
    ensures result == Parse(text)
    ensures item == null <==> result.None?
    ensures fresh(made) && (result.Some? ==> StandsFor(item, t, result.value, None, made))
  {
    var buffer := new ParseBuffer(text + [NUL]);
    buffer.SkipUtf8Bom();
    buffer.SkipWhitespace();
    var ok, v;
    ok, v, item, t, made := buffer.ReadValue(None);
    if ok {
      result := Some(v);
    } else {
      result, item := None, null;
    }
  }

  /** The value alone. */
  method ParseText(text: string) returns (result: Option<Value>)
    ensures result == Parse(text)
  {
    var item; ghost var t, made;
    result, item, t, made := ParseItem(text);
  }
}
