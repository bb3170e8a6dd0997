/**
 Trees that are nested too deeply for the parser of src/cJSON.c: what was printed is refused. With
 the round trip this makes the limit exact.
*/
module JsonDepth {
  import opened JsonText
  import opened JsonSpec
  import opened JsonRoundTrip

  lemma ArrayAtLimit(t: string, off: nat)
    requires CharAt(t, off, '[')
    ensures ParseArray(t, off, NESTING_LIMIT) == None
  {
  }

  lemma ArrayFails(t: string, off: nat, depth: nat)
    requires depth < NESTING_LIMIT && CharAt(t, off, '[') && !CharAt(t, Skip(t, off + 1), ']')
    requires ParseItems(t, off, depth + 1) == None
    ensures ParseArray(t, off, depth) == None
  {
  }

  lemma FirstItemFails(t: string, off: nat, depth: nat, start: nat)
    requires depth <= NESTING_LIMIT && off < |t| && Skip(t, off + 1) == start && ParseValue(t, start, depth) == None
    ensures ParseItems(t, off, depth) == None
  {
  }

  lemma LaterItemFails(t: string, off: nat, depth: nat, start: nat, v: Value, end: nat)
    requires depth <= NESTING_LIMIT && off < |t| && Skip(t, off + 1) == start
    requires ParseValue(t, start, depth) == Some((v, end)) && CharAt(t, end, ',')
    requires ParseItems(t, end, depth) == None
    ensures ParseItems(t, off, depth) == None
  {
    SkipNothing(t, end);
  }

  lemma ObjectAtLimit(t: string, off: nat)
    requires CharAt(t, off, '{')
    ensures ParseObject(t, off, NESTING_LIMIT) == None
  {
  }

  lemma ObjectFails(t: string, off: nat, depth: nat)
    requires depth < NESTING_LIMIT && CharAt(t, off, '{') && !CharAt(t, Skip(t, off + 1), '}')
    requires ParseMembers(t, off, depth + 1) == None
    ensures ParseObject(t, off, depth) == None
  {
  }

  lemma MemberFails(t: string, off: nat, depth: nat, k: nat, key: string, o: nat, start: nat)
    requires depth <= NESTING_LIMIT && off < |t| && Skip(t, off + 1) == k
    requires ParseString(t, k) == Some((key, o)) && CharAt(t, o, ':') && Skip(t, o + 1) == start
    requires ParseValue(t, start, depth) == None
    ensures ParseMember(t, off, depth) == None
  {
    SkipNothing(t, o);
  }

  lemma FirstMemberFails(t: string, off: nat, depth: nat)
    requires depth <= NESTING_LIMIT && off < |t| && ParseMember(t, off, depth) == None
    ensures ParseMembers(t, off, depth) == None
  {
  }

  lemma LaterMemberFails(t: string, off: nat, depth: nat, m: Member, end: nat)
    requires depth <= NESTING_LIMIT && off < |t| && ParseMember(t, off, depth) == Some((m, end))
    requires CharAt(t, end, ',') && ParseMembers(t, end, depth) == None
    ensures ParseMembers(t, off, depth) == None
  {
    SkipNothing(t, end);
  }

  lemma {:induction false} ValueTooDeep(t: string, off: nat, v: Value, depth: nat, format: bool)
    requires Plain(v) && depth <= NESTING_LIMIT < depth + Depth(v) && Starts(t, off, Text(v, depth, format))
    ensures ParseValue(t, off, depth) == None
    decreases v, 0
  {
    hide ParseArray, ParseObject, ParseString, ParseNumber, ItemsText, MembersText;
    WordsDiffer(t, off, v, depth, format);
    match v
    case Array(items) => ArrayTooDeep(t, off, items, depth, format);
    case Object(members) => ObjectTooDeep(t, off, members, depth, format);
    case _ =>
  }

  lemma {:induction false} ArrayTooDeep(t: string, off: nat, items: seq<Value>, depth: nat, format: bool)
    requires PlainItems(items) && depth <= NESTING_LIMIT < depth + 1 + ItemsDepth(items)
    requires Starts(t, off, "[" + ItemsText(items, depth + 1, format) + "]") && CharAt(t, off, '[')
    ensures ParseArray(t, off, depth) == None
    decreases items, 2
  {
    hide ParseValue, ParseArray, ParseItems, Text, Skip, ItemsText;
    if depth == NESTING_LIMIT {
      ArrayAtLimit(t, off);
    } else {
      var body := ItemsText(items, depth + 1, format);
      StartsSplit(t, off, "[" + body, "]");
      StartsSplit(t, off, "[", body);
      StartsAt(t, off + 1 + |body|, "]", 0);
      ItemsFirst(items, depth + 1, format);
      StartsAt(t, off + 1, body, 0);
      SkipNothing(t, off + 1);
      ItemsTooDeep(t, off, 0, items, depth + 1, format);
      ArrayFails(t, off, depth);
    }
  }

  lemma {:induction false} ItemsTooDeep(t: string, off: nat, blank: nat, items: seq<Value>, depth: nat, format: bool)
    requires items != [] && PlainItems(items) && depth <= NESTING_LIMIT < depth + ItemsDepth(items)
    requires off < |t| && blank <= 1 && (blank == 1 ==> CharAt(t, off + 1, ' '))
    requires Starts(t, off + 1 + blank, ItemsText(items, depth, format))
    ensures ParseItems(t, off, depth) == None
    decreases items, 1
  {
    hide ParseValue, ParseItems, Text, Skip, ItemsText;
    var start := off + 1 + blank;
    var end := start + |Text(items[0], depth, format)|;
    ItemsLayout(t, start, items, depth, format);
    FirstChar(items[0], depth, format);
    StartsAt(t, start, Text(items[0], depth, format), 0);
    SkipOneBlank(t, off + 1, blank);
    if depth + Depth(items[0]) > NESTING_LIMIT {
      ValueTooDeep(t, start, items[0], depth, format);
      FirstItemFails(t, off, depth, start);
    } else {
      ValueRoundTrip(t, start, items[0], depth, format);
      ItemsTooDeep(t, end, if format then 1 else 0, items[1..], depth, format);
      LaterItemFails(t, off, depth, start, items[0], end);
    }
  }

  lemma {:induction false} ObjectTooDeep(t: string, off: nat, members: seq<Member>, depth: nat, format: bool)
    requires PlainMembers(members) && depth <= NESTING_LIMIT < depth + 1 + MembersDepth(members)
    requires Starts(t, off, "{" + (NewLine(format) + MembersText(members, depth + 1, format) + (Indent(depth, format) + "}")))
    requires CharAt(t, off, '{')
    ensures ParseObject(t, off, depth) == None
    decreases members, 2
  {
    hide ParseValue, ParseObject, ParseMembers, Text, Skip, MembersText, Starts, NewLine, Indent;
    if depth == NESTING_LIMIT {
      ObjectAtLimit(t, off);
    } else {
      var body, close := NewLine(format) + MembersText(members, depth + 1, format), Indent(depth, format) + "}";
      StartsSplit(t, off, "{", body + close);
      MembersFirst(members, depth + 1, format);
      BlankRun(depth + 1, format);
      LeadingBlank(t, off + 1, NewLine(format) + Indent(depth + 1, format), body + close);
      MembersTooDeep(t, off, members, depth + 1, format);
      ObjectFails(t, off, depth);
    }
  }

  lemma {:induction false} MemberTooDeep(t: string, off: nat, m: Member, depth: nat, format: bool)
    requires IsCString(m.key) && Plain(m.value) && depth <= NESTING_LIMIT < depth + Depth(m.value) && off < |t|
    requires Starts(t, off + 1, NewLine(format) + MemberText(m, depth, format))
    ensures ParseMember(t, off, depth) == None
    decreases m.value, 1
  {
    hide ParseValue, ParseMember, ParseString, Text, Skip, MemberText, Starts, Quoted, Indent, NewLine, Colon, Plain, IsCString;
    var k := off + 1 + |NewLine(format)| + |Indent(depth, format)|;
    var o := k + |Quoted(m.key)|;
    var start := o + |Colon(format)|;
    MemberStarts(t, off, m, depth, format);
    ValueTooDeep(t, start, m.value, depth, format);
    MemberFails(t, off, depth, k, m.key, o, start);
  }

  lemma {:induction false} MembersTooDeep(t: string, off: nat, members: seq<Member>, depth: nat, format: bool)
    requires members != [] && PlainMembers(members) && 0 < depth <= NESTING_LIMIT < depth + MembersDepth(members) && off < |t|
    requires Starts(t, off + 1, NewLine(format) + MembersText(members, depth, format) + (Indent(depth - 1, format) + "}"))
    ensures ParseMembers(t, off, depth) == None
    decreases members, 1
  {
    hide ParseMember, ParseMembers, Text, Skip, MemberText, MembersText, Starts, NewLine, Indent;
    var nl, m, close := NewLine(format), MemberText(members[0], depth, format), Indent(depth - 1, format) + "}";
    var o := off + 1 + |nl| + |m|;
    MembersLayout(t, off + 1, members, depth, format, close);
    if depth + Depth(members[0].value) > NESTING_LIMIT {
      MemberTooDeep(t, off, members[0], depth, format);
      FirstMemberFails(t, off, depth);
    } else {
      MemberRoundTrip(t, off, members[0], depth, format);
      MembersTooDeep(t, o, members[1..], depth, format);
      LaterMemberFails(t, off, depth, members[0], o);
    }
  }

  /** What is printed parses to the same tree if and only if the tree is not nested too deeply; then
      the text is refused. */
  lemma RoundTripIff(v: Value, format: bool)
    requires Plain(v)
    ensures Parse(Text(v, 0, format)) == if Depth(v) <= NESTING_LIMIT then Some(v) else None
  {
    hide Text, ParseValue, Skip, Plain;
    if Depth(v) <= NESTING_LIMIT {
      RoundTrip(v, format);
    } else {
      var x := Text(v, 0, format);
      var t := x + [NUL];
      FirstChar(v, 0, format);
      assert Starts(t, 0, x);
      SkipNothing(t, 0);
      ValueTooDeep(t, 0, v, 0, format);
    }
  }
}
