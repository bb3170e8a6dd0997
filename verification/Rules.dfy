/**
 The rules of src/vmod_cfg_rules.c: lines `regexp -> value`, split in place in the text, which is
 put back as it was, and looked up in order.
*/
module Rules {
  import opened CBuffer
  import opened CString
  import opened JsonText
  import opened JsonSpec

  datatype Rule = Rule(regexp: string, value: string)

  // ---------------------------------------------------------------- what a text means

  function LineEnd(t: string, i: nat): (e: nat)
    requires i <= |t|
    ensures i <= e <= |t| && (e < |t| ==> t[e] == '\n') && forall k :: i <= k < e ==> t[k] != '\n'
    decreases |t| - i
  {
    if i == |t| || t[i] == '\n' then i else LineEnd(t, i + 1)
  }

  predicate ArrowAt(t: string, i: nat) {
    i + 1 < |t| && t[i] == '-' && t[i + 1] == '>'
  }

  /** The place of the first arrow from `i` on; none is |t|. */
  function FindArrow(t: string, i: nat): (r: nat)
    requires i <= |t|
    ensures i <= r <= |t| && (r < |t| ==> ArrowAt(t, r)) && forall k :: i <= k < r ==> !ArrowAt(t, k)
    decreases |t| - i
  {
    if i == |t| || ArrowAt(t, i) then i else FindArrow(t, i + 1)
  }

  datatype Line = Blank | Bad | Good(rule: Rule)

  function ParseLine(line: string, compiles: string -> bool): Line {
    var r := SkipSpace(line, 0);
    if r == |line| then Blank
    else
      var arrow := FindArrow(line, r);
      if arrow == |line| || arrow == r then Bad else ParseRule(line, r, arrow, compiles)
  }

  /** A line with a regexp at `r` and an arrow behind it. */
  function ParseRule(line: string, r: nat, arrow: nat, compiles: string -> bool): Line
    requires r < arrow && arrow + 1 < |line|
  {
    var regexp := line[r..TrimEnd(line, r, arrow)];
    var v := SkipSpace(line, arrow + 2);
    if compiles(regexp) then Good(Rule(regexp, line[v..TrimEnd(line, v, |line|)])) else Bad
  }

  /** The rules of the lines from `i` on, in order, if no line is bad. */
  function RulesOf(t: string, i: nat, compiles: string -> bool): Option<seq<Rule>>
    requires i <= |t|
    decreases |t| - i
  {
    if i == |t| then Some([])
    else
      var e := LineEnd(t, i);
      Add(ParseLine(t[i..e], compiles), RulesOf(t, if e < |t| then e + 1 else e, compiles))
  }

  function Add(line: Line, rest: Option<seq<Rule>>): Option<seq<Rule>> {
    match line
    case Blank => rest
    case Bad => None
    case Good(rule) => if rest.None? then None else Some([rule] + rest.value)
  }

  function Joined(a: Option<seq<Rule>>, b: Option<seq<Rule>>): Option<seq<Rule>> {
    if a.Some? && b.Some? then Some(a.value + b.value) else None
  }

  // ---------------------------------------------------------------- rules_parse

  method TrimBlanks(a: array<char>, ghost lo: nat, from: nat, to: nat, ghost hi: nat) returns (r: nat)
    requires Str(a, lo, hi) && lo <= from <= to <= hi
    ensures from <= r <= to && r == lo + TrimEnd(a[lo..hi], from - lo, to - lo)
    ensures a[from..r] == a[lo..hi][from - lo..r - lo]
  {
    r := to;
    while r > from && IsSpace(a[r - 1])
      invariant from <= r <= to && TrimEnd(a[lo..hi], from - lo, to - lo) == TrimEnd(a[lo..hi], from - lo, r - lo)
    {
      r := r - 1;
    }
    Slices(a, lo, hi, from, r);
  }

  /** strstr for the arrow. */
  method StrArrow(a: array<char>, ghost lo: nat, from: nat, ghost hi: nat) returns (r: int)
    requires Str(a, lo, hi) && lo <= from <= hi
    ensures var f := FindArrow(a[lo..hi], from - lo); if f == hi - lo then r == -1 else r == lo + f
  {
    r := from;
    while a[r] != NUL && !(a[r] == '-' && a[r + 1] == '>')
      invariant from <= r <= hi && FindArrow(a[lo..hi], from - lo) == FindArrow(a[lo..hi], r - lo)
      decreases hi - r
    {
      r := r + 1;
    }
    if a[r] == NUL {
      r := -1;
    }
  }

  /** strchr for the end of a line, or the end of the text. */
  method StrLine(a: array<char>, from: nat, ghost hi: nat) returns (r: nat)
    requires Str(a, 0, hi) && from <= hi
    ensures r == LineEnd(a[..hi], from)
  {
    r := from;
    while a[r] != NUL && a[r] != '\n'
      invariant from <= r <= hi && LineEnd(a[..hi], from) == LineEnd(a[..hi], r)
      decreases hi - r
    {
      r := r + 1;
    }
  }

  /** The body of the loop between the isolation of a line and its restoration. */
  method SplitLine(a: array<char>, line: nat, end: nat, compiles: string -> bool) returns (r: Line)
    requires Str(a, line, end)
    modifies a
    ensures a[..] == old(a[..]) && r == ParseLine(old(a[line..end]), compiles)
  {
    hide SkipSpace, TrimEnd, FindArrow, IsSpace, ParseRule;
    var regexp := SkipBlanks(a, line, line, end);
    if a[regexp] == NUL {
      return Blank;
    }
    var arrow := StrArrow(a, line, regexp, end);
    if arrow == -1 || arrow == regexp {
      return Bad;
    }
    ArrowInside(a[line..end], regexp - line);
    r := SplitAt(a, line, regexp, arrow, end, compiles);
  }

  lemma ArrowInside(t: string, i: nat)
    requires i <= |t|
    ensures FindArrow(t, i) < |t| ==> FindArrow(t, i) + 1 < |t|
  {
  }

  method SplitAt(a: array<char>, ghost line: nat, regexp: nat, arrow: nat, end: nat, compiles: string -> bool)
    returns (r: Line)
    requires Str(a, line, end) && line <= regexp < arrow && arrow + 1 < end
    modifies a
    ensures a[..] == old(a[..])
    ensures r == ParseRule(old(a[line..end]), regexp - line, arrow - line, compiles)
  {
    hide SkipSpace, TrimEnd, IsSpace;
    var regexpEnd := TrimBlanks(a, line, regexp, arrow, end);
    var value := SkipBlanks(a, line, arrow + 2, end);
    var valueEnd := TrimBlanks(a, line, value, end, end);
    r := Isolate(a, regexp, regexpEnd, value, valueEnd, compiles);
  }

  lemma Slices(a: array<char>, lo: nat, hi: nat, x: nat, y: nat)
    requires lo <= x <= y <= hi <= a.Length
    ensures a[lo..hi][x - lo..y - lo] == a[x..y]
  {
    var t := a[..];
    assert a[lo..hi] == t[lo..hi] && a[x..y] == t[x..y];
    assert t[lo..hi][x - lo..y - lo] == t[x..y];
  }

  /** Both parts are ended by a NUL, used, and restored. */
  method Isolate(a: array<char>, regexp: nat, regexpEnd: nat, value: nat, valueEnd: nat, compiles: string -> bool)
    returns (r: Line)
    requires regexp <= regexpEnd < value <= valueEnd < a.Length
    requires forall k :: regexp <= k < valueEnd ==> a[k] != NUL
    modifies a
    ensures a[..] == old(a[..])
    ensures var re := old(a[regexp..regexpEnd]);
      r == if compiles(re) then Good(Rule(re, old(a[value..valueEnd]))) else Bad
  {
    var c, d := a[regexpEnd], a[valueEnd];
    a[regexpEnd] := NUL;
    a[valueEnd] := NUL;
    var re := ReadStr(a, regexp, regexpEnd);
    if compiles(re) {
      var text := ReadStr(a, value, valueEnd);
      r := Good(Rule(re, text));
    } else {
      r := Bad;
    }
    a[regexpEnd] := c;
    a[valueEnd] := d;
  }

  /** rules_parse: the rules of the text, which is left as it was. */
  method RulesParse(a: array<char>, compiles: string -> bool) returns (result: Option<seq<Rule>>)
    requires 0 < a.Length && Str(a, 0, a.Length - 1)
    modifies a
    ensures a[..] == old(a[..])
    ensures result == RulesOf(old(a[..a.Length - 1]), 0, compiles)
  {
    hide RulesOf, ParseLine, LineEnd;
    ghost var t := a[..a.Length - 1];
    var rules: seq<Rule> := [];
    NoRulesYet(t, compiles);
    var line := 0;
    while a[line] != NUL
      invariant line <= |t| && a[..] == old(a[..]) && a[..|t|] == t
      invariant RulesOf(t, 0, compiles) == Joined(Some(rules), RulesOf(t, line, compiles))
      decreases |t| - line
    {
      LineStep(t, line, rules, compiles);
      var r, end := OneLine(a, line, compiles);
      if r == Bad {
        return None;
      }
      if r.Good? {
        rules := rules + [r.rule];
      }
      line := if a[end] == '\n' then end + 1 else end;
    }
    NoRulesLeft(t, rules, compiles);
    result := Some(rules);
  }

  /** One turn of the loop: the line that starts at `line`, ended by a NUL while it is split. */
  method OneLine(a: array<char>, line: nat, compiles: string -> bool) returns (r: Line, end: nat)
    requires 0 < a.Length && Str(a, 0, a.Length - 1) && line < a.Length - 1
    modifies a
    ensures a[..] == old(a[..])
    ensures var t := old(a[..a.Length - 1]);
      end == LineEnd(t, line) && r == ParseLine(t[line..end], compiles)
  {
    hide ParseLine;
    ghost var t := a[..a.Length - 1];
    end := StrLine(a, line, a.Length - 1);
    var ended := a[end];
    a[end] := NUL;
    assert a[line..end] == t[line..end];
    r := SplitLine(a, line, end, compiles);
    a[end] := ended;
  }

  lemma LineStep(t: string, line: nat, rules: seq<Rule>, compiles: string -> bool)
    requires line < |t|
    ensures var e := LineEnd(t, line);
      var next := if e < |t| then e + 1 else e;
      var rest := RulesOf(t, next, compiles);
      && line < next <= |t| && (e < |t| ==> t[e] == '\n')
      && Joined(Some(rules), RulesOf(t, line, compiles)) == match ParseLine(t[line..e], compiles)
        case Blank => Joined(Some(rules), rest)
        case Bad => None
        case Good(rule) => Joined(Some(rules + [rule]), rest)
  {
    hide ParseLine;
    var e := LineEnd(t, line);
    var rest := RulesOf(t, if e < |t| then e + 1 else e, compiles);
    if rest.Some? && ParseLine(t[line..e], compiles).Good? {
      var rule := ParseLine(t[line..e], compiles).rule;
      assert rules + ([rule] + rest.value) == rules + [rule] + rest.value;
    }
  }

  lemma NoRulesYet(t: string, compiles: string -> bool)
    ensures RulesOf(t, 0, compiles) == Joined(Some([]), RulesOf(t, 0, compiles))
  {
    hide RulesOf;
    var r := RulesOf(t, 0, compiles);
    if r.Some? { assert [] + r.value == r.value; }
  }

  lemma NoRulesLeft(t: string, rules: seq<Rule>, compiles: string -> bool)
    ensures Joined(Some(rules), RulesOf(t, |t|, compiles)) == Some(rules)
  {
    assert rules + [] == rules;
  }

  // ---------------------------------------------------------------- writing rules down

  /** Rules that can be written on a line: what is trimmed or cut off does not occur in them. */
  predicate Writable(rule: Rule) {
    && rule.regexp != "" && !IsSpace(rule.regexp[0]) && !IsSpace(rule.regexp[|rule.regexp| - 1])
    && (forall i :: 0 <= i < |rule.regexp| ==> !ArrowAt(rule.regexp, i))
    && (rule.value != "" ==> !IsSpace(rule.value[0]) && !IsSpace(rule.value[|rule.value| - 1]))
    && '\n' !in rule.regexp && '\n' !in rule.value
  }

  function Written(rule: Rule): string {
    rule.regexp + " -> " + rule.value
  }

  function Text(rules: seq<Rule>): string {
    if rules == [] then "" else Written(rules[0]) + "\n" + Text(rules[1..])
  }

  lemma WrittenArrow(rule: Rule)
    requires Writable(rule)
    ensures FindArrow(Written(rule), 0) == |rule.regexp| + 1
  {
    var t, n := Written(rule), |rule.regexp|;
    assert ArrowAt(t, n + 1);
    forall i | 0 <= i <= n ensures !ArrowAt(t, i) {
      if i + 1 < n { assert !ArrowAt(rule.regexp, i); }
    }
  }

  lemma WrittenRegexp(rule: Rule)
    requires Writable(rule)
    ensures var t, n := Written(rule), |rule.regexp|;
      SkipSpace(t, 0) == 0 && TrimEnd(t, 0, n + 1) == n && t[0..n] == rule.regexp
  {
    var t, n := Written(rule), |rule.regexp|;
    assert t[n] == ' ' && t[0] == rule.regexp[0] && t[n - 1] == rule.regexp[n - 1];
    assert TrimEnd(t, 0, n + 1) == TrimEnd(t, 0, n);
  }

  lemma WrittenValue(rule: Rule)
    requires Writable(rule)
    ensures var t, n := Written(rule), |rule.regexp|;
      SkipSpace(t, n + 3) == n + 4 && TrimEnd(t, n + 4, |t|) == |t| && t[n + 4..|t|] == rule.value
  {
    var t, n := Written(rule), |rule.regexp|;
    assert t[n + 3] == ' ' && SkipSpace(t, n + 3) == SkipSpace(t, n + 4);
    if rule.value != "" {
      assert t[n + 4] == rule.value[0] && t[|t| - 1] == rule.value[|rule.value| - 1];
    }
  }

  lemma WrittenParses(rule: Rule, compiles: string -> bool)
    requires Writable(rule) && compiles(rule.regexp)
    ensures ParseLine(Written(rule), compiles) == Good(rule)
  {
    hide Writable, SkipSpace, TrimEnd, FindArrow;
    WrittenArrow(rule);
    WrittenRegexp(rule);
    WrittenValue(rule);
  }

  lemma {:induction false} LineEndShift(a: string, t: string, i: nat)
    requires i <= |t|
    ensures LineEnd(a + t, |a| + i) == |a| + LineEnd(t, i)
    decreases |t| - i
  {
    if i < |t| && t[i] != '\n' {
      LineEndShift(a, t, i + 1);
    }
  }

  lemma {:induction false} RulesShift(a: string, t: string, i: nat, compiles: string -> bool)
    requires i <= |t|
    ensures RulesOf(a + t, |a| + i, compiles) == RulesOf(t, i, compiles)
    decreases |t| - i
  {
    hide ParseLine, LineEnd;
    if i < |t| {
      var e := LineEnd(t, i);
      LineEndShift(a, t, i);
      assert (a + t)[|a| + i..|a| + e] == t[i..e];
      LineStep(t, i, [], compiles);
      RulesShift(a, t, if e < |t| then e + 1 else e, compiles);
    }
  }

  lemma FirstLine(line: string, rest: string, compiles: string -> bool)
    requires '\n' !in line
    ensures RulesOf(line + "\n" + rest, 0, compiles) == Add(ParseLine(line, compiles), RulesOf(rest, 0, compiles))
  {
    hide ParseLine;
    var t := line + "\n" + rest;
    var e := LineEnd(t, 0);
    assert t[|line|] == '\n';
    assert e == |line| by {
      assert forall k :: 0 <= k < |line| ==> t[k] == line[k] && line[k] in line;
    }
    assert t[0..e] == line;
    RulesShift(line + "\n", rest, 0, compiles);
  }

  /** Rules that are written down are read back, in order. */
  lemma {:induction false} RulesReadBack(rules: seq<Rule>, compiles: string -> bool)
    requires forall r <- rules :: Writable(r) && compiles(r.regexp)
    ensures RulesOf(Text(rules), 0, compiles) == Some(rules)
    decreases |rules|
  {
    hide ParseLine, RulesOf, Writable;
    if rules == [] {
      EmptyText(compiles);
    } else {
      assert rules[0] in rules && rules == [rules[0]] + rules[1..];
      NoNewLine(rules[0]);
      WrittenParses(rules[0], compiles);
      RulesReadBack(rules[1..], compiles);
      FirstLine(Written(rules[0]), Text(rules[1..]), compiles);
    }
  }

  lemma EmptyText(compiles: string -> bool)
    ensures RulesOf("", 0, compiles) == Some([])
  {
  }

  lemma NoNewLine(rule: Rule)
    requires Writable(rule)
    ensures '\n' !in Written(rule)
  {
  }

  // ---------------------------------------------------------------- vmod_rules_get

  /** The value of the first rule that matches, or the fallback. */
  method Get(rules: seq<Rule>, matches: string -> bool, fallback: Option<string>) returns (result: Option<string>)
    ensures (forall r <- rules :: !matches(r.regexp)) ==> result == fallback
    ensures forall i :: (0 <= i < |rules| && matches(rules[i].regexp)
      && (forall k :: 0 <= k < i ==> !matches(rules[k].regexp))) ==> result == Some(rules[i].value)
  {
    result := fallback;
    for i := 0 to |rules|
      invariant result == fallback && forall k :: 0 <= k < i ==> !matches(rules[k].regexp)
    {
      if matches(rules[i].regexp) {
        return Some(rules[i].value);
      }
    }
  }
}
