/**
 What the lines of src/vmod_cfg_rules.c mean as they are written: rules with blanks around their parts,
 blank lines and bad ones, up to whole texts.
*/
module RulesLines {
  import opened CString
  import opened Blanks
  import opened JsonSpec
  import opened Rules

  predicate NoArrow(s: string) {
    forall i :: 0 <= i < |s| - 1 ==> !(s[i] == '-' && s[i + 1] == '>')
  }

  lemma {:induction false} FindArrowAt(t: string, i: nat, e: nat)
    requires i <= e <= |t| && (forall k :: i <= k < e ==> !ArrowAt(t, k)) && (e < |t| ==> ArrowAt(t, e))
    ensures FindArrow(t, i) == e
    decreases e - i
  {
    if i < e { FindArrowAt(t, i + 1, e); }
  }

  /** The parts of a line with a rule. */
  predicate Parts(lead: string, regexp: string, u: string, v: string, value: string, w: string) {
    && IsBlank(lead) && IsBlank(u) && IsBlank(v) && IsBlank(w)
    && regexp != "" && Trimmed(regexp) && NoArrow(regexp) && Trimmed(value)
  }

  lemma ArrowBehind(lead: string, regexp: string, u: string, rest: string)
    requires IsBlank(lead) && IsBlank(u) && regexp != "" && Trimmed(regexp) && NoArrow(regexp)
    ensures var t, r := lead + regexp + u + "->" + rest, |lead|;
      SkipSpace(t, 0) == r && FindArrow(t, r) == r + |regexp| + |u|
  {
    var t, r := lead + regexp + u + "->" + rest, |lead|;
    var e := r + |regexp| + |u|;
    assert forall k :: 0 <= k < r ==> t[k] == lead[k];
    assert t[r] == regexp[0];
    SkipSpaceAt(t, 0, r);
    forall k | r <= k < e
      ensures !ArrowAt(t, k)
    {
      if k < r + |regexp| {
        assert t[k] == regexp[k - r];
        if k + 1 < r + |regexp| {
          assert t[k + 1] == regexp[k + 1 - r];
        } else if u != "" {
          assert t[k + 1] == u[0];
        } else {
          assert t[k + 1] == '-';
        }
      } else {
        assert t[k] == u[k - r - |regexp|];
      }
    }
    assert t[e] == '-' && t[e + 1] == '>';
    FindArrowAt(t, r, e);
  }

  /** The value behind an arrow. */
  lemma ValueBehind(a: string, v: string, value: string, w: string)
    requires IsBlank(v) && IsBlank(w) && Trimmed(value)
    ensures var t, i := a + v + value + w, |a|;
      var s := SkipSpace(t, i); s <= |t| && t[s..TrimEnd(t, s, |t|)] == value
  {
    var t, i := a + v + value + w, |a|;
    if value == "" {
      forall k | i <= k < |t| ensures White(t[k]) {
        assert t[k] == if k < i + |v| then v[k - i] else w[k - i - |v|];
      }
      SkipSpaceAt(t, i, |t|);
      TrimEndAt(t, |t|, |t|, |t|);
    } else {
      var s := i + |v|;
      var e := s + |value|;
      forall k | i <= k < s ensures White(t[k]) { assert t[k] == v[k - i]; }
      forall k | e <= k < |t| ensures White(t[k]) { assert t[k] == w[k - e]; }
      assert t[s] == value[0] && t[e - 1] == value[|value| - 1];
      SkipSpaceAt(t, i, s);
      TrimEndAt(t, s, e, |t|);
      assert t[s..e] == value;
    }
  }

  /** A rule, with blanks around its parts; it is bad if its expression does not compile. */
  lemma RuleLine(lead: string, regexp: string, u: string, v: string, value: string, w: string, compiles: string -> bool)
    requires Parts(lead, regexp, u, v, value, w)
    ensures ParseLine(lead + regexp + u + "->" + v + value + w, compiles)
      == if compiles(regexp) then Good(Rule(regexp, value)) else Bad
  {
    hide SkipSpace, TrimEnd, FindArrow, Trimmed, NoArrow, IsBlank, ParseRule;
    var rest := v + value + w;
    var t := lead + regexp + u + "->" + rest;
    Regroup(lead + regexp + u, "->", v, value, w);
    ArrowBehind(lead, regexp, u, rest);
    RuleAt(lead, regexp, u, v, value, w, compiles);
    ArrowIn(lead + regexp + u, rest);
  }

  lemma ArrowIn(a: string, rest: string)
    ensures |a + "->" + rest| > |a| + 1
  {
  }

  lemma Regroup(a: string, arrow: string, v: string, value: string, w: string)
    ensures a + arrow + v + value + w == a + arrow + (v + value + w)
    ensures a + arrow + (v + value + w) == a + (arrow + (v + value + w))
  {
  }

  lemma RuleAt(lead: string, regexp: string, u: string, v: string, value: string, w: string, compiles: string -> bool)
    requires Parts(lead, regexp, u, v, value, w)
    ensures ParseRule(lead + regexp + u + "->" + (v + value + w), |lead|, |lead + regexp + u|, compiles)
      == if compiles(regexp) then Good(Rule(regexp, value)) else Bad
  {
    hide SkipSpace, TrimEnd, Trimmed, NoArrow, IsBlank;
    var a := lead + regexp + u;
    Regroup(a, "->", v, value, w);
    ExpressionTrims(lead, regexp, u, "->" + (v + value + w));
    ValueBehind(a + "->", v, value, w);
  }

  lemma ExpressionTrims(lead: string, regexp: string, u: string, rest: string)
    requires IsBlank(u) && regexp != "" && Trimmed(regexp)
    ensures var t, r := lead + regexp + u + rest, |lead|;
      var e := r + |regexp| + |u|;
      t[r..TrimEnd(t, r, e)] == regexp
  {
    var t, r := lead + regexp + u + rest, |lead|;
    var m := r + |regexp|;
    forall k | m <= k < m + |u| ensures White(t[k]) { assert t[k] == u[k - m]; }
    assert t[m - 1] == regexp[|regexp| - 1];
    TrimEndAt(t, r, m, m + |u|);
    assert t[r..m] == regexp;
  }

  lemma BlankLine(w: string, compiles: string -> bool)
    requires IsBlank(w)
    ensures ParseLine(w, compiles) == Blank
  {
    SkipSpaceAt(w, 0, |w|);
  }

  /** Without an arrow, and with nothing in front of it, a line is bad. */
  lemma ArrowMissing(lead: string, text: string, compiles: string -> bool)
    requires IsBlank(lead) && text != "" && !White(text[0]) && NoArrow(text)
    ensures ParseLine(lead + text, compiles) == Bad
  {
    var t, r := lead + text, |lead|;
    assert forall k :: 0 <= k < r ==> t[k] == lead[k];
    assert t[r] == text[0];
    SkipSpaceAt(t, 0, r);
    forall k | r <= k < |t| ensures !ArrowAt(t, k) {
      assert t[k] == text[k - r];
      if k + 1 < |t| { assert t[k + 1] == text[k + 1 - r]; }
    }
    FindArrowAt(t, r, |t|);
  }

  lemma ArrowFirst(lead: string, rest: string, compiles: string -> bool)
    requires IsBlank(lead)
    ensures ParseLine(lead + "->" + rest, compiles) == Bad
  {
    var t, r := lead + "->" + rest, |lead|;
    assert forall k :: 0 <= k < r ==> t[k] == lead[k];
    assert t[r] == '-' && t[r + 1] == '>';
    SkipSpaceAt(t, 0, r);
    FindArrowAt(t, r, r);
  }

  // ---------------------------------------------------------------- whole texts

  function LinesText(lines: seq<string>): string {
    if lines == [] then "" else lines[0] + "\n" + LinesText(lines[1..])
  }

  predicate Plain(lines: seq<string>) {
    forall i :: 0 <= i < |lines| ==> '\n' !in lines[i]
  }

  /** The rules of lines, leaving the blank ones out. */
  function GoodOnes(lines: seq<string>, compiles: string -> bool): seq<Rule> {
    if lines == [] then []
    else
      var r := ParseLine(lines[0], compiles);
      (if r.Good? then [r.rule] else []) + GoodOnes(lines[1..], compiles)
  }

  ghost predicate AnyBad(lines: seq<string>, compiles: string -> bool) {
    exists i :: 0 <= i < |lines| && ParseLine(lines[i], compiles) == Bad
  }

  lemma FirstOf(l: string, more: seq<string>, compiles: string -> bool)
    ensures AnyBad([l] + more, compiles) <==> ParseLine(l, compiles) == Bad || AnyBad(more, compiles)
    ensures Plain([l] + more) <==> '\n' !in l && Plain(more)
    ensures var r := ParseLine(l, compiles);
      GoodOnes([l] + more, compiles) == (if r.Good? then [r.rule] else []) + GoodOnes(more, compiles)
  {
    hide ParseLine;
    var all := [l] + more;
    assert all[0] == l && all[1..] == more;
    assert forall i :: 0 <= i < |more| ==> more[i] == all[i + 1];
    assert forall i :: 0 < i < |all| ==> all[i] == more[i - 1];
  }

  lemma NoneOf(compiles: string -> bool)
    ensures !AnyBad([], compiles) && GoodOnes([], compiles) == [] && LinesText([]) == ""
  {
  }

  /** A text is refused if and only if one of its lines is bad; otherwise it has the rules of its lines
      in order, whether or not the last line is ended. */
  lemma {:induction false} LinesRules(lines: seq<string>, last: string, compiles: string -> bool)
    requires Plain(lines + [last])
    ensures RulesOf(LinesText(lines) + last, 0, compiles)
      == if AnyBad(lines + [last], compiles) then None else Some(GoodOnes(lines + [last], compiles))
    decreases |lines|
  {
    hide ParseLine, RulesOf, AnyBad, Plain, GoodOnes;
    if lines == [] {
      assert lines + [last] == [last] + [];
      FirstOf(last, [], compiles);
      NoneOf(compiles);
      assert LinesText(lines) + last == last;
      LastLine(last, compiles);
      var r := ParseLine(last, compiles);
      assert (if r.Good? then [r.rule] else []) + [] == if r.Good? then [r.rule] else [];
    } else {
      var l, more := lines[0], lines[1..] + [last];
      var rest := LinesText(lines[1..]) + last;
      assert lines + [last] == [l] + more;
      FirstOf(l, more, compiles);
      LinesRules(lines[1..], last, compiles);
      assert LinesText(lines) + last == l + "\n" + rest;
      FirstLine(l, rest, compiles);
      var good := GoodOnes(more, compiles);
      assert [] + good == good;
    }
  }

  lemma LastLine(last: string, compiles: string -> bool)
    requires '\n' !in last
    ensures RulesOf(last, 0, compiles) == match ParseLine(last, compiles)
      case Bad => None
      case Good(rule) => Some([rule])
      case Blank => Some([])
  {
    hide ParseLine;
    if last == "" {
      BlankLine("", compiles);
    } else {
      assert LineEnd(last, 0) == |last| by { NoLineEnd(last, 0); }
      assert last[0..|last|] == last;
      assert RulesOf(last, |last|, compiles) == Some([]);
      if ParseLine(last, compiles).Good? {
        assert [ParseLine(last, compiles).rule] + [] == [ParseLine(last, compiles).rule];
      }
    }
  }

  lemma {:induction false} NoLineEnd(t: string, i: nat)
    requires '\n' !in t && i <= |t|
    ensures LineEnd(t, i) == |t|
    decreases |t| - i
  {
    if i < |t| {
      assert t[i] in t;
      NoLineEnd(t, i + 1);
    }
  }
}
