/**
 White space by its bytes, and trimming it: what SkipSpace and TrimEnd find in texts put together from
 blanks and other parts.
*/
module Blanks {
  import opened CString

  /** The bytes isspace takes: space, tab, line feed, vertical tab, form feed and carriage return. */
  predicate White(c: char) {
    c as int in {32, 9, 10, 11, 12, 13}
  }

  predicate IsBlank(w: string) {
    forall i :: 0 <= i < |w| ==> White(w[i])
  }

  predicate Trimmed(s: string) {
    s != "" ==> !White(s[0]) && !White(s[|s| - 1])
  }

  lemma WhiteIsSpace(c: char)
    ensures White(c) <==> IsSpace(c)
  {
  }

  lemma {:induction false} TrimEndAt(t: string, lo: nat, e: nat, hi: nat)
    requires lo <= e <= hi <= |t| && (forall k :: e <= k < hi ==> White(t[k])) && (e > lo ==> !White(t[e - 1]))
    ensures TrimEnd(t, lo, hi) == e
    decreases hi
  {
    if hi > e {
      WhiteIsSpace(t[hi - 1]);
      TrimEndAt(t, lo, e, hi - 1);
    } else if hi > lo {
      WhiteIsSpace(t[hi - 1]);
    }
  }

  lemma {:induction false} SkipSpaceAt(t: string, i: nat, e: nat)
    requires i <= e <= |t| && (forall k :: i <= k < e ==> White(t[k])) && (e < |t| ==> !White(t[e]))
    ensures SkipSpace(t, i) == e
    decreases e - i
  {
    if i < |t| { WhiteIsSpace(t[i]); }
    if i < e { SkipSpaceAt(t, i + 1, e); }
  }
}
