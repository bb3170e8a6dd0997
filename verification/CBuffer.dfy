/**
 NUL-terminated strings in a buffer: `a[lo..hi]` with a NUL at `hi`.
*/
module CBuffer {
  import opened CString
  import opened JsonText

  /** The C string `a[lo..hi]`. */
  ghost predicate Str(a: array<char>, lo: nat, hi: nat)
    reads a
  {
    lo <= hi < a.Length && a[hi] == NUL && forall k :: lo <= k < hi ==> a[k] != NUL
  }

  method ReadStr(a: array<char>, lo: nat, ghost hi: nat) returns (s: string)
    requires Str(a, lo, hi)
    ensures s == a[lo..hi]
  {
    s := [];
    var i := lo;
    while a[i] != NUL
      invariant lo <= i <= hi && s == a[lo..i]
      decreases hi - i
    {
      s := s + [a[i]];
      i := i + 1;
    }
  }

  method SkipBlanks(a: array<char>, ghost lo: nat, from: nat, ghost hi: nat) returns (r: nat)
    requires Str(a, lo, hi) && lo <= from <= hi
    ensures lo <= r <= hi && r == lo + SkipSpace(a[lo..hi], from - lo)
  {
    r := from;
    while a[r] != NUL && IsSpace(a[r])
      invariant from <= r <= hi && SkipSpace(a[lo..hi], from - lo) == SkipSpace(a[lo..hi], r - lo)
      decreases hi - r
    {
      r := r + 1;
    }
  }
}
