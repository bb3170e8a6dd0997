/**
 NUL-terminated byte strings and the order `strcmp` puts on them. A C string is a
 `string` whose characters stand for its bytes; the terminator is not stored.
*/
module CString {

  /** The sign `strcmp(a, b)` returns: negative, zero or positive. */
  function Strcmp(a: string, b: string): int {
    if a == [] || b == [] then |a| - |b|
    else if a[0] != b[0] then a[0] as int - b[0] as int
    else Strcmp(a[1..], b[1..])
  }

  predicate Less(a: string, b: string) {
    Strcmp(a, b) < 0
  }

  lemma {:induction false} StrcmpZero(a: string, b: string)
    ensures Strcmp(a, b) == 0 <==> a == b
  {
    if a != [] && b != [] && a[0] == b[0] {
      StrcmpZero(a[1..], b[1..]);
      assert a == [a[0]] + a[1..] && b == [b[0]] + b[1..];
    }
  }

  lemma {:induction false} StrcmpFlip(a: string, b: string)
    ensures Strcmp(a, b) == -Strcmp(b, a)
  {
    if a != [] && b != [] && a[0] == b[0] {
      StrcmpFlip(a[1..], b[1..]);
    }
  }

  lemma {:induction false} LessTrans(a: string, b: string, c: string)
    requires Less(a, b) && Less(b, c)
    ensures Less(a, c)
  {
    if a != [] && b != [] && c != [] && a[0] == b[0] == c[0] {
      LessTrans(a[1..], b[1..], c[1..]);
    }
  }

  /** The order of the bytes: the first place where the strings differ decides, and an end comes first. */
  lemma {:induction false} LessIs(a: string, b: string)
    ensures Less(a, b) <==> exists n :: 0 <= n <= |a| && n < |b| && a[..n] == b[..n] && (n == |a| || a[n] as int < b[n] as int)
    decreases |a|
  {
    if a == [] || b == [] {
      if b != [] { assert a[..0] == b[..0]; }
    } else if a[0] != b[0] {
      if a[0] as int < b[0] as int { assert a[..0] == b[..0]; }
      forall n | 0 < n <= |a| && n < |b| ensures a[..n] != b[..n] {
        assert a[..n][0] != b[..n][0];
      }
    } else {
      LessIs(a[1..], b[1..]);
      forall n | 0 <= n < |a| && n + 1 < |b|
        ensures a[1..][..n] == b[1..][..n] <==> a[..n + 1] == b[..n + 1]
      {
        assert a[..n + 1] == [a[0]] + a[1..][..n] && b[..n + 1] == [b[0]] + b[1..][..n];
      }
      if Less(a[1..], b[1..]) {
        var n :| 0 <= n <= |a[1..]| && n < |b[1..]| && a[1..][..n] == b[1..][..n]
          && (n == |a[1..]| || a[1..][n] as int < b[1..][n] as int);
        assert a[..n + 1] == b[..n + 1];
      }
      if n :| 0 <= n <= |a| && n < |b| && a[..n] == b[..n] && (n == |a| || a[n] as int < b[n] as int) {
        assert a[1..][..n - 1] == b[1..][..n - 1];
      }
    }
  }

  // ---------------------------------------------------------------- white space

  /** isspace, for bytes. */
  predicate IsSpace(c: char) {
    c == ' ' || '\t' <= c <= '\r'
  }

  /** The first place from `i` on that holds no white space. */
  function SkipSpace(t: string, i: nat): (r: nat)
    requires i <= |t|
    ensures i <= r <= |t| && (r < |t| ==> !IsSpace(t[r])) && forall k :: i <= k < r ==> IsSpace(t[k])
    decreases |t| - i
  {
    if i < |t| && IsSpace(t[i]) then SkipSpace(t, i + 1) else i
  }

  /** The last place from `lo` to `hi` with no white space in front of it. */
  function TrimEnd(t: string, lo: nat, hi: nat): (r: nat)
    requires lo <= hi <= |t|
    ensures lo <= r <= hi && (lo < r ==> !IsSpace(t[r - 1])) && forall k :: r <= k < hi ==> IsSpace(t[k])
    decreases hi
  {
    if lo < hi && IsSpace(t[hi - 1]) then TrimEnd(t, lo, hi - 1) else hi
  }
}
