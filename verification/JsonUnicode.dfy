/**
 The \uXXXX escapes of src/cJSON.c against the standards: the bytes written are the UTF-8 form
 of the escaped code point (section 3 of RFC 3629), pairs follow section 2.2 of RFC 2781, and
 unpaired surrogates are refused.
*/
module JsonUnicode {
  import opened JsonText
  import opened JsonSpec

  predicate IsScalar(cp: int) {
    0 <= cp < 0x11_0000 && !(0xD800 <= cp <= 0xDFFF)
  }

  predicate IsTail(c: char) {
    0x80 <= c as int <= 0xBF
  }

  /** Decoding one UTF-8 sequence (section 3 of RFC 3629): shortest forms of scalar values only. */
  function Decode(b: string): Option<int> {
    var cp :=
      if |b| == 1 && b[0] as int < 0x80 then b[0] as int
      else if |b| == 2 && 0xC0 <= b[0] as int <= 0xDF && IsTail(b[1]) then
        (b[0] as int - 0xC0) * 0x40 + (b[1] as int - 0x80)
      else if |b| == 3 && 0xE0 <= b[0] as int <= 0xEF && IsTail(b[1]) && IsTail(b[2]) then
        (b[0] as int - 0xE0) * 0x1000 + (b[1] as int - 0x80) * 0x40 + (b[2] as int - 0x80)
      else if |b| == 4 && 0xF0 <= b[0] as int <= 0xF7 && IsTail(b[1]) && IsTail(b[2]) && IsTail(b[3]) then
        (b[0] as int - 0xF0) * 0x4_0000 + (b[1] as int - 0x80) * 0x1000 + (b[2] as int - 0x80) * 0x40 + (b[3] as int - 0x80)
      else -1;
    var shortest := if |b| == 1 then 0 else if |b| == 2 then 0x80 else if |b| == 3 then 0x800 else 0x1_0000;
    if IsScalar(cp) && cp >= shortest then Some(cp) else None
  }

  lemma SixBitDigits(cp: nat)
    ensures cp == cp / 0x4_0000 * 0x4_0000 + cp / 0x1000 % 0x40 * 0x1000 + cp / 0x40 % 0x40 * 0x40 + cp % 0x40
    ensures cp / 0x1000 * 0x1000 + cp / 0x40 % 0x40 * 0x40 + cp % 0x40 == cp
    ensures cp / 0x40 * 0x40 + cp % 0x40 == cp
  {
    var a, b, c := cp / 0x40, cp / 0x1000, cp / 0x4_0000;
    assert b == a / 0x40 && c == b / 0x40;
  }

  /** The bytes of a scalar value decode to it, and to nothing else. */
  lemma Utf8Decodes(cp: nat)
    requires IsScalar(cp)
    ensures Decode(Utf8(cp)) == Some(cp)
  {
    SixBitDigits(cp);
  }

  /** Every sequence that decodes is the one the encoder writes. */
  lemma DecodeEncodes(b: string)
    requires Decode(b).Some?
    ensures Utf8(Decode(b).value) == b
  {
    var cp := Decode(b).value;
    if |b| == 3 {
      var x, y, z := b[0] as int - 0xE0, b[1] as int - 0x80, b[2] as int - 0x80;
      Digits3(x, y, z);
    } else if |b| == 4 {
      var x, y, z, w := b[0] as int - 0xF0, b[1] as int - 0x80, b[2] as int - 0x80, b[3] as int - 0x80;
      Digits4(x, y, z, w);
    }
  }

  lemma Digits3(x: nat, y: nat, z: nat)
    requires y < 0x40 && z < 0x40
    ensures var cp := x * 0x1000 + y * 0x40 + z;
      cp / 0x1000 == x && cp / 0x40 % 0x40 == y && cp % 0x40 == z
  {
    var cp := x * 0x1000 + y * 0x40 + z;
    assert cp / 0x40 == x * 0x40 + y;
  }

  lemma Digits4(x: nat, y: nat, z: nat, w: nat)
    requires y < 0x40 && z < 0x40 && w < 0x40
    ensures var cp := x * 0x4_0000 + y * 0x1000 + z * 0x40 + w;
      cp / 0x4_0000 == x && cp / 0x1000 % 0x40 == y && cp / 0x40 % 0x40 == z && cp % 0x40 == w
  {
    var cp := x * 0x4_0000 + y * 0x1000 + z * 0x40 + w;
    assert cp / 0x40 == x * 0x1000 + y * 0x40 + z;
    assert cp / 0x1000 == x * 0x40 + y;
  }

  // ---------------------------------------------------------------- escapes in a text

  const LOWER := "0123456789abcdef"
  const UPPER := "0123456789ABCDEF"

  /** A hexadecimal digit worth `k`, in either case. */
  predicate HexIs(c: char, k: nat)
    requires k < 16
  {
    c == LOWER[k] || c == UPPER[k]
  }

  /** Four digits worth `n` at `p`, each in either case. */
  predicate HexAt(s: string, p: nat, n: nat) {
    && p + 4 <= |s| && n < 0x1_0000
    && HexIs(s[p], n / 0x1000) && HexIs(s[p + 1], n / 0x100 % 0x10) && HexIs(s[p + 2], n / 0x10 % 0x10) && HexIs(s[p + 3], n % 0x10)
  }

  predicate FourDigits(s: string, p: nat)
    requires p + 4 <= |s|
  {
    forall i :: p <= i < p + 4 ==> s[i] in LOWER || s[i] in UPPER
  }

  /** At `p`: a backslash, a `u` and four hexadecimal digits, in either case, worth `n`. */
  predicate EscapeAt(s: string, p: nat, n: nat) {
    p + 6 <= |s| && s[p] == '\\' && s[p + 1] == 'u' && HexAt(s, p + 2, n)
  }

  lemma HexValOf(c: char, k: nat)
    requires k < 16
    ensures HexIs(c, k) <==> HexVal(c) == Some(k)
  {
    var d := c as int;
    assert LOWER[k] as int == if k < 10 then k + 48 else k + 87;
    assert UPPER[k] as int == if k < 10 then k + 48 else k + 55;
  }

  lemma HexValNone(c: char)
    ensures HexVal(c) == None <==> c !in LOWER && c !in UPPER
  {
    if HexVal(c).Some? {
      var k := HexVal(c).value;
      HexValOf(c, k);
      assert LOWER[k] in LOWER && UPPER[k] in UPPER;
    } else {
      forall k | 0 <= k < 16 ensures c != LOWER[k] && c != UPPER[k] {
        HexValOf(c, k);
      }
    }
  }

  lemma HexParts(n: nat)
    requires n < 0x1_0000
    ensures n == ((n / 0x1000 * 16 + n / 0x100 % 0x10) * 16 + n / 0x10 % 0x10) * 16 + n % 0x10 && n / 0x1000 < 0x10
  {
    var a, b := n / 0x10, n / 0x100;
    assert b == a / 0x10 && n / 0x1000 == b / 0x10;
  }

  lemma HexFrom(a: nat, b: nat, c: nat, d: nat)
    requires a < 16 && b < 16 && c < 16 && d < 16
    ensures var n := ((a * 16 + b) * 16 + c) * 16 + d;
      n < 0x1_0000 && n / 0x1000 == a && n / 0x100 % 0x10 == b && n / 0x10 % 0x10 == c && n % 0x10 == d
  {
    var n := ((a * 16 + b) * 16 + c) * 16 + d;
    assert n / 0x10 == (a * 16 + b) * 16 + c;
    assert n / 0x100 == a * 16 + b;
  }

  lemma HexWritten(s: string, p: nat, n: nat)
    requires HexAt(s, p, n)
    ensures Hex4(s, p) == n
  {
    hide HexIs;
    HexParts(n);
    HexValOf(s[p], n / 0x1000);
    HexValOf(s[p + 1], n / 0x100 % 0x10);
    HexValOf(s[p + 2], n / 0x10 % 0x10);
    HexValOf(s[p + 3], n % 0x10);
  }

  lemma HexRead(s: string, p: nat)
    requires p + 4 <= |s| && FourDigits(s, p)
    ensures HexAt(s, p, Hex4(s, p))
  {
    hide HexIs, HexVal;
    HexValNone(s[p]); HexValNone(s[p + 1]); HexValNone(s[p + 2]); HexValNone(s[p + 3]);
    DigitBelow(s[p]); DigitBelow(s[p + 1]); DigitBelow(s[p + 2]); DigitBelow(s[p + 3]);
    var a, b, c, d := HexVal(s[p]).value, HexVal(s[p + 1]).value, HexVal(s[p + 2]).value, HexVal(s[p + 3]).value;
    HexFrom(a, b, c, d);
    HexValOf(s[p], a); HexValOf(s[p + 1], b); HexValOf(s[p + 2], c); HexValOf(s[p + 3], d);
  }

  /** Four digits are read as the number they write; without four digits it is zero. */
  lemma HexReads(s: string, p: nat, n: nat)
    requires p + 4 <= |s|
    ensures HexAt(s, p, n) ==> Hex4(s, p) == n
    ensures FourDigits(s, p) ==> HexAt(s, p, Hex4(s, p))
    ensures !FourDigits(s, p) ==> Hex4(s, p) == 0
  {
    hide HexIs, HexVal, HexAt;
    if HexAt(s, p, n) { HexWritten(s, p, n); }
    if FourDigits(s, p) { HexRead(s, p); }
    HexValNone(s[p]); HexValNone(s[p + 1]); HexValNone(s[p + 2]); HexValNone(s[p + 3]);
  }

  lemma DigitBelow(c: char)
    ensures HexVal(c).Some? ==> HexVal(c).value < 16
  {
  }

  function HighSurrogate(cp: nat): nat
    requires 0x1_0000 <= cp < 0x11_0000
  {
    0xD800 + (cp - 0x1_0000) / 0x400
  }

  function LowSurrogate(cp: nat): nat
    requires 0x1_0000 <= cp < 0x11_0000
  {
    0xDC00 + (cp - 0x1_0000) % 0x400
  }

  /** A scalar value, escaped as section 7 of RFC 8259 asks, becomes its UTF-8 form. */
  lemma EscapedScalar(s: string, p: nat, end: nat, cp: nat)
    requires IsScalar(cp) && end < |s|
    requires cp < 0x1_0000 ==> EscapeAt(s, p, cp) && p + 6 <= end
    requires cp >= 0x1_0000 ==>
      EscapeAt(s, p, HighSurrogate(cp)) && EscapeAt(s, p + 6, LowSurrogate(cp)) && p + 12 <= end
    ensures var len := if cp < 0x1_0000 then 6 else 12;
      && Utf16(s, p, end) == Some(Unit(cp, len))
      && Unescape(s, p, end) == Prepend(Utf8(cp), Unescape(s, p + len, end))
      && Decode(Utf8(cp)) == Some(cp)
  {
    hide Hex4, HexVal, FourDigits, Utf8, Decode, HexAt;
    Utf8Decodes(cp);
    if cp >= 0x1_0000 {
      Split(cp);
      HexReads(s, p + 2, HighSurrogate(cp));
      HexReads(s, p + 8, LowSurrogate(cp));
    } else {
      HexReads(s, p + 2, cp);
    }
  }

  /** The escape of a low surrogate at `p`. */
  ghost predicate LowAt(s: string, p: nat, end: nat)
    requires end <= |s|
  {
    p + 6 <= end && exists n :: 0xDC00 <= n <= 0xDFFF && EscapeAt(s, p, n)
  }

  /** A low surrogate first, or a high one without a low one behind it, fails the string. */
  lemma UnpairedSurrogate(s: string, p: nat, end: nat, n: nat)
    requires EscapeAt(s, p, n) && p + 6 <= end < |s| && 0xD800 <= n <= 0xDFFF
    requires n <= 0xDBFF ==> !LowAt(s, p + 6, end)
    ensures Utf16(s, p, end) == None && Unescape(s, p, end) == None
  {
    hide Hex4, HexVal, FourDigits, HexAt;
    HexReads(s, p + 2, n);
    if p + 12 <= end {
      var low := Hex4(s, p + 8);
      HexReads(s, p + 8, low);
      assert EscapeAt(s, p + 6, low) ==> LowAt(s, p + 6, end) || low < 0xDC00 || low > 0xDFFF;
    }
  }

  /** Digits that are not hexadecimal are not refused: the escape then stands for NUL, which
      ends the string for every reader of the value. */
  lemma MalformedDigits(s: string, p: nat, end: nat)
    requires p + 6 <= end < |s| && s[p] == '\\' && s[p + 1] == 'u'
    requires !FourDigits(s, p + 2)
    ensures Utf16(s, p, end) == Some(Unit(0, 6)) && Utf8(0) == [NUL]
  {
    HexReads(s, p + 2, 0);
  }

  /** Exactly the escapes accepted: the code point is a scalar value and the text holds its
      escape, or a digit is malformed. */
  lemma Accepted(s: string, p: nat, end: nat)
    requires p + 6 <= end < |s| && s[p] == '\\' && s[p + 1] == 'u' && Utf16(s, p, end).Some?
    ensures var u := Utf16(s, p, end).value;
      && IsScalar(u.cp)
      && (u.len == 12 ==> u.cp >= 0x1_0000 && EscapeAt(s, p, HighSurrogate(u.cp)) && EscapeAt(s, p + 6, LowSurrogate(u.cp)))
      && (u.len == 6 ==> EscapeAt(s, p, u.cp) || (u.cp == 0 && !FourDigits(s, p + 2)))
  {
    hide Hex4, HexVal, FourDigits, HexAt;
    var u := Utf16(s, p, end).value;
    HexReads(s, p + 2, 0);
    if u.len == 12 {
      var first, second := Hex4(s, p + 2), Hex4(s, p + 8);
      HexReads(s, p + 8, 0);
      Surrogates(first, second);
    }
  }

  lemma Split(cp: nat)
    requires 0x1_0000 <= cp < 0x11_0000
    ensures 0xD800 <= HighSurrogate(cp) <= 0xDBFF && 0xDC00 <= LowSurrogate(cp) <= 0xDFFF
    ensures 0x1_0000 + HighSurrogate(cp) % 0x400 * 0x400 + LowSurrogate(cp) % 0x400 == cp
  {
    var d := cp - 0x1_0000;
    assert d / 0x400 < 0x400;
    assert HighSurrogate(cp) % 0x400 == d / 0x400 && LowSurrogate(cp) % 0x400 == d % 0x400;
  }

  lemma Surrogates(first: nat, second: nat)
    requires 0xD800 <= first <= 0xDBFF && 0xDC00 <= second <= 0xDFFF
    ensures var cp := 0x1_0000 + first % 0x400 * 0x400 + second % 0x400;
      0x1_0000 <= cp < 0x11_0000 && HighSurrogate(cp) == first && LowSurrogate(cp) == second
  {
    assert first % 0x400 == first - 0xD800 && second % 0x400 == second - 0xDC00;
  }
}
