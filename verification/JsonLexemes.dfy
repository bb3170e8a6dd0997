/**
 The lexemes of JSON as RFC 8259 writes them (sections 6 and 7), and what src/cJSON.c makes of them:
 numbers with sign, fraction and exponent, and strings with every kind of escape. Digits and letters
 are named by tables of their own.
*/
module JsonLexemes {
  import opened JsonText
  import opened JsonSpec
  import opened JsonUnicode
  import opened JsonRoundTrip
  import G = JsonGrammar

  // ---------------------------------------------------------------- numbers

  const FIGURES := "0123456789"

  predicate AreDigits(ds: seq<nat>) {
    forall i :: 0 <= i < |ds| ==> ds[i] < 10
  }

  function Figures(ds: seq<nat>): (r: string)
    requires AreDigits(ds)
    ensures |r| == |ds| && forall i :: 0 <= i < |r| ==> r[i] == FIGURES[ds[i]]
  {
    seq(|ds|, i requires 0 <= i < |ds| => FIGURES[ds[i]])
  }

  /** The number that digits write. */
  function Amount(ds: seq<nat>): nat {
    if ds == [] then 0 else ds[0] * Ten(|ds| - 1) + Amount(ds[1..])
  }

  function Ten(n: nat): (r: nat)
    ensures r > 0
  {
    if n == 0 then 1 else 10 * Ten(n - 1)
  }

  /** The digits behind a point. */
  function Part(ds: seq<nat>): real {
    if ds == [] then 0.0 else (ds[0] as real + Part(ds[1..])) / 10.0
  }

  /** `x` with its point moved by `e` places. */
  function Shifted(x: real, e: int): real
    decreases if e < 0 then -e else e
  {
    if e == 0 then x else if e > 0 then Shifted(x * 10.0, e - 1) else Shifted(x / 10.0, e + 1)
  }

  /** A number: an optional minus, digits, an optional fraction and an optional exponent. */
  datatype Written = Written(minus: bool, whole: seq<nat>, fraction: seq<nat>, power: Power)

  datatype Power = NoPower | Power(upper: bool, sign: string, digits: seq<nat>)

  predicate RightNumber(n: Written) {
    && n.whole != [] && AreDigits(n.whole) && AreDigits(n.fraction)
    && (n.power.Power? ==> n.power.digits != [] && AreDigits(n.power.digits) && IsSign(n.power.sign))
  }

  predicate IsSign(s: string) {
    s == "" || s == "+" || s == "-"
  }

  function Sign(n: Written): string {
    if n.minus then "-" else ""
  }

  function Point(n: Written): string
    requires RightNumber(n)
  {
    if n.fraction == [] then "" else "." + Figures(n.fraction)
  }

  function PowerText(n: Written): string
    requires RightNumber(n)
  {
    if n.power.NoPower? then "" else (if n.power.upper then "E" else "e") + n.power.sign + Figures(n.power.digits)
  }

  function NumberText(n: Written): string
    requires RightNumber(n)
  {
    Sign(n) + Figures(n.whole) + Point(n) + PowerText(n)
  }

  function Exponent(n: Written): int {
    if n.power.NoPower? then 0 else if n.power.sign == "-" then -(Amount(n.power.digits) as int) else Amount(n.power.digits)
  }

  function Worth(n: Written): real {
    var x := Amount(n.whole) as real + Part(n.fraction);
    Shifted(if n.minus then -x else x, Exponent(n))
  }

  lemma Figure(k: nat)
    requires k < 10
    ensures IsDigit(FIGURES[k]) && FIGURES[k] as int - '0' as int == k
  {
    assert FIGURES[k] as int == 48 + k;
  }

  lemma DigitsValLast(t: string)
    requires t != "" && IsDigit(t[|t| - 1])
    ensures DigitsVal(t) == DigitsVal(t[..|t| - 1]) * 10 + (t[|t| - 1] as int - '0' as int)
  {
  }

  lemma {:induction false} DigitsValFirst(c: char, t: string)
    requires IsDigit(c) && forall i :: 0 <= i < |t| ==> IsDigit(t[i])
    ensures DigitsVal([c] + t) == (c as int - '0' as int) * Ten(|t|) + DigitsVal(t)
    decreases |t|
  {
    hide DigitsVal;
    NoDigits();
    var s := [c] + t;
    DigitsValLast(s);
    if t == [] {
      assert s[..0] == [];
    } else {
      var init := t[..|t| - 1];
      assert s[..|s| - 1] == [c] + init && s[|s| - 1] == t[|t| - 1];
      DigitsValFirst(c, init);
      DigitsValLast(t);
      TimesTen(c as int - '0' as int, Ten(|init|), DigitsVal(init));
    }
  }

  lemma TimesTen(d: int, p: int, v: int)
    ensures (d * p + v) * 10 == d * (10 * p) + v * 10
  {
  }

  lemma FiguresFirst(ds: seq<nat>)
    requires ds != [] && AreDigits(ds)
    ensures AreDigits(ds[1..]) && Figures(ds) == [FIGURES[ds[0]]] + Figures(ds[1..])
  {
  }

  lemma {:induction false} FiguresVal(ds: seq<nat>)
    requires AreDigits(ds)
    ensures DigitsVal(Figures(ds)) == Amount(ds)
    decreases |ds|
  {
    hide DigitsVal;
    if ds == [] {
      NoDigits();
    } else {
      FiguresFirst(ds);
      Figure(ds[0]);
      FiguresAreDigits(ds[1..]);
      DigitsValFirst(FIGURES[ds[0]], Figures(ds[1..]));
      FiguresVal(ds[1..]);
    }
  }

  lemma FiguresAreDigits(ds: seq<nat>)
    requires AreDigits(ds)
    ensures forall i :: 0 <= i < |ds| ==> IsDigit(Figures(ds)[i])
  {
    forall k: nat | k < 10 ensures IsDigit(FIGURES[k]) { Figure(k); }
  }

  lemma NoDigits()
    ensures DigitsVal([]) == 0 && Figures([]) == []
  {
  }

  lemma {:induction false} TenIsPow(n: nat)
    ensures Pow10(n) == Ten(n) as real
  {
    if n > 0 { TenIsPow(n - 1); }
  }

  lemma {:induction false} PartIsAmount(ds: seq<nat>)
    ensures Part(ds) == Amount(ds) as real / Ten(|ds|) as real
    decreases |ds|
  {
    if ds != [] {
      PartIsAmount(ds[1..]);
      var d, a, p := ds[0] as real, Amount(ds[1..]) as real, Ten(|ds| - 1) as real;
      assert |ds[1..]| == |ds| - 1;
      TenthOf(d, a, p);
      assert Amount(ds) as real == d * p + a;
    }
  }

  lemma TenthOf(d: real, a: real, p: real)
    requires p > 0.0
    ensures (d + a / p) / 10.0 == (d * p + a) / (10.0 * p)
  {
    assert (d + a / p) * p == d * p + a;
    var x := (d + a / p) / 10.0;
    assert x * (10.0 * p) == d * p + a;
  }

  lemma {:induction false} ShiftedUp(x: real, e: nat)
    ensures Shifted(x, e) == x * Pow10(e)
    decreases e
  {
    if e > 0 {
      ShiftedUp(x * 10.0, e - 1);
      Times(x, 10.0, Pow10(e - 1));
    }
  }

  lemma {:induction false} ShiftedDown(x: real, e: nat)
    ensures Shifted(x, -(e as int)) == x / Pow10(e)
    decreases e
  {
    if e > 0 {
      ShiftedDown(x / 10.0, e - 1);
      Quotient(x, 10.0, Pow10(e - 1));
    }
  }

  lemma ShiftedIsScale(x: real, e: int)
    ensures Shifted(x, e) == Scale(x, e)
  {
    hide Shifted, Pow10;
    if e >= 0 { ShiftedUp(x, e); } else { ShiftedDown(x, -e); }
  }

  lemma Times(x: real, a: real, b: real)
    ensures x * a * b == x * (a * b)
  {
  }

  lemma Quotient(x: real, a: real, b: real)
    requires a > 0.0 && b > 0.0
    ensures x / a / b == x / (a * b)
  {
    var q := x / a / b;
    assert q * b == x / a;
    assert q * (a * b) == x;
  }

  /** Digits in a text, up to something else. */
  lemma {:induction false} DigitsRun(t: string, i: nat, ds: seq<nat>)
    requires AreDigits(ds) && Starts(t, i, Figures(ds)) && (i + |ds| < |t| ==> !IsDigit(t[i + |ds|]))
    ensures DigitsEnd(t, i) == i + |ds|
    decreases |ds|
  {
    if ds != [] {
      FiguresFirst(ds);
      Figure(ds[0]);
      StartsAt(t, i, Figures(ds), 0);
      StartsSplit(t, i, [FIGURES[ds[0]]], Figures(ds[1..]));
      DigitsRun(t, i + 1, ds[1..]);
    }
  }

  /** Where the parts of a number are in its text. */
  lemma NumberLayout(n: Written)
    requires RightNumber(n)
    ensures var t, i := NumberText(n), |Sign(n)|;
      var j := i + |n.whole|;
      var k := j + |Point(n)|;
      && |t| == k + |PowerText(n)| && j > i && t[i..j] == Figures(n.whole) && Starts(t, i, Figures(n.whole))
      && Starts(t, j, Point(n)) && Starts(t, k, PowerText(n)) && Starts(t, 0, Sign(n)) && IsDigit(t[i])
  {
    hide Point, PowerText, Starts;
    var a, b, c, d := Sign(n), Figures(n.whole), Point(n), PowerText(n);
    var t := NumberText(n);
    FullStarts(t);
    StartsSplit(t, 0, a + b + c, d);
    StartsSplit(t, 0, a + b, c);
    StartsSplit(t, 0, a, b);
    StartsAt(t, |a|, b, 0);
    Figure(n.whole[0]);
    StartsSlice(t, |a|, b);
  }

  lemma FullStarts(t: string)
    ensures Starts(t, 0, t)
  {
  }

  lemma StartsSlice(t: string, i: nat, w: string)
    requires Starts(t, i, w)
    ensures i + |w| <= |t| && t[i..i + |w|] == w
  {
  }

  /** The digits before the point are followed by none. */
  lemma WholeEnds(n: Written)
    requires RightNumber(n)
    ensures var t, i := NumberText(n), |Sign(n)|; G.SignEnd(t) == i && G.WholeEnd(t) == i + |n.whole|
  {
    hide PowerText, DigitsEnd, NumberText, Figures, Starts;
    NumberLayout(n);
    SignFirst(n);
    PointFirst(n);
    DigitsRun(NumberText(n), |Sign(n)|, n.whole);
  }

  lemma PointFirst(n: Written)
    requires RightNumber(n)
    ensures var t, j := NumberText(n), |Sign(n)| + |n.whole|;
      if n.fraction == [] then j < |t| ==> t[j] == 'e' || t[j] == 'E' else j < |t| && t[j] == '.'
  {
    hide PowerText, NumberText, Figures, Starts;
    NumberLayout(n);
    PowerFirst(n);
    if n.fraction != [] { StartsAt(NumberText(n), |Sign(n)| + |n.whole|, Point(n), 0); }
  }

  lemma NumberEnds(n: Written)
    requires RightNumber(n)
    ensures var t, i := NumberText(n), |Sign(n)|;
      var j := i + |n.whole|;
      var k := j + |Point(n)|;
      && G.SignEnd(t) == i && G.WholeEnd(t) == j && G.FractionEnd(t) == k
      && (if n.fraction == [] then k == j else k == j + 1 + |n.fraction| && t[j + 1..k] == Figures(n.fraction))
  {
    hide Point, PowerText, DigitsEnd, NumberText, Figures, Starts, AreDigits, G.WholeEnd, G.SignEnd;
    WholeEnds(n);
    PointFirst(n);
    PowerFirst(n);
    PointLayout(n);
    var t, j := NumberText(n), |Sign(n)| + |n.whole|;
    if n.fraction != [] {
      DigitsRun(t, j + 1, n.fraction);
      StartsSlice(t, j + 1, Figures(n.fraction));
    }
  }

  lemma PointLayout(n: Written)
    requires RightNumber(n)
    ensures if n.fraction == [] then Point(n) == ""
      else |Point(n)| == 1 + |n.fraction| && Starts(NumberText(n), |Sign(n)| + |n.whole| + 1, Figures(n.fraction))
  {
    hide PowerText, NumberText, Figures, Starts, AreDigits;
    NumberLayout(n);
    if n.fraction != [] { StartsSplit(NumberText(n), |Sign(n)| + |n.whole|, ".", Figures(n.fraction)); }
  }

  lemma SignFirst(n: Written)
    requires RightNumber(n)
    ensures var t := NumberText(n); |t| > 0 && if n.minus then t[0] == '-' else IsDigit(t[0])
  {
    hide Point, PowerText, Figures;
    NumberLayout(n);
    if n.minus { StartsAt(NumberText(n), 0, "-", 0); }
  }

  lemma PowerTextFirst(n: Written)
    requires RightNumber(n)
    ensures if n.power.NoPower? then PowerText(n) == ""
      else |PowerText(n)| == 1 + |n.power.sign| + |n.power.digits| && (PowerText(n)[0] == 'e' || PowerText(n)[0] == 'E')
  {
    hide Figures;
  }

  /** What stands behind the digits and the fraction. */
  lemma PowerFirst(n: Written)
    requires RightNumber(n)
    ensures var t, k := NumberText(n), |Sign(n)| + |n.whole| + |Point(n)|;
      k <= |t| && if n.power.NoPower? then k == |t| else k < |t| && (t[k] == 'e' || t[k] == 'E')
  {
    hide Point, NumberText, PowerText, Figures, Starts;
    NumberLayout(n);
    PowerTextFirst(n);
    var k := |Sign(n)| + |n.whole| + |Point(n)|;
    if n.power.Power? { StartsAt(NumberText(n), k, PowerText(n), 0); }
  }

  lemma FigureFirst(ds: seq<nat>)
    requires ds != [] && AreDigits(ds)
    ensures IsDigit(Figures(ds)[0])
  {
    Figure(ds[0]);
  }

  /** Where the parts of an exponent are. */
  lemma PowerLayout(n: Written)
    requires RightNumber(n) && n.power.Power?
    ensures var t, k := NumberText(n), |Sign(n)| + |n.whole| + |Point(n)|;
      var y := k + 1 + |n.power.sign|;
      && |t| == y + |n.power.digits| && Starts(t, k + 1, n.power.sign) && Starts(t, y, Figures(n.power.digits)) && IsDigit(t[y])
  {
    hide Point, NumberText, Figures, Starts, AreDigits, IsSign, Sign;
    NumberLayout(n);
    var t, k := NumberText(n), |Sign(n)| + |n.whole| + |Point(n)|;
    var w, ds := if n.power.upper then "E" else "e", n.power.digits;
    var f := Figures(ds);
    StartsSplit(t, k, w + n.power.sign, f);
    StartsSplit(t, k, w, n.power.sign);
    FigureFirst(ds);
    StartsAt(t, k + 1 + |n.power.sign|, f, 0);
  }

  lemma SignOfPower(t: string, x: nat, sign: string, y: nat)
    requires IsSign(sign) && Starts(t, x, sign) && y == x + |sign| && y < |t| && IsDigit(t[y])
    ensures if sign == "" then t[x] != '+' && t[x] != '-' else t[x] == sign[0]
    ensures t[x] == '-' <==> sign == "-"
  {
    if sign != "" { StartsAt(t, x, sign, 0); }
  }

  lemma PowerAt(t: string, k: nat, sign: string)
    requires G.FractionEnd(t) == k < |t| && (t[k] == 'e' || t[k] == 'E') && IsSign(sign) && Starts(t, k + 1, sign)
    requires k + 1 + |sign| < |t| && IsDigit(t[k + 1 + |sign|])
    ensures G.PowerStart(t) == k + 1 + |sign| && G.PowerEnd(t) == DigitsEnd(t, k + 1 + |sign|)
    ensures t[k + 1] == '-' <==> sign == "-"
  {
    hide DigitsEnd, G.FractionEnd, Starts;
    SignOfPower(t, k + 1, sign, k + 1 + |sign|);
  }

  lemma PowerEnds(n: Written)
    requires RightNumber(n) && n.power.Power?
    ensures var t, k := NumberText(n), |Sign(n)| + |n.whole| + |Point(n)|;
      var y := k + 1 + |n.power.sign|;
      && G.PowerStart(t) == y && G.PowerEnd(t) == |t| && y < |t| && t[y..] == Figures(n.power.digits)
      && (t[k + 1] == '-' <==> n.power.sign == "-")
  {
    hide Point, NumberText, DigitsEnd, Figures, G.FractionEnd, G.WholeEnd, G.SignEnd, G.PowerStart, G.PowerEnd, Starts, IsSign, Sign;
    NumberEnds(n);
    PowerFirst(n);
    PowerLayout(n);
    var t, k, ds := NumberText(n), |Sign(n)| + |n.whole| + |Point(n)|, n.power.digits;
    var y := k + 1 + |n.power.sign|;
    PowerAt(t, k, n.power.sign);
    DigitsRun(t, y, ds);
    StartsSlice(t, y, Figures(ds));
    assert t[y..] == t[y..|t|];
  }

  /** Every number, as RFC 8259 writes it, is read as its exact value, to the end. */
  lemma NumberReads(n: Written)
    requires RightNumber(n)
    ensures Strtod(NumberText(n)) == (Worth(n), |NumberText(n)|)
  {
    hide DigitsVal, Scale, Pow10, Strtod, NumberText, Point, PowerText, Figures, Shifted, Part, Amount, Starts, G.SignEnd, G.WholeEnd,
      G.FractionEnd, G.PowerStart, G.PowerEnd;
    var t := NumberText(n);
    NumberEnds(n);
    SignFirst(n);
    PowerFirst(n);
    NumberLayout(n);
    G.StrtodParts(t);
    FiguresVal(n.whole);
    FiguresVal(n.fraction);
    NoDigits();
    PartIsAmount(n.fraction);
    TenIsPow(|n.fraction|);
    var x := Amount(n.whole) as real + Part(n.fraction);
    ShiftedIsScale(if n.minus then -x else x, Exponent(n));
    if n.power.Power? {
      PowerEnds(n);
      FiguresVal(n.power.digits);
      assert t[G.PowerStart(t)..] == t[G.PowerStart(t)..|t|];
    } else {
      NoPowerEnds(t);
    }
  }

  lemma NoPowerEnds(t: string)
    requires G.FractionEnd(t) == |t|
    ensures G.PowerStart(t) == G.PowerEnd(t) == |t|
  {
    hide G.FractionEnd;
  }

  /** Every byte of a number is one of those the parser collects. */
  lemma NumberChars(n: Written)
    requires RightNumber(n)
    ensures forall c <- NumberText(n) :: IsNumberChar(c)
  {
    hide IsNumberChar, Figures;
    FigureChars(n.whole);
    FigureChars(n.fraction);
    if n.power.Power? { FigureChars(n.power.digits); }
    assert IsNumberChar('-') && IsNumberChar('+') && IsNumberChar('.') && IsNumberChar('e') && IsNumberChar('E') by { MarkChars(); }
  }

  lemma MarkChars()
    ensures forall c <- "-+.eE" :: IsNumberChar(c)
    ensures IsNumberChar('-') && IsNumberChar('+') && IsNumberChar('.') && IsNumberChar('e') && IsNumberChar('E')
  {
  }

  lemma FigureChars(ds: seq<nat>)
    requires AreDigits(ds)
    ensures forall c <- Figures(ds) :: IsNumberChar(c)
  {
    forall k: nat | k < 10 ensures IsNumberChar(FIGURES[k]) { Figure(k); }
  }

  lemma NumberIsLexeme(n: Written)
    requires RightNumber(n) && |NumberText(n)| <= 63
    ensures G.IsNumeral(NumberText(n), Worth(n))
  {
    hide Strtod, Worth, NumberText, IsNumberChar;
    NumberReads(n);
    SignFirst(n);
    NumberChars(n);
  }

  // ---------------------------------------------------------------- strings

  /** The letters of the two-character escapes, and what they stand for: quote, backslash, slash,
      backspace, form feed, line feed, carriage return and tab. */
  const LETTERS := "\"\\/bfnrt"
  const MEANT: seq<nat> := [34, 92, 47, 8, 12, 10, 13, 9]

  datatype Piece =
    | Raw(c: char)
    | Short(k: nat)
    | Code(cp: nat, digits: string)
    | Pair(cp: nat, high: string, low: string)

  predicate RightPiece(p: Piece) {
    match p
    case Raw(c) => c != '\"' && c != '\\'
    case Short(k) => k < 8
    case Code(cp, digits) => IsScalar(cp) && cp < 0x1_0000 && |digits| == 4 && HexAt(digits, 0, cp)
    case Pair(cp, high, low) =>
      && 0x1_0000 <= cp < 0x11_0000 && |high| == |low| == 4
      && HexAt(high, 0, 0xD800 + (cp - 0x1_0000) / 0x400) && HexAt(low, 0, 0xDC00 + (cp - 0x1_0000) % 0x400)
  }

  predicate RightPieces(ps: seq<Piece>) {
    forall i :: 0 <= i < |ps| ==> RightPiece(ps[i])
  }

  function PieceText(p: Piece): string
    requires RightPiece(p)
  {
    match p
    case Raw(c) => [c]
    case Short(k) => ['\\', LETTERS[k]]
    case Code(_, digits) => "\\u" + digits
    case Pair(_, high, low) => "\\u" + high + "\\u" + low
  }

  function PiecesText(ps: seq<Piece>): string
    requires RightPieces(ps)
  {
    if ps == [] then "" else PieceText(ps[0]) + PiecesText(ps[1..])
  }

  /** The bytes a piece stands for: the one whose UTF-8 form Decode takes for the code point. */
  ghost predicate Stands(p: Piece, b: string)
    requires RightPiece(p)
  {
    match p
    case Raw(c) => b == [c]
    case Short(k) => |b| == 1 && b[0] as int == MEANT[k]
    case Code(cp, _) => Decode(b) == Some(cp)
    case Pair(cp, _, _) => Decode(b) == Some(cp)
  }

  /** `bs` has what each piece stands for. */
  ghost predicate StandAll(ps: seq<Piece>, bs: seq<string>)
    requires RightPieces(ps)
  {
    |bs| == |ps| && forall i :: 0 <= i < |ps| ==> Stands(ps[i], bs[i])
  }

  function Flat(bs: seq<string>): string {
    if bs == [] then "" else bs[0] + Flat(bs[1..])
  }

  /** Where an escape has its digits. */
  lemma CodeLayout(t: string, p: nat, digits: string)
    requires |digits| == 4 && Starts(t, p, "\\u" + digits)
    ensures p + 6 <= |t| && t[p] == '\\' && t[p + 1] == 'u' && Starts(t, p + 2, digits)
  {
    hide Starts;
    StartsSplit(t, p, "\\u", digits);
    StartsAt(t, p, "\\u", 0);
    StartsAt(t, p, "\\u", 1);
    StartsSlice(t, p + 2, digits);
  }

  lemma CodeScans(t: string, p: nat, digits: string, n: nat)
    requires |digits| == 4 && HexAt(digits, 0, n) && Starts(t, p, "\\u" + digits) && ScanEnd(t, p + 6).Some?
    ensures ScanEnd(t, p) == ScanEnd(t, p + 6)
  {
    hide HexAt, Starts;
    CodeLayout(t, p, digits);
    HexIsPlain(digits, n);
    FourScan(t, p + 2, digits);
  }

  lemma ShortLayout(t: string, p: nat, k: nat)
    requires k < 8 && Starts(t, p, ['\\', LETTERS[k]])
    ensures p + 2 <= |t| && t[p] == '\\' && t[p + 1] == LETTERS[k]
  {
    assert t[p..p + 2][0] == t[p] && t[p..p + 2][1] == t[p + 1];
  }

  /** The first pass, over one piece. */
  lemma PieceScans(t: string, p: nat, piece: Piece)
    requires RightPiece(piece) && Starts(t, p, PieceText(piece)) && ScanEnd(t, p + |PieceText(piece)|).Some?
    ensures ScanEnd(t, p) == ScanEnd(t, p + |PieceText(piece)|)
  {
    hide HexAt, IsScalar, Starts;
    match piece
    case Raw(c) => StartsAt(t, p, [c], 0);
    case Short(k) => ShortLayout(t, p, k);
    case Code(cp, digits) => CodeScans(t, p, digits, cp);
    case Pair(cp, high, low) =>
      PairLayout(t, p, high, low);
      CodeScans(t, p + 6, low, 0xDC00 + (cp - 0x1_0000) % 0x400);
      CodeScans(t, p, high, 0xD800 + (cp - 0x1_0000) / 0x400);
  }

  lemma PairLayout(t: string, p: nat, high: string, low: string)
    requires |high| == |low| == 4 && Starts(t, p, "\\u" + high + "\\u" + low)
    ensures Starts(t, p, "\\u" + high) && Starts(t, p + 6, "\\u" + low)
  {
    hide Starts;
    assert "\\u" + high + "\\u" + low == ("\\u" + high) + ("\\u" + low);
    StartsSplit(t, p, "\\u" + high, "\\u" + low);
  }

  lemma HexDigitPlain(c: char, k: nat)
    requires k < 16 && HexIs(c, k)
    ensures c != '\"' && c != '\\'
  {
    assert LOWER[k] as int == if k < 10 then k + 48 else k + 87;
    assert UPPER[k] as int == if k < 10 then k + 48 else k + 55;
  }

  lemma HexIsPlain(d: string, n: nat)
    requires |d| == 4 && HexAt(d, 0, n)
    ensures forall i :: 0 <= i < 4 ==> d[i] != '\"' && d[i] != '\\'
  {
    hide HexIs;
    HexParts(n);
    HexDigitPlain(d[0], n / 0x1000);
    HexDigitPlain(d[1], n / 0x100 % 0x10);
    HexDigitPlain(d[2], n / 0x10 % 0x10);
    HexDigitPlain(d[3], n % 0x10);
  }

  lemma FourScan(t: string, p: nat, d: string)
    requires |d| == 4 && Starts(t, p, d) && forall i :: 0 <= i < 4 ==> d[i] != '\"' && d[i] != '\\'
    ensures ScanEnd(t, p) == ScanEnd(t, p + 4)
  {
    hide Starts;
    StartsAt(t, p, d, 0);
    StartsAt(t, p, d, 1);
    StartsAt(t, p, d, 2);
    StartsAt(t, p, d, 3);
    PlainScan(t, p);
    PlainScan(t, p + 1);
    PlainScan(t, p + 2);
    PlainScan(t, p + 3);
  }

  lemma PlainScan(t: string, p: nat)
    requires p < |t| && t[p] != '\"' && t[p] != '\\'
    ensures ScanEnd(t, p) == ScanEnd(t, p + 1)
  {
  }

  lemma CodeAt(t: string, p: nat, digits: string, n: nat)
    requires |digits| == 4 && HexAt(digits, 0, n) && Starts(t, p, "\\u" + digits)
    ensures EscapeAt(t, p, n)
  {
    hide HexAt, Starts;
    CodeLayout(t, p, digits);
    HexMoves(digits, t, p + 2, n);
  }

  /** The second pass, over one piece. */
  lemma PieceUnescapes(t: string, p: nat, end: nat, piece: Piece, b: string)
    requires RightPiece(piece) && Stands(piece, b) && Starts(t, p, PieceText(piece)) && p + |PieceText(piece)| <= end < |t|
    ensures Unescape(t, p, end) == Prepend(b, Unescape(t, p + |PieceText(piece)|, end))
  {
    hide HexAt, IsScalar, Decode, Utf8, Starts, EscapeAt;
    match piece
    case Raw(c) => StartsAt(t, p, [c], 0);
    case Short(k) =>
      ShortLayout(t, p, k);
      ShortStands(k, b);
      assert b == [b[0]];
    case Code(cp, digits) =>
      CodeAt(t, p, digits, cp);
      EscapedScalar(t, p, end, cp);
      DecodeEncodes(b);
    case Pair(cp, high, low) =>
      PairLayout(t, p, high, low);
      CodeAt(t, p, high, HighSurrogate(cp));
      CodeAt(t, p + 6, low, LowSurrogate(cp));
      Beyond(cp);
      EscapedScalar(t, p, end, cp);
      DecodeEncodes(b);
  }

  lemma Beyond(cp: nat)
    requires 0x1_0000 <= cp < 0x11_0000
    ensures IsScalar(cp)
  {
  }

  lemma ShortStands(k: nat, b: string)
    requires k < 8 && |b| == 1 && b[0] as int == MEANT[k]
    ensures LETTERS[k] != 'u' && Unletter(LETTERS[k]) == Some(b[0])
  {
  }

  lemma HexMoves(d: string, t: string, p: nat, n: nat)
    requires |d| == 4 && HexAt(d, 0, n) && Starts(t, p, d)
    ensures HexAt(t, p, n)
  {
    assert forall i :: 0 <= i < 4 ==> t[p + i] == d[i];
  }

  lemma PiecesFirst(ps: seq<Piece>)
    requires ps != [] && RightPieces(ps)
    ensures RightPiece(ps[0]) && RightPieces(ps[1..]) && PiecesText(ps) == PieceText(ps[0]) + PiecesText(ps[1..])
  {
    hide RightPiece, PieceText;
    assert forall i :: 0 <= i < |ps[1..]| ==> ps[1..][i] == ps[i + 1];
  }

  lemma {:induction false} PiecesScan(t: string, p: nat, ps: seq<Piece>)
    requires RightPieces(ps) && Starts(t, p, PiecesText(ps)) && CharAt(t, p + |PiecesText(ps)|, '\"')
    ensures ScanEnd(t, p) == Some(p + |PiecesText(ps)|)
    decreases |ps|
  {
    hide PieceText, RightPieces, RightPiece, Starts, ScanEnd;
    if ps == [] {
      QuoteEnds(t, p);
    } else {
      PiecesFirst(ps);
      StartsSplit(t, p, PieceText(ps[0]), PiecesText(ps[1..]));
      PiecesScan(t, p + |PieceText(ps[0])|, ps[1..]);
      PieceScans(t, p, ps[0]);
    }
  }

  lemma QuoteEnds(t: string, p: nat)
    requires CharAt(t, p, '\"')
    ensures ScanEnd(t, p) == Some(p)
  {
  }

  lemma StandFirst(ps: seq<Piece>, bs: seq<string>)
    requires ps != [] && RightPieces(ps) && StandAll(ps, bs)
    ensures |bs| > 0 && RightPiece(ps[0]) && RightPieces(ps[1..]) && Stands(ps[0], bs[0]) && StandAll(ps[1..], bs[1..])
    ensures Flat(bs) == bs[0] + Flat(bs[1..])
  {
    hide RightPiece, Stands;
    PiecesFirst(ps);
    assert forall i :: 0 <= i < |ps[1..]| ==> ps[1..][i] == ps[i + 1] && bs[1..][i] == bs[i + 1];
  }

  lemma {:induction false} PiecesUnescape(t: string, p: nat, ps: seq<Piece>, bs: seq<string>)
    requires RightPieces(ps) && StandAll(ps, bs) && Starts(t, p, PiecesText(ps)) && p + |PiecesText(ps)| < |t|
    ensures Unescape(t, p, p + |PiecesText(ps)|) == Some(Flat(bs))
    decreases |ps|
  {
    hide PieceText, RightPieces, RightPiece, Starts, Stands, StandAll, Unescape, PiecesText, Flat;
    if ps == [] {
      NothingUnescaped(t, p, bs);
    } else {
      PiecesFirst(ps);
      StandFirst(ps, bs);
      StartsSplit(t, p, PieceText(ps[0]), PiecesText(ps[1..]));
      var q := p + |PieceText(ps[0])|;
      PiecesUnescape(t, q, ps[1..], bs[1..]);
      PieceUnescapes(t, p, p + |PiecesText(ps)|, ps[0], bs[0]);
    }
  }

  lemma NothingUnescaped(t: string, p: nat, bs: seq<string>)
    requires StandAll([], bs) && p < |t|
    ensures PiecesText([]) == "" && Unescape(t, p, p) == Some(Flat(bs))
  {
  }

  /** Every string, as RFC 8259 writes it, stands for the bytes of its pieces, up to the first NUL. */
  lemma StringIsLexeme(ps: seq<Piece>, bs: seq<string>)
    requires RightPieces(ps) && StandAll(ps, bs)
    ensures G.IsQuoted("\"" + PiecesText(ps) + "\"", CStr(Flat(bs)))
  {
    hide PiecesText, RightPieces, StandAll, ScanEnd, Unescape, CStr;
    var body := PiecesText(ps);
    var t := "\"" + body + "\"";
    assert Starts(t, 1, body);
    PiecesScan(t, 1, ps);
    PiecesUnescape(t, 1, ps, bs);
  }

  lemma {:induction false} NothingCut(b: string)
    requires IsCString(b)
    ensures CStr(b) == b
    decreases |b|
  {
    if b != [] {
      NothingCut(b[1..]);
      assert b == [b[0]] + b[1..];
    }
  }

  lemma {:induction false} RoomEnds(t: string, p: nat, room: nat)
    requires p + room <= |t| && forall i :: p <= i < p + room ==> IsNumberChar(t[i])
    ensures NumberEnd(t, p, room) == p + room
    decreases room
  {
    if room > 0 { RoomEnds(t, p + 1, room - 1); }
  }

  /** Of a longer run of digits the first 63 are read. */
  lemma LongNumber(ds: seq<nat>, rest: string)
    requires |ds| == 63 && AreDigits(ds)
    ensures ParseNumber(Figures(ds) + rest, 0) == Some((Number(Amount(ds) as real), 63))
  {
    hide Strtod, Figures, IsNumberChar, Amount;
    var t, w := Figures(ds) + rest, Written(false, ds, [], NoPower);
    NumberReads(w);
    assert NumberText(w) == Figures(ds);
    assert Part([]) == 0.0 && Worth(w) == Amount(ds) as real;
    FigureChars(ds);
    assert forall i :: 0 <= i < 63 ==> t[i] == Figures(ds)[i] && Figures(ds)[i] in Figures(ds);
    RoomEnds(t, 0, 63);
    assert t[0..63] == Figures(ds);
  }
}
