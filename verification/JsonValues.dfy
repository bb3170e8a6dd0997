/**
 The values a loaded JSON document gives its variables (src/vmod_cfg_file.c), said by themselves:
 words, strings as they are, and numbers as texts that write them.
*/
module JsonValues {
  import opened JsonText
  import opened JsonSpec
  import opened JsonFlatten
  import opened JsonPaths
  import opened JsonLexemes

  /** The digits of a number. */
  function DigitsOf(n: nat): (ds: seq<nat>)
    ensures ds != [] && AreDigits(ds) && (|ds| > 1 ==> ds[0] != 0)
  {
    if n < 10 then [n] else DigitsOf(n / 10) + [n % 10]
  }

  lemma {:induction false} AmountLast(ds: seq<nat>, d: nat)
    ensures Amount(ds + [d]) == 10 * Amount(ds) + d
    decreases |ds|
  {
    if ds == [] {
      assert ([] + [d])[1..] == [] && Amount([d]) == d * Ten(0) + Amount([]);
    } else {
      assert (ds + [d])[1..] == ds[1..] + [d];
      AmountLast(ds[1..], d);
      TenTimes(ds[0], Ten(|ds| - 1));
    }
  }

  lemma TenTimes(a: nat, p: nat)
    ensures a * (10 * p) == 10 * (a * p)
  {
  }

  lemma {:induction false} DecNatWritten(n: nat)
    ensures Figures(DigitsOf(n)) == DecNat(n) && Amount(DigitsOf(n)) == n
  {
    if n < 10 {
      DigitIsFigure(n);
      assert DigitsOf(n)[1..] == [];
    } else {
      DecNatWritten(n / 10);
      DigitIsFigure(n % 10);
      AmountLast(DigitsOf(n / 10), n % 10);
    }
  }

  lemma DigitIsFigure(d: nat)
    requires d < 10
    ensures FIGURES[d] == Digit(d)
  {
    Figure(d);
  }

  /** The value of an integer in 32 bits: beyond them, the bound. */
  function Bounded(n: real): real {
    if n > 2147483647.0 then 2147483647.0 else if n < -2147483648.0 then -2147483648.0 else n
  }

  /** A number without needless digits in front. */
  predicate Neat(w: Written) {
    RightNumber(w) && w.power.NoPower? && (|w.whole| > 1 ==> w.whole[0] != 0)
  }

  /** The text `x` writes the number `n`: an integer as it is, within 32 bits, and any other number
      with three decimals and an error of half a thousandth at most. */
  ghost predicate Tells(x: string, n: real) {
    exists w :: Neat(w) && x == NumberText(w) && TellsBy(w, n)
  }

  predicate TellsBy(w: Written, n: real) {
    if n.Floor as real == n then w.fraction == [] && Worth(w) == Bounded(n)
    else |w.fraction| == 3 && -0.0005 <= Worth(w) - n <= 0.0005
  }

  /** An integer as a written number. */
  function WholeNumber(v: int): Written {
    Written(v < 0, DigitsOf(if v < 0 then -v else v), [], NoPower)
  }

  lemma WholeWritten(v: int)
    ensures Neat(WholeNumber(v)) && NumberText(WholeNumber(v)) == Dec(v) && Worth(WholeNumber(v)) == v as real
  {
    hide NumberText, DigitsOf, Figures, DecNat, Worth, Amount;
    var w := WholeNumber(v);
    DecNatWritten(if v < 0 then -v else v);
    WorthOfWhole(w);
    PlainText(w);
    SignText(w, DecNat(if v < 0 then -v else v));
  }

  lemma SignText(w: Written, digits: string)
    ensures Sign(w) + digits + "" == if w.minus then "-" + digits else digits
  {
  }

  lemma WholeTold(n: real)
    requires n.Floor as real == n
    ensures Tells(Dec(ValueInt(n)), n)
  {
    hide NumberText, WholeNumber, Dec, Worth, ValueInt, Neat;
    var v := ValueInt(n);
    ValueIntBounded(n);
    WholeWritten(v);
    NoFraction(v);
    assert TellsBy(WholeNumber(v), n);
  }

  lemma NoFraction(v: int)
    ensures WholeNumber(v).fraction == []
  {
    hide DigitsOf;
  }

  lemma ValueIntBounded(n: real)
    requires n.Floor as real == n
    ensures ValueInt(n) as real == Bounded(n)
  {
    var k := n.Floor;
    FloorOf(k);
    FloorOf(-k);
    assert -n == (-k) as real;
  }

  lemma FloorOf(k: int)
    ensures (k as real).Floor == k
  {
  }

  lemma WorthOfWhole(w: Written)
    requires w.fraction == [] && w.power.NoPower?
    ensures Worth(w) == if w.minus then -(Amount(w.whole) as real) else Amount(w.whole) as real
  {
    hide Amount;
  }

  lemma PlainText(w: Written)
    requires Neat(w)
    ensures NumberText(w) == Sign(w) + Figures(w.whole) + if w.fraction == [] then "" else "." + Figures(w.fraction)
  {
    hide Figures;
  }

  /** A rounded number of thousandths. */
  lemma Rounded(x: real)
    requires x >= 0.0
    ensures var m := (x * 1000.0 + 0.5).Floor; m >= 0 && -0.0005 <= m as real / 1000.0 - x <= 0.0005
  {
    var m := (x * 1000.0 + 0.5).Floor;
    assert m as real <= x * 1000.0 + 0.5 < m as real + 1.0;
  }

  lemma ThreeDigits(m: nat)
    ensures m == m / 1000 * 1000 + m / 100 % 10 * 100 + m / 10 % 10 * 10 + m % 10
  {
    var a, b := m / 10, m / 100;
    assert b == a / 10 && m / 1000 == b / 10;
  }

  lemma ThreePart(a: nat, b: nat, c: nat)
    ensures Part([a, b, c]) == (100 * a + 10 * b + c) as real / 1000.0
  {
    var s := [a, b, c];
    assert s[1..] == [b, c] && [b, c][1..] == [c] && [c][1..] == [];
    assert Part([c]) == c as real / 10.0;
    assert Part([b, c]) == (b as real + c as real / 10.0) / 10.0;
  }

  lemma OthersTold(n: real)
    requires n.Floor as real != n
    ensures Tells(Fixed3(n), n)
  {
    hide NumberText, Amount, Part;
    var x := if n < 0.0 then -n else n;
    var m := (x * 1000.0 + 0.5).Floor;
    Rounded(x);
    var ds := [m / 100 % 10, m / 10 % 10, m % 10];
    var w := Written(n < 0.0, DigitsOf(m / 1000), ds, NoPower);
    DecNatWritten(m / 1000);
    DigitIsFigure(ds[0]);
    DigitIsFigure(ds[1]);
    DigitIsFigure(ds[2]);
    ThreeDigits(m);
    ThreePart(ds[0], ds[1], ds[2]);
    assert Figures(ds) == [Digit(ds[0]), Digit(ds[1]), Digit(ds[2])];
    PlainText(w);
    FixedText(n, m, ds);
    assert Amount(w.whole) as real + Part(ds) == m as real / 1000.0;
    assert Worth(w) == if n < 0.0 then -(m as real / 1000.0) else m as real / 1000.0;
    assert Neat(w) && TellsBy(w, n);
  }

  lemma FixedText(n: real, m: nat, ds: seq<nat>)
    requires m == ((if n < 0.0 then -n else n) * 1000.0 + 0.5).Floor && ds == [m / 100 % 10, m / 10 % 10, m % 10]
    ensures Fixed3(n) == (if n < 0.0 then "-" else "") + DecNat(m / 1000) + ("." + [Digit(ds[0]), Digit(ds[1]), Digit(ds[2])])
  {
    hide DecNat;
  }

  /** What a variable named by a path holds, by what the path leads to: a word for a truth value, a
      string as it is, a text that writes the number; nothing else is a variable. */
  lemma VariableHolds(members: seq<Member>, d: char, path: Path)
    requires Clean(members, d) && CleanPath(path, d)
    ensures var rows, name, v := Flatten(members, "", [d]), Join(path, [d]), Lookup(members, path);
      && (v == Some(Bool(true)) ==> forall x :: (name, x) in rows <==> x == "true")
      && (v == Some(Bool(false)) ==> forall x :: (name, x) in rows <==> x == "false")
      && (v.Some? && v.value.String? ==> forall x :: (name, x) in rows <==> x == v.value.s)
      && (v.Some? && v.value.Number? ==> exists x :: Tells(x, v.value.n) && forall y :: (name, y) in rows <==> y == x)
      && (v.None? || v.value.Null? || v.value.Array? || v.value.Object? ==> forall x :: (name, x) !in rows)
  {
    hide Clean, CleanPath, Flatten, Join, Lookup, Tells;
    var v := Lookup(members, path);
    forall x
      ensures (Join(path, [d]), x) in Flatten(members, "", [d]) <==> v.Some? && Emitted(v.value) == Some(x)
    {
      VariableIff(members, d, path, x);
    }
    if v.Some? && v.value.Number? {
      var n := v.value.n;
      if n.Floor as real == n { WholeTold(n); } else { OthersTold(n); }
      assert Tells(Emitted(v.value).value, n);
    }
  }
}
