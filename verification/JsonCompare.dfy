/**
 cJSON_Compare (src/cJSON.c) on items that are not the same object: when it holds, and what it
 means.
*/
module JsonCompare {
  import opened JsonText
  import opened JsonSpec

  function Lower(key: string): string {
    if key == "" then ""
    else [if 'A' <= key[0] <= 'Z' then (key[0] as int + 32) as char else key[0]] + Lower(key[1..])
  }

  /** Capital letters, and the small ones in the same places. */
  const CAPITALS := "ABCDEFGHIJKLMNOPQRSTUVWXYZ"
  const SMALL := "abcdefghijklmnopqrstuvwxyz"

  /** One letter up to its case. */
  predicate SameLetter(a: char, b: char) {
    a == b || exists k :: 0 <= k < 26 && IsLetter(a, k) && IsLetter(b, k)
  }

  predicate IsLetter(c: char, k: nat)
    requires k < 26
  {
    c == CAPITALS[k] || c == SMALL[k]
  }

  lemma LetterAt(k: nat)
    requires k < 26
    ensures CAPITALS[k] as int == 65 + k && SMALL[k] as int == 97 + k
  {
  }

  function LowerOne(c: char): char {
    if 'A' <= c <= 'Z' then (c as int + 32) as char else c
  }

  lemma LowerLetter(c: char, k: nat)
    requires k < 26
    ensures IsLetter(c, k) <==> LowerOne(c) as int == 97 + k
  {
    LetterAt(k);
  }

  lemma LowerOneIs(a: char, b: char)
    ensures LowerOne(a) == LowerOne(b) <==> SameLetter(a, b)
  {
    hide IsLetter;
    if a != b && LowerOne(a) == LowerOne(b) {
      var k := LowerOne(a) as int - 97;
      LowerLetter(a, k);
      LowerLetter(b, k);
    }
    if k :| 0 <= k < 26 && IsLetter(a, k) && IsLetter(b, k) {
      LowerLetter(a, k);
      LowerLetter(b, k);
    }
  }

  /** Without regard to case two keys are one if and only if their letters are, one by one. */
  lemma {:induction false} LowerIs(a: string, b: string)
    ensures Lower(a) == Lower(b) <==> |a| == |b| && forall i :: 0 <= i < |a| ==> SameLetter(a[i], b[i])
    decreases |a|
  {
    hide SameLetter;
    LowerLength(a);
    LowerLength(b);
    if a != "" && b != "" {
      LowerOneIs(a[0], b[0]);
      LowerIs(a[1..], b[1..]);
      assert Lower(a) == [LowerOne(a[0])] + Lower(a[1..]) && Lower(b) == [LowerOne(b[0])] + Lower(b[1..]);
      assert Lower(a)[1..] == Lower(a[1..]) && Lower(b)[1..] == Lower(b[1..]);
      assert forall i :: 0 <= i < |a[1..]| ==> a[1..][i] == a[i + 1];
      assert forall i :: 0 <= i < |b[1..]| ==> b[1..][i] == b[i + 1];
      assert |a| == |b| ==> ((forall i :: 0 <= i < |a| ==> SameLetter(a[i], b[i]))
        <==> SameLetter(a[0], b[0]) && forall i :: 0 <= i < |a[1..]| ==> SameLetter(a[1..][i], b[1..][i]));
    }
  }

  lemma {:induction false} LowerLength(s: string)
    ensures |Lower(s)| == |s|
  {
    if s != "" { LowerLength(s[1..]); }
  }

  /** A key as far as the comparison of keys can tell. */
  function Fold(key: string, cased: bool): string {
    if cased then key else Lower(key)
  }

  /** get_object_item: the value of the first member with the key. */
  function Get(members: seq<Member>, key: string, cased: bool): (r: Option<Value>)
    ensures r.Some? ==> Depth(r.value) <= MembersDepth(members)
  {
    if members == [] then None
    else if Fold(members[0].key, cased) == Fold(key, cased) then Some(members[0].value)
    else Get(members[1..], key, cased)
  }

  function Abs(x: real): real {
    if x < 0.0 then -x else x
  }

  /** compare_double, with DBL_EPSILON the 52nd power of one half. */
  predicate Close(a: real, b: real) {
    var most := if Abs(a) > Abs(b) then Abs(a) else Abs(b);
    Abs(a - b) * 4503599627370496.0 <= most
  }

  /** The edge of the tolerance: one part in the 52nd power of two is equal, two parts are not. */
  lemma CloseEdge(x: real)
    requires x > 0.0
    ensures Close(x, x + x / 4503599627370496.0) && !Close(x, x + 2.0 * (x / 4503599627370496.0))
  {
  }

  predicate Compare(a: Value, b: Value, cased: bool)
    decreases Depth(a) + Depth(b), 0
  {
    match a
    case Null => b.Null?
    case Bool(x) => b.Bool? && x == b.b
    case Number(x) => b.Number? && Close(x, b.n)
    case String(x) => b.String? && x == b.s
    case Array(xs) => b.Array? && CompareAll(xs, b.items, cased)
    case Object(xs) => b.Object? && Covers(xs, b.members, cased) && Covers(b.members, xs, cased)
  }

  /** Arrays: element by element, and none left over. */
  predicate CompareAll(xs: seq<Value>, ys: seq<Value>, cased: bool)
    decreases ItemsDepth(xs) + ItemsDepth(ys), |xs| + 1
  {
    if xs == [] || ys == [] then xs == [] && ys == []
    else Compare(xs[0], ys[0], cased) && CompareAll(xs[1..], ys[1..], cased)
  }

  /** Every member of `xs` has its match among the members of `ys`. */
  predicate Covers(xs: seq<Member>, ys: seq<Member>, cased: bool)
    decreases MembersDepth(xs) + MembersDepth(ys), |xs| + 1
  {
    xs == [] || (
      var y := Get(ys, xs[0].key, cased);
      y.Some? && Compare(xs[0].value, y.value, cased) && Covers(xs[1..], ys, cased))
  }

  // ---------------------------------------------------------------- the algorithm

  /** cJSON_Compare without the comparison of addresses. */
  method CompareItems(a: Value, b: Value, cased: bool) returns (same: bool)
    ensures same == Compare(a, b, cased)
    decreases Depth(a) + Depth(b), 0
  {
    hide CompareAll, Covers;
    match (a, b) {
      case (Null, Null) => same := true;
      case (Bool(x), Bool(y)) => same := x == y;
      case (Number(x), Number(y)) => same := Close(x, y);
      case (String(x), String(y)) => same := x == y;
      case (Array(xs), Array(ys)) => same := CompareArrays(xs, ys, cased);
      case (Object(xs), Object(ys)) =>
        same := CompareMembers(xs, ys, cased);
        if same {
          same := CompareMembers(ys, xs, cased);
        }
      case _ => same := false;
    }
  }

  method CompareArrays(xs: seq<Value>, ys: seq<Value>, cased: bool) returns (same: bool)
    ensures same == CompareAll(xs, ys, cased)
    decreases ItemsDepth(xs) + ItemsDepth(ys), |xs| + 1
  {
    hide Compare;
    var i := 0;
    while i < |xs| && i < |ys|
      invariant i <= |xs| && i <= |ys| && CompareAll(xs, ys, cased) == CompareAll(xs[i..], ys[i..], cased)
    {
      ItemDeep(xs, i);
      ItemDeep(ys, i);
      same := CompareItems(xs[i], ys[i], cased);
      assert xs[i..][1..] == xs[i + 1..] && ys[i..][1..] == ys[i + 1..];
      if !same {
        return;
      }
      i := i + 1;
    }
    same := i == |xs| && i == |ys|;
  }

  lemma {:induction false} ItemDeep(xs: seq<Value>, i: nat)
    requires i < |xs|
    ensures Depth(xs[i]) <= ItemsDepth(xs)
    decreases i
  {
    if i > 0 { ItemDeep(xs[1..], i - 1); }
  }

  lemma {:induction false} MemberDeep(xs: seq<Member>, i: nat)
    requires i < |xs|
    ensures Depth(xs[i].value) <= MembersDepth(xs)
    decreases i
  {
    if i > 0 { MemberDeep(xs[1..], i - 1); }
  }

  method CompareMembers(xs: seq<Member>, ys: seq<Member>, cased: bool) returns (same: bool)
    ensures same == Covers(xs, ys, cased)
    decreases MembersDepth(xs) + MembersDepth(ys), |xs| + 1
  {
    hide Compare;
    for i := 0 to |xs|
      invariant Covers(xs, ys, cased) == Covers(xs[i..], ys, cased)
    {
      assert xs[i..][1..] == xs[i + 1..];
      var y := FindMember(ys, xs[i].key, cased);
      if y.None? {
        return false;
      }
      MemberDeep(xs, i);
      same := CompareItems(xs[i].value, y.value, cased);
      if !same {
        return;
      }
    }
    same := true;
  }

  method FindMember(members: seq<Member>, key: string, cased: bool) returns (r: Option<Value>)
    ensures r == Get(members, key, cased)
  {
    var i := 0;
    while i < |members| && Fold(members[i].key, cased) != Fold(key, cased)
      invariant i <= |members| && Get(members, key, cased) == Get(members[i..], key, cased)
    {
      assert members[i..][1..] == members[i + 1..];
      i := i + 1;
    }
    r := if i < |members| then Some(members[i].value) else None;
  }

  // ---------------------------------------------------------------- symmetry

  lemma {:induction false} Symmetric(a: Value, b: Value, cased: bool)
    ensures Compare(a, b, cased) == Compare(b, a, cased)
    decreases Depth(a) + Depth(b), 0
  {
    hide CompareAll, Covers;
    if a.Array? && b.Array? {
      SymmetricAll(a.items, b.items, cased);
    }
  }

  lemma {:induction false} SymmetricAll(xs: seq<Value>, ys: seq<Value>, cased: bool)
    ensures CompareAll(xs, ys, cased) == CompareAll(ys, xs, cased)
    decreases ItemsDepth(xs) + ItemsDepth(ys), |xs| + 1
  {
    hide Compare;
    if xs != [] && ys != [] {
      Symmetric(xs[0], ys[0], cased);
      SymmetricAll(xs[1..], ys[1..], cased);
    }
  }

  // ---------------------------------------------------------------- transitivity

  /** Every number is a 32-bit integer. */
  predicate Whole(v: Value) {
    match v
    case Number(n) => n.Floor as real == n && INT_MIN <= n.Floor <= INT_MAX
    case Array(items) => WholeItems(items)
    case Object(members) => WholeMembers(members)
    case _ => true
  }

  predicate WholeItems(items: seq<Value>) {
    items == [] || (Whole(items[0]) && WholeItems(items[1..]))
  }

  predicate WholeMembers(members: seq<Member>) {
    members == [] || (Whole(members[0].value) && WholeMembers(members[1..]))
  }

  /** On 32-bit integers the tolerance is too small to matter. */
  lemma CloseIsEqual(a: real, b: real)
    requires a.Floor as real == a && INT_MIN <= a.Floor <= INT_MAX
    requires b.Floor as real == b && INT_MIN <= b.Floor <= INT_MAX
    ensures Close(a, b) <==> a == b
  {
    hide Close;
    CloseInts(a.Floor, b.Floor);
  }

  lemma CloseInts(m: int, n: int)
    requires INT_MIN <= m <= INT_MAX && INT_MIN <= n <= INT_MAX
    ensures Close(m as real, n as real) <==> m == n
  {
    var a, b := m as real, n as real;
    assert a - b == (m - n) as real;
    assert Abs(a) <= 2147483648.0 && Abs(b) <= 2147483648.0;
    if m < n {
      assert (m - n) as real <= -1.0;
    } else if m > n {
      assert (m - n) as real >= 1.0;
    }
  }

  lemma {:induction false} WholeGet(members: seq<Member>, key: string, cased: bool)
    requires WholeMembers(members) && Get(members, key, cased).Some?
    ensures Whole(Get(members, key, cased).value)
    decreases |members|
  {
    hide Whole;
    if Fold(members[0].key, cased) != Fold(key, cased) {
      WholeGet(members[1..], key, cased);
    }
  }

  /** The match that `Covers` promises for the member that a key finds. */
  lemma {:induction false} CoversAt(xs: seq<Member>, ys: seq<Member>, key: string, cased: bool)
    requires Covers(xs, ys, cased) && Get(xs, key, cased).Some?
    ensures Get(ys, key, cased).Some?
    ensures Compare(Get(xs, key, cased).value, Get(ys, key, cased).value, cased)
    decreases |xs|
  {
    hide Compare;
    if Fold(xs[0].key, cased) == Fold(key, cased) {
      SameFold(ys, xs[0].key, key, cased);
    } else {
      CoversAt(xs[1..], ys, key, cased);
    }
  }

  lemma {:induction false} SameFold(members: seq<Member>, j: string, k: string, cased: bool)
    requires Fold(j, cased) == Fold(k, cased)
    ensures Get(members, j, cased) == Get(members, k, cased)
    decreases |members|
  {
    hide Fold;
    if members != [] {
      SameFold(members[1..], j, k, cased);
    }
  }

  lemma {:induction false} Transitive(a: Value, b: Value, c: Value, cased: bool)
    requires Whole(a) && Whole(b) && Whole(c) && Compare(a, b, cased) && Compare(b, c, cased)
    ensures Compare(a, c, cased)
    decreases Depth(a) + Depth(b) + Depth(c), 0
  {
    hide CompareAll, Covers, Close, WholeItems, WholeMembers;
    match a {
      case Number(x) =>
        CloseIsEqual(x, b.n);
        CloseIsEqual(b.n, c.n);
      case Array(xs) =>
        TransitiveAll(xs, b.items, c.items, cased);
      case Object(xs) =>
        TransitiveCovers(xs, b.members, c.members, cased);
        TransitiveCovers(c.members, b.members, xs, cased);
      case _ =>
    }
  }

  lemma {:induction false} TransitiveAll(xs: seq<Value>, ys: seq<Value>, zs: seq<Value>, cased: bool)
    requires WholeItems(xs) && WholeItems(ys) && WholeItems(zs) && CompareAll(xs, ys, cased) && CompareAll(ys, zs, cased)
    ensures CompareAll(xs, zs, cased)
    decreases ItemsDepth(xs) + ItemsDepth(ys) + ItemsDepth(zs), |xs| + 1
  {
    hide Compare, Whole;
    if xs != [] {
      Transitive(xs[0], ys[0], zs[0], cased);
      TransitiveAll(xs[1..], ys[1..], zs[1..], cased);
    }
  }

  lemma {:induction false} TransitiveCovers(xs: seq<Member>, ys: seq<Member>, zs: seq<Member>, cased: bool)
    requires WholeMembers(xs) && WholeMembers(ys) && WholeMembers(zs) && Covers(xs, ys, cased) && Covers(ys, zs, cased)
    ensures Covers(xs, zs, cased)
    decreases MembersDepth(xs) + MembersDepth(ys) + MembersDepth(zs), |xs| + 1
  {
    hide Compare, Whole, Get;
    if xs != [] {
      var key := xs[0].key;
      CoversAt(ys, zs, key, cased);
      WholeGet(ys, key, cased);
      WholeGet(zs, key, cased);
      Transitive(xs[0].value, Get(ys, key, cased).value, Get(zs, key, cased).value, cased);
      TransitiveCovers(xs[1..], ys, zs, cased);
    }
  }

  // ---------------------------------------------------------------- what a comparison means

  /** What a value stands for, with an object as the map from its keys to what they find. */
  datatype Sense =
    | SNull
    | SBool(b: bool)
    | SNumber(n: real)
    | SString(s: string)
    | SArray(items: seq<Sense>)
    | SObject(entries: map<string, Sense>)

  function Meaning(v: Value, cased: bool): Sense {
    match v
    case Null => SNull
    case Bool(b) => SBool(b)
    case Number(n) => SNumber(n)
    case String(s) => SString(s)
    case Array(items) => SArray(ItemsMeaning(items, cased))
    case Object(members) => SObject(MembersMeaning(members, cased))
  }

  function ItemsMeaning(items: seq<Value>, cased: bool): seq<Sense> {
    if items == [] then [] else [Meaning(items[0], cased)] + ItemsMeaning(items[1..], cased)
  }

  /** The first member with a key counts. */
  function MembersMeaning(members: seq<Member>, cased: bool): map<string, Sense> {
    if members == [] then map[]
    else MembersMeaning(members[1..], cased)[Fold(members[0].key, cased) := Meaning(members[0].value, cased)]
  }

  lemma {:induction false} MeaningAt(members: seq<Member>, key: string, cased: bool)
    ensures var m, v := MembersMeaning(members, cased), Get(members, key, cased);
      (Fold(key, cased) in m <==> v.Some?) && (v.Some? ==> m[Fold(key, cased)] == Meaning(v.value, cased))
    decreases |members|
  {
    hide Meaning, Fold;
    if members != [] {
      MeaningAt(members[1..], key, cased);
    }
  }

  /** All members with one key mean the same, in every object. */
  predicate Uniform(v: Value, cased: bool) {
    match v
    case Array(items) => UniformItems(items, cased)
    case Object(members) => UniformMembers(members, MembersMeaning(members, cased), cased)
    case _ => true
  }

  predicate UniformItems(items: seq<Value>, cased: bool) {
    items == [] || (Uniform(items[0], cased) && UniformItems(items[1..], cased))
  }

  predicate UniformMembers(members: seq<Member>, m: map<string, Sense>, cased: bool) {
    members == [] || (
      var k := Fold(members[0].key, cased);
      && Uniform(members[0].value, cased)
      && k in m && m[k] == Meaning(members[0].value, cased)
      && UniformMembers(members[1..], m, cased))
  }

  lemma {:induction false} UniformGet(xs: seq<Member>, m: map<string, Sense>, key: string, cased: bool)
    requires UniformMembers(xs, m, cased) && Get(xs, key, cased).Some?
    ensures Uniform(Get(xs, key, cased).value, cased)
    decreases |xs|
  {
    hide Uniform, Fold, Meaning;
    if Fold(xs[0].key, cased) != Fold(key, cased) {
      UniformGet(xs[1..], m, key, cased);
    }
  }

  /** The entries of `m` for the keys of `xs` are in `n` as well. */
  predicate Shared(xs: seq<Member>, m: map<string, Sense>, n: map<string, Sense>, cased: bool) {
    xs == [] || (
      var k := Fold(xs[0].key, cased);
      k in m && k in n && m[k] == n[k] && Shared(xs[1..], m, n, cased))
  }

  lemma {:induction false} SharedIsSub(xs: seq<Member>, m: map<string, Sense>, n: map<string, Sense>, cased: bool)
    ensures Shared(xs, m, n, cased) <==> forall k <- MembersMeaning(xs, cased) :: k in m && k in n && m[k] == n[k]
    decreases |xs|
  {
    hide Fold, Meaning;
    if xs != [] {
      SharedIsSub(xs[1..], m, n, cased);
    }
  }

  /** On values that are uniform a comparison is the equality of their meanings. */
  lemma {:induction false} MeaningDecides(a: Value, b: Value, cased: bool)
    requires Whole(a) && Whole(b) && Uniform(a, cased) && Uniform(b, cased)
    ensures Compare(a, b, cased) <==> Meaning(a, cased) == Meaning(b, cased)
    decreases Depth(a) + Depth(b), 0
  {
    hide CompareAll, Covers, Close, WholeItems, WholeMembers, UniformItems, UniformMembers, ItemsMeaning, MembersMeaning;
    match (a, b) {
      case (Number(x), Number(y)) => CloseIsEqual(x, y);
      case (Array(xs), Array(ys)) => MeaningDecidesAll(xs, ys, cased);
      case (Object(xs), Object(ys)) => MeaningDecidesMaps(xs, ys, cased);
      case _ =>
    }
  }

  lemma {:induction false} MeaningDecidesAll(xs: seq<Value>, ys: seq<Value>, cased: bool)
    requires WholeItems(xs) && WholeItems(ys) && UniformItems(xs, cased) && UniformItems(ys, cased)
    ensures CompareAll(xs, ys, cased) <==> ItemsMeaning(xs, cased) == ItemsMeaning(ys, cased)
    decreases ItemsDepth(xs) + ItemsDepth(ys), |xs| + 1
  {
    hide Compare, Whole, Uniform, Meaning;
    if xs != [] && ys != [] {
      MeaningDecides(xs[0], ys[0], cased);
      MeaningDecidesAll(xs[1..], ys[1..], cased);
      var s, t := ItemsMeaning(xs, cased), ItemsMeaning(ys, cased);
      assert s[1..] == ItemsMeaning(xs[1..], cased) && t[1..] == ItemsMeaning(ys[1..], cased);
      assert s == [s[0]] + s[1..] && t == [t[0]] + t[1..];
    }
  }

  lemma {:induction false} MeaningDecidesMaps(xs: seq<Member>, ys: seq<Member>, cased: bool)
    requires WholeMembers(xs) && WholeMembers(ys)
    requires UniformMembers(xs, MembersMeaning(xs, cased), cased) && UniformMembers(ys, MembersMeaning(ys, cased), cased)
    ensures Covers(xs, ys, cased) && Covers(ys, xs, cased) <==> MembersMeaning(xs, cased) == MembersMeaning(ys, cased)
    decreases MembersDepth(xs) + MembersDepth(ys), |xs| + |ys| + 2
  {
    hide Covers, WholeMembers, UniformMembers, MembersMeaning, Shared;
    var m, n := MembersMeaning(xs, cased), MembersMeaning(ys, cased);
    CoversIsShared(xs, m, ys, cased);
    CoversIsShared(ys, n, xs, cased);
    SharedIsSub(xs, m, n, cased);
    SharedIsSub(ys, n, m, cased);
  }

  lemma {:induction false} CoversIsShared(xs: seq<Member>, m: map<string, Sense>, ys: seq<Member>, cased: bool)
    requires WholeMembers(xs) && WholeMembers(ys)
    requires UniformMembers(xs, m, cased) && UniformMembers(ys, MembersMeaning(ys, cased), cased)
    ensures Covers(xs, ys, cased) <==> Shared(xs, m, MembersMeaning(ys, cased), cased)
    decreases MembersDepth(xs) + MembersDepth(ys), |xs| + 1
  {
    hide Compare, Whole, Uniform, Meaning, MembersMeaning, Get, Fold;
    if xs != [] {
      var key := xs[0].key;
      MeaningAt(ys, key, cased);
      if Get(ys, key, cased).Some? {
        WholeGet(ys, key, cased);
        UniformGet(ys, MembersMeaning(ys, cased), key, cased);
        MeaningDecides(xs[0].value, Get(ys, key, cased).value, cased);
      }
      CoversIsShared(xs[1..], m, ys, cased);
    }
  }

  // ---------------------------------------------------------------- which values equal themselves

  /** A value equals itself exactly if it is uniform. */
  lemma SelfIffUniform(v: Value, cased: bool)
    requires Whole(v)
    ensures Compare(v, v, cased) <==> Uniform(v, cased)
  {
    hide Compare, Uniform, Whole;
    if Compare(v, v, cased) {
      SelfUniform(v, cased);
    }
    if Uniform(v, cased) {
      MeaningDecides(v, v, cased);
    }
  }

  lemma {:induction false} SelfUniform(v: Value, cased: bool)
    requires Whole(v) && Compare(v, v, cased)
    ensures Uniform(v, cased)
    decreases Depth(v), 0
  {
    hide CompareAll, Covers, Close, WholeItems, WholeMembers, UniformItems, UniformMembers, MembersMeaning;
    if v.Array? {
      SelfUniformAll(v.items, cased);
    } else if v.Object? {
      SelfUniformMembers(v.members, v.members, cased);
    }
  }

  lemma {:induction false} SelfUniformAll(xs: seq<Value>, cased: bool)
    requires WholeItems(xs) && CompareAll(xs, xs, cased)
    ensures UniformItems(xs, cased)
    decreases ItemsDepth(xs), |xs| + 1
  {
    hide Compare, Whole, Uniform;
    if xs != [] {
      SelfUniform(xs[0], cased);
      SelfUniformAll(xs[1..], cased);
    }
  }

  lemma {:induction false} SelfUniformMembers(xs: seq<Member>, all: seq<Member>, cased: bool)
    requires WholeMembers(xs) && WholeMembers(all) && Covers(xs, all, cased) && MembersDepth(xs) <= MembersDepth(all)
    ensures UniformMembers(xs, MembersMeaning(all, cased), cased)
    decreases MembersDepth(all), |xs| + 1
  {
    hide Compare, Whole, Uniform, Meaning, MembersMeaning, Get, Fold;
    if xs != [] {
      var x, y := xs[0].value, Get(all, xs[0].key, cased).value;
      WholeGet(all, xs[0].key, cased);
      Symmetric(x, y, cased);
      Transitive(x, y, x, cased);
      Transitive(y, x, y, cased);
      SelfUniform(x, cased);
      SelfUniform(y, cased);
      MeaningDecides(x, y, cased);
      MeaningAt(all, xs[0].key, cased);
      SelfUniformMembers(xs[1..], all, cased);
    }
  }

  /** No object has two members with one key. */
  predicate Distinct(v: Value, cased: bool) {
    match v
    case Array(items) => DistinctItems(items, cased)
    case Object(members) => DistinctMembers(members, cased)
    case _ => true
  }

  predicate DistinctItems(items: seq<Value>, cased: bool) {
    items == [] || (Distinct(items[0], cased) && DistinctItems(items[1..], cased))
  }

  predicate DistinctMembers(members: seq<Member>, cased: bool) {
    members == [] || (
      && Distinct(members[0].value, cased) && Get(members[1..], members[0].key, cased).None?
      && DistinctMembers(members[1..], cased))
  }

  /** Values with distinct keys are uniform. */
  lemma {:induction false} DistinctIsUniform(v: Value, cased: bool)
    requires Distinct(v, cased)
    ensures Uniform(v, cased)
    decreases Depth(v), 0
  {
    hide DistinctItems, DistinctMembers, UniformItems, UniformMembers, MembersMeaning;
    if v.Array? {
      DistinctUniformAll(v.items, cased);
    } else if v.Object? {
      DistinctUniformMembers(v.members, cased);
    }
  }

  lemma {:induction false} DistinctUniformAll(xs: seq<Value>, cased: bool)
    requires DistinctItems(xs, cased)
    ensures UniformItems(xs, cased)
    decreases ItemsDepth(xs), |xs| + 1
  {
    hide Distinct, Uniform;
    if xs != [] {
      DistinctIsUniform(xs[0], cased);
      DistinctUniformAll(xs[1..], cased);
    }
  }

  lemma {:induction false} DistinctUniformMembers(xs: seq<Member>, cased: bool)
    requires DistinctMembers(xs, cased)
    ensures UniformMembers(xs, MembersMeaning(xs, cased), cased)
    decreases MembersDepth(xs), |xs| + 1
  {
    hide Distinct, Uniform, Fold, Get, Meaning;
    if xs != [] {
      DistinctIsUniform(xs[0].value, cased);
      DistinctUniformMembers(xs[1..], cased);
      UniformAmong(xs[1..], MembersMeaning(xs[1..], cased), xs[0].key, Meaning(xs[0].value, cased), cased);
    }
  }

  lemma {:induction false} UniformAmong(xs: seq<Member>, m: map<string, Sense>, key: string, s: Sense, cased: bool)
    requires UniformMembers(xs, m, cased) && Get(xs, key, cased).None?
    ensures UniformMembers(xs, m[Fold(key, cased) := s], cased)
    decreases |xs|
  {
    hide Uniform, Fold, Meaning;
    if xs != [] {
      UniformAmong(xs[1..], m, key, s, cased);
    }
  }

  /** An object with a repeated key need not equal itself. */
  lemma RepeatedKeyDiffers(cased: bool)
    ensures var v := Object([Member("a", Bool(true)), Member("a", Bool(false))]);
      !Compare(v, v, cased)
  {
    var xs := [Member("a", Bool(true)), Member("a", Bool(false))];
    assert xs[1..] == [xs[1]];
    assert Get(xs, "a", cased) == Some(Bool(true));
    assert !Compare(xs[1].value, Bool(true), cased);
    assert !Covers(xs[1..], xs, cased);
  }
}
