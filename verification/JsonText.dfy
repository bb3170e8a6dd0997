/**
 JSON values, the text src/cJSON.c prints for them, and the characters both directions share.
*/
module JsonText {

  /** A cJSON item without its links: `members` keep their order and may repeat keys. */
  datatype Value =
    | Null
    | Bool(b: bool)
    | Number(n: real)
    | String(s: string)
    | Array(items: seq<Value>)
    | Object(members: seq<Member>)

  datatype Member = Member(key: string, value: Value)

  const NESTING_LIMIT := 1000
  const INT_MAX := 0x7FFF_FFFF
  const INT_MIN := -0x8000_0000

  const NUL := 0 as char
  const BACKSPACE := 8 as char
  const FORMFEED := 12 as char

  function Max(a: nat, b: nat): nat {
    if a < b then b else a
  }

  /** How deeply arrays and objects nest. */
  function Depth(v: Value): nat {
    match v
    case Array(items) => 1 + ItemsDepth(items)
    case Object(members) => 1 + MembersDepth(members)
    case _ => 0
  }

  function ItemsDepth(items: seq<Value>): nat {
    if items == [] then 0 else Max(Depth(items[0]), ItemsDepth(items[1..]))
  }

  function MembersDepth(members: seq<Member>): nat {
    if members == [] then 0 else Max(Depth(members[0].value), MembersDepth(members[1..]))
  }

  /** A C string: no byte is NUL. */
  predicate IsCString(s: string) {
    forall i :: 0 <= i < |s| ==> s[i] != NUL
  }

  predicate IsInt32(n: real) {
    n.Floor as real == n && INT_MIN <= n.Floor <= INT_MAX
  }

  /** Trees of 32-bit integers and C strings. */
  predicate Plain(v: Value) {
    match v
    case Number(n) => IsInt32(n)
    case String(s) => IsCString(s)
    case Array(items) => PlainItems(items)
    case Object(members) => PlainMembers(members)
    case _ => true
  }

  predicate PlainItems(items: seq<Value>) {
    items == [] || (Plain(items[0]) && PlainItems(items[1..]))
  }

  predicate PlainMembers(members: seq<Member>) {
    members == [] || (IsCString(members[0].key) && Plain(members[0].value) && PlainMembers(members[1..]))
  }

  // ---------------------------------------------------------------- numbers

  function Digit(n: nat): char
    requires n < 10
  {
    (n + '0' as int) as char
  }

  predicate IsDigit(c: char) { '0' <= c <= '9' }

  function DecNat(n: nat): (s: string)
    ensures |s| > 0 && forall i :: 0 <= i < |s| ==> IsDigit(s[i])
  {
    if n < 10 then [Digit(n)] else DecNat(n / 10) + [Digit(n % 10)]
  }

  /** printf("%d"). */
  function Dec(n: int): (s: string)
    ensures |s| > 0 && (s[0] == '-' || IsDigit(s[0])) && forall i :: 1 <= i < |s| ==> IsDigit(s[i])
  {
    if n < 0 then "-" + DecNat(-n) else DecNat(n)
  }

  // ---------------------------------------------------------------- strings

  function HexDigit(n: nat): char
    requires n < 16
  {
    if n < 10 then (n + '0' as int) as char else (n - 10 + 'a' as int) as char
  }

  /** The letter that follows the backslash in a two-character escape. */
  function ShortEscape(c: char): char {
    if c == '\\' then '\\'
    else if c == '\"' then '\"'
    else if c == BACKSPACE then 'b'
    else if c == FORMFEED then 'f'
    else if c == '\n' then 'n'
    else if c == '\r' then 'r'
    else if c == '\t' then 't'
    else NUL
  }

  /** What print_string_ptr writes for one byte. */
  function Escaped(c: char): string {
    if c as int > 31 && c != '\"' && c != '\\' then [c]
    else if ShortEscape(c) != NUL then ['\\', ShortEscape(c)]
    else ['\\', 'u', '0', '0', HexDigit(c as int / 16), HexDigit(c as int % 16)]
  }

  function EscapedAll(s: string): string {
    if s == [] then [] else Escaped(s[0]) + EscapedAll(s[1..])
  }

  function Quoted(s: string): string {
    "\"" + EscapedAll(s) + "\""
  }

  // ---------------------------------------------------------------- whole values

  function Tabs(n: nat): string {
    seq(n, _ => '\t')
  }

  function NewLine(format: bool): string {
    if format then "\n" else ""
  }

  function Indent(depth: nat, format: bool): string {
    if format then Tabs(depth) else ""
  }

  /** print_value at nesting depth `depth`, formatted or not. */
  function Text(v: Value, depth: nat, format: bool): string
    requires Plain(v)
    decreases v, 0
  {
    match v
    case Null => "null"
    case Bool(b) => if b then "true" else "false"
    case Number(n) => Dec(n.Floor)
    case String(s) => Quoted(s)
    case Array(items) => "[" + ItemsText(items, depth + 1, format) + "]"
    case Object(members) =>
      "{" + (NewLine(format) + MembersText(members, depth + 1, format) + (Indent(depth, format) + "}"))
  }

  function ItemsText(items: seq<Value>, depth: nat, format: bool): string
    requires PlainItems(items)
    decreases items
  {
    if items == [] then ""
    else
      Text(items[0], depth, format)
      + (if |items| == 1 then "" else (if format then ", " else ",") + ItemsText(items[1..], depth, format))
  }

  function Colon(format: bool): string {
    if format then ":\t" else ":"
  }

  /** A key and its value, without what follows the value. */
  function MemberText(m: Member, depth: nat, format: bool): string
    requires Plain(m.value)
    decreases m.value, 1
  {
    Indent(depth, format) + Quoted(m.key) + Colon(format) + Text(m.value, depth, format)
  }

  function MembersText(members: seq<Member>, depth: nat, format: bool): string
    requires PlainMembers(members)
    decreases members
  {
    if members == [] then ""
    else
      MemberText(members[0], depth, format) + (if |members| == 1 then "" else ",") + NewLine(format)
      + MembersText(members[1..], depth, format)
  }
}
